/** Splitting a list of units into overlapping chunks, and what the chunks cover. */
module TextChunking {
  import opened Sequences
  import opened TokenTruncation

  type Units = seq<string>

  /** The slice `s[lo:hi]` for a non-negative lo; a negative hi counts from the end. */
  function Slice(s: Units, lo: nat, hi: int): Units {
    var from := if lo < |s| then lo else |s|;
    var to := PrefixLength(|s|, hi);
    if from < to then s[from..to] else []
  }

  function ChunksFrom(s: Units, start: nat, chunkSize: int, overlap: int, minChunkSize: int): seq<Units>
    requires overlap < chunkSize
    decreases |s| - start
  {
    if start >= |s| then []
    else
      var chunk := Slice(s, start, start + chunkSize);
      var rest := ChunksFrom(s, start + (chunkSize - overlap), chunkSize, overlap, minChunkSize);
      if |chunk| >= minChunkSize then [chunk] + rest else rest
  }

  method ChunkSequence(s: Units, chunkSize: int, overlap: int, minChunkSize: int) returns (chunks: seq<Units>)
    requires overlap < chunkSize
    ensures chunks == ChunksFrom(s, 0, chunkSize, overlap, minChunkSize)
  {
    hide Slice;
    var step := chunkSize - overlap;
    chunks := [];
    var start := 0;
    while start < |s|
      invariant 0 <= start
      invariant chunks + ChunksFrom(s, start, chunkSize, overlap, minChunkSize)
                == ChunksFrom(s, 0, chunkSize, overlap, minChunkSize)
      decreases |s| - start
    {
      var end := start + chunkSize;
      var chunk := Slice(s, start, end);
      ghost var rest := ChunksFrom(s, start + step, chunkSize, overlap, minChunkSize);
      assert chunks + ([chunk] + rest) == (chunks + [chunk]) + rest;
      if |chunk| >= minChunkSize {
        chunks := chunks + [chunk];
      }
      start := start + step;
    }
  }

  // ---------------------------------------------------------------------------
  // Coverage
  // ---------------------------------------------------------------------------

  /** Drops the part of every chunk that the next one repeats. */
  function Stitch(chunks: seq<Units>, step: nat): Units {
    if chunks == [] then []
    else if |chunks| == 1 then chunks[0]
    else chunks[0][..PrefixLength(|chunks[0]|, step)] + Stitch(chunks[1..], step)
  }

  /** The discarded windows form a suffix: once a window is too short, so are all later
      ones. */
  lemma {:induction false} TooShortStaysTooShort(s: Units, start: nat, chunkSize: int, overlap: int, minChunkSize: int)
    requires 0 <= overlap < chunkSize && start < |s|
    requires |Slice(s, start, start + chunkSize)| < minChunkSize
    ensures ChunksFrom(s, start, chunkSize, overlap, minChunkSize) == []
    decreases |s| - start
  {
    var next := start + (chunkSize - overlap);
    if next < |s| {
      TooShortStaysTooShort(s, next, chunkSize, overlap, minChunkSize);
    }
  }

  function Max(a: int, b: int): int { if a < b then b else a }

  /** The chunks from `start` on, stitched together, are the units from there up to an end
      that misses at most max(0, minChunkSize - 1 - overlap) trailing units. */
  ghost predicate Covered(s: Units, start: nat, chunkSize: int, overlap: int, minChunkSize: int)
    requires 0 <= overlap < chunkSize
  {
    var chunks := ChunksFrom(s, start, chunkSize, overlap, minChunkSize);
    var out := Stitch(chunks, chunkSize - overlap);
    && chunks != [] && start + |out| <= |s| && out == s[start..start + |out|]
    && |s| - (start + |out|) <= Max(0, minChunkSize - 1 - overlap)
  }

  lemma {:induction false} StitchFrom(s: Units, start: nat, chunkSize: int, overlap: int, minChunkSize: int)
    requires 0 <= overlap < chunkSize && start < |s|
    requires minChunkSize <= chunkSize && minChunkSize <= |s| - start
    ensures Covered(s, start, chunkSize, overlap, minChunkSize)
    decreases |s| - start
  {
    var next := start + (chunkSize - overlap);
    if next < |s| && minChunkSize <= |s| - next {
      StitchFrom(s, next, chunkSize, overlap, minChunkSize);
      OneMoreChunk(s, start, chunkSize, overlap, minChunkSize);
    } else {
      LastChunk(s, start, chunkSize, overlap, minChunkSize);
    }
  }

  lemma OneMoreChunk(s: Units, start: nat, chunkSize: int, overlap: int, minChunkSize: int)
    requires 0 <= overlap < chunkSize && start + (chunkSize - overlap) < |s|
    requires minChunkSize <= chunkSize && minChunkSize <= |s| - start
    requires Covered(s, start + (chunkSize - overlap), chunkSize, overlap, minChunkSize)
    ensures Covered(s, start, chunkSize, overlap, minChunkSize)
  {
    hide Slice, Stitch;
    var step := chunkSize - overlap;
    var next := start + step;
    SliceIs(s, start, chunkSize);
    var rest := ChunksFrom(s, next, chunkSize, overlap, minChunkSize);
    StitchCons(s, start, next, Slice(s, start, start + chunkSize), rest, step);
  }

  lemma LastChunk(s: Units, start: nat, chunkSize: int, overlap: int, minChunkSize: int)
    requires 0 <= overlap < chunkSize && start < |s|
    requires minChunkSize <= chunkSize && minChunkSize <= |s| - start
    requires start + (chunkSize - overlap) >= |s| || minChunkSize > |s| - (start + (chunkSize - overlap))
    ensures Covered(s, start, chunkSize, overlap, minChunkSize)
  {
    var next := start + (chunkSize - overlap);
    if next < |s| {
      TooShortStaysTooShort(s, next, chunkSize, overlap, minChunkSize);
    }
    SliceIs(s, start, chunkSize);
    hide Slice;
    var chunk := Slice(s, start, start + chunkSize);
    assert ChunksFrom(s, start, chunkSize, overlap, minChunkSize) == [chunk];
  }

  lemma SliceIs(s: Units, start: nat, chunkSize: int)
    requires start < |s| && chunkSize > 0
    ensures Slice(s, start, start + chunkSize) == s[start..PrefixLength(|s|, start + chunkSize)]
  {
  }

  lemma StitchCons(s: Units, start: nat, next: nat, chunk: Units, rest: seq<Units>, step: nat)
    requires rest != [] && start <= next <= |s| && step == next - start
    requires step <= |chunk| && chunk[..step] == s[start..next]
    requires next + |Stitch(rest, step)| <= |s| && Stitch(rest, step) == s[next..next + |Stitch(rest, step)|]
    ensures Stitch([chunk] + rest, step) == s[start..next + |Stitch(rest, step)|]
  {
    assert ([chunk] + rest)[1..] == rest;
    assert s[start..next] + s[next..next + |Stitch(rest, step)|] == s[start..next + |Stitch(rest, step)|];
  }

  /** No window is longer than the first. */
  lemma {:induction false} NoWindowFits(s: Units, start: nat, chunkSize: int, overlap: int, minChunkSize: int)
    requires overlap < chunkSize && PrefixLength(|s|, chunkSize) < minChunkSize
    ensures ChunksFrom(s, start, chunkSize, overlap, minChunkSize) == []
    decreases |s| - start
  {
    if start < |s| { NoWindowFits(s, start + (chunkSize - overlap), chunkSize, overlap, minChunkSize); }
  }

  /** There are chunks exactly when the text is not empty and its slice `[:chunk_size]` is at
      least the smallest chunk allowed, whatever the sign of overlap and chunk size. */
  lemma ChunksExistExactly(s: Units, chunkSize: int, overlap: int, minChunkSize: int)
    requires overlap < chunkSize
    ensures ChunksFrom(s, 0, chunkSize, overlap, minChunkSize) != []
            <==> s != [] && minChunkSize <= PrefixLength(|s|, chunkSize)
  {
    if PrefixLength(|s|, chunkSize) < minChunkSize {
      NoWindowFits(s, 0, chunkSize, overlap, minChunkSize);
    } else if s != [] {
      assert |Slice(s, 0, chunkSize)| == PrefixLength(|s|, chunkSize);
    }
  }

  /** Coverage: the chunks stitched together are the text without at most
      max(0, minChunkSize - 1 - overlap) trailing units. */
  lemma ChunksCover(s: Units, chunkSize: int, overlap: int, minChunkSize: int)
    requires 0 <= overlap < chunkSize && s != []
    requires minChunkSize <= chunkSize && minChunkSize <= |s|
    ensures var out := Stitch(ChunksFrom(s, 0, chunkSize, overlap, minChunkSize), chunkSize - overlap);
            out <= s && |s| - |out| <= Max(0, minChunkSize - 1 - overlap)
  {
    StitchFrom(s, 0, chunkSize, overlap, minChunkSize);
  }

  /** Whether every text that is long enough can be rebuilt from its chunks. */
  ghost predicate AlwaysRebuilds(chunkSize: int, overlap: int, minChunkSize: int)
    requires overlap < chunkSize
  {
    forall s: Units :: |s| >= minChunkSize ==> Rebuilt(s, chunkSize, overlap, minChunkSize) == s
  }

  function Rebuilt(s: Units, chunkSize: int, overlap: int, minChunkSize: int): Units
    requires overlap < chunkSize
  {
    Stitch(ChunksFrom(s, 0, chunkSize, overlap, minChunkSize), chunkSize - overlap)
  }

  /** For all parameters that pass the check, every long enough text can be rebuilt exactly
      when max(1, minChunkSize) <= overlap + 1. This rules out negative overlaps. */
  lemma RebuildsExactly(chunkSize: int, overlap: int, minChunkSize: int)
    requires overlap < chunkSize
    ensures AlwaysRebuilds(chunkSize, overlap, minChunkSize) <==> Max(1, minChunkSize) <= overlap + 1
  {
    var m := Max(1, minChunkSize);
    if m <= overlap + 1 {
      forall s: Units | |s| >= minChunkSize ensures Rebuilt(s, chunkSize, overlap, minChunkSize) == s {
        if s != [] { ChunksCover(s, chunkSize, overlap, minChunkSize); }
      }
    } else if m <= chunkSize {
      LosingText(chunkSize, overlap, m);
      var s := LosingTextOf(chunkSize, overlap, m);
      EmptyWindowsDoNotOccur(s, 0, chunkSize, overlap, minChunkSize);
      assert Rebuilt(s, chunkSize, overlap, minChunkSize) != s;
    } else {
      var s: Units := seq(m, _ => "a");
      NothingRebuilt(s, chunkSize, overlap, minChunkSize);
    }
  }

  /** A minimum below 1 keeps the same windows as 1. */
  lemma {:induction false} EmptyWindowsDoNotOccur(s: Units, start: nat, chunkSize: int, overlap: int, minChunkSize: int)
    requires overlap < chunkSize && 1 <= chunkSize
    ensures ChunksFrom(s, start, chunkSize, overlap, minChunkSize)
            == ChunksFrom(s, start, chunkSize, overlap, Max(1, minChunkSize))
    decreases |s| - start
  {
    if start < |s| {
      SliceIs(s, start, chunkSize);
      EmptyWindowsDoNotOccur(s, start + (chunkSize - overlap), chunkSize, overlap, minChunkSize);
    }
  }

  /** A shortest text for a minimum above the chunk size, or for a chunk size below 1. */
  lemma NothingRebuilt(s: Units, chunkSize: int, overlap: int, minChunkSize: int)
    requires overlap < chunkSize < |s| == Max(1, minChunkSize)
    ensures Rebuilt(s, chunkSize, overlap, minChunkSize) == []
  {
    if PrefixLength(|s|, chunkSize) < minChunkSize {
      NoWindowFits(s, 0, chunkSize, overlap, minChunkSize);
    } else {
      assert |s| == 1 && Slice(s, 0, chunkSize) == [];
      assert ChunksFrom(s, chunkSize - overlap, chunkSize, overlap, minChunkSize) == [];
      assert ChunksFrom(s, 0, chunkSize, overlap, minChunkSize) == [[]];
    }
  }

  /** One window and a bit: for a non-negative overlap the second window is one unit short
      of the minimum, for a negative one there is no second window. */
  function LosingTextOf(chunkSize: int, overlap: int, minChunkSize: int): (s: Units)
    requires overlap + 1 < minChunkSize <= chunkSize && 1 <= minChunkSize
    ensures |s| > chunkSize
  {
    var n := if overlap >= 0 then chunkSize - overlap + minChunkSize - 1 else chunkSize + 1;
    seq(n, i => "a")
  }

  lemma LosingText(chunkSize: int, overlap: int, minChunkSize: int)
    requires overlap + 1 < minChunkSize <= chunkSize && 1 <= minChunkSize
    ensures var s := LosingTextOf(chunkSize, overlap, minChunkSize);
            Stitch(ChunksFrom(s, 0, chunkSize, overlap, minChunkSize), chunkSize - overlap) == s[..chunkSize]
  {
    var s := LosingTextOf(chunkSize, overlap, minChunkSize);
    var next := chunkSize - overlap;
    if overlap >= 0 {
      TooShortStaysTooShort(s, next, chunkSize, overlap, minChunkSize);
    }
    assert ChunksFrom(s, next, chunkSize, overlap, minChunkSize) == [];
    assert ChunksFrom(s, 0, chunkSize, overlap, minChunkSize) == [s[..chunkSize]];
  }

  /** Where window number i begins. */
  function WindowStart(start: nat, step: nat, i: nat): (from: nat)
    ensures from >= start
    decreases i
  {
    if i == 0 then start else WindowStart(start + step, step, i - 1)
  }

  lemma {:induction false} WindowStartIs(start: nat, step: nat, i: nat)
    ensures WindowStart(start, step, i) == start + i * step
    decreases i
  {
    if i > 0 {
      WindowStartIs(start + step, step, i - 1);
      assert i * step == step + (i - 1) * step;
    }
  }

  ghost predicate IsWindow(s: Units, from: nat, chunkSize: int, minChunkSize: int, chunks: seq<Units>, i: nat) {
    var to := if from + chunkSize < |s| then from + chunkSize else |s|;
    && (i < |chunks| <==> from + minChunkSize <= to)
    && (i < |chunks| ==> from <= to <= |s| && chunks[i] == s[from..to])
  }

  lemma {:induction false} ChunkIsWindow(s: Units, start: nat, chunkSize: int, overlap: int, minChunkSize: int, i: nat)
    requires 0 <= overlap < chunkSize && 1 <= minChunkSize
    ensures IsWindow(s, WindowStart(start, chunkSize - overlap, i), chunkSize, minChunkSize,
                     ChunksFrom(s, start, chunkSize, overlap, minChunkSize), i)
    decreases i
  {
    hide Slice, ChunksFrom, IsWindow;
    var step, chunks := chunkSize - overlap, ChunksFrom(s, start, chunkSize, overlap, minChunkSize);
    var from := WindowStart(start, step, i);
    if start >= |s| {
      NoChunks(s, start, chunkSize, overlap, minChunkSize);
      NoWindow(s, start, from, chunkSize, minChunkSize, i);
    } else if |Slice(s, start, start + chunkSize)| < minChunkSize {
      TooShortStaysTooShort(s, start, chunkSize, overlap, minChunkSize);
      WindowIs(s, start, chunkSize);
      NoWindow(s, start, from, chunkSize, minChunkSize, i);
    } else {
      ChunksBehind(s, start, chunkSize, overlap, minChunkSize);
      if i > 0 {
        ChunkIsWindow(s, start + step, chunkSize, overlap, minChunkSize, i - 1);
        WindowBehind(s, from, chunkSize, minChunkSize, Slice(s, start, start + chunkSize),
                     ChunksFrom(s, start + step, chunkSize, overlap, minChunkSize), i);
      } else {
        WindowIs(s, start, chunkSize);
        FirstWindow(s, start, chunkSize, minChunkSize, chunks);
      }
    }
  }

  lemma NoChunks(s: Units, start: nat, chunkSize: int, overlap: int, minChunkSize: int)
    requires overlap < chunkSize && start >= |s|
    ensures ChunksFrom(s, start, chunkSize, overlap, minChunkSize) == []
  {
  }

  lemma NoWindow(s: Units, start: nat, from: nat, chunkSize: int, minChunkSize: int, i: nat)
    requires start <= from && 1 <= minChunkSize
    requires start >= |s| || start + chunkSize < start + minChunkSize || |s| - start < minChunkSize
    ensures IsWindow(s, from, chunkSize, minChunkSize, [], i)
  {
  }

  lemma FirstWindow(s: Units, start: nat, chunkSize: int, minChunkSize: int, chunks: seq<Units>)
    requires start < |s| && chunkSize > 0 && chunks != []
    requires chunks[0] == s[start..if start + chunkSize < |s| then start + chunkSize else |s|]
    requires |chunks[0]| >= minChunkSize
    ensures IsWindow(s, start, chunkSize, minChunkSize, chunks, 0)
  {
  }

  lemma WindowBehind(s: Units, from: nat, chunkSize: int, minChunkSize: int, chunk: Units, rest: seq<Units>, i: nat)
    requires i > 0 && IsWindow(s, from, chunkSize, minChunkSize, rest, i - 1)
    ensures IsWindow(s, from, chunkSize, minChunkSize, [chunk] + rest, i)
  {
  }

  lemma ChunksBehind(s: Units, start: nat, chunkSize: int, overlap: int, minChunkSize: int)
    requires overlap < chunkSize && start < |s| && |Slice(s, start, start + chunkSize)| >= minChunkSize
    ensures ChunksFrom(s, start, chunkSize, overlap, minChunkSize)
            == [Slice(s, start, start + chunkSize)]
               + ChunksFrom(s, start + (chunkSize - overlap), chunkSize, overlap, minChunkSize)
  {
  }

  /** The chunks are the windows [i*step, i*step + chunk_size), cut at the end of the text, in
      order and as far as they reach the minimum, which is at least one unit. */
  lemma ChunksAreWindows(s: Units, chunkSize: int, overlap: int, minChunkSize: int, i: nat)
    requires 0 <= overlap < chunkSize
    ensures var from := i * (chunkSize - overlap);
            var to := if from + chunkSize < |s| then from + chunkSize else |s|;
            var chunks := ChunksFrom(s, 0, chunkSize, overlap, minChunkSize);
            && (i < |chunks| <==> from + Max(1, minChunkSize) <= to)
            && (i < |chunks| ==> 0 <= from <= to <= |s| && chunks[i] == s[from..to])
  {
    hide ChunksFrom;
    EmptyWindowsDoNotOccur(s, 0, chunkSize, overlap, minChunkSize);
    ChunkIsWindow(s, 0, chunkSize, overlap, Max(1, minChunkSize), i);
    WindowStartIs(0, chunkSize - overlap, i);
  }

  lemma WindowIs(s: Units, start: nat, chunkSize: int)
    requires chunkSize > 0
    ensures start < |s| ==>
              Slice(s, start, start + chunkSize) == s[start..if start + chunkSize < |s| then start + chunkSize else |s|]
  {
  }

  /** Five words in chunks of three that share one word are three chunks, the last of which
      holds one word. */
  lemma ThreeChunks()
    ensures ChunksFrom(["a", "b", "c", "d", "e"], 0, 3, 1, 1) == [["a", "b", "c"], ["c", "d", "e"], ["e"]]
  {
    var s := ["a", "b", "c", "d", "e"];
    assert Slice(s, 4, 7) == ["e"] && Slice(s, 2, 5) == ["c", "d", "e"] && Slice(s, 0, 3) == ["a", "b", "c"];
    hide Slice;
    assert ChunksFrom(s, 6, 3, 1, 1) == [];
    assert ChunksFrom(s, 4, 3, 1, 1) == [["e"]];
    assert ChunksFrom(s, 2, 3, 1, 1) == [["c", "d", "e"], ["e"]];
  }

  // ---------------------------------------------------------------------------
  // chunk_text
  // ---------------------------------------------------------------------------

  function JoinAll(chunks: seq<Units>, unit: Unit): (out: seq<string>)
    ensures |out| == |chunks|
  {
    seq(|chunks|, i requires 0 <= i < |chunks| => if unit.Chars? then Concat(chunks[i]) else Join(chunks[i]))
  }

  /** chunk_text for the units words and chars; a blank text has no chunks whatever the
      unit. */
  function ChunkText(cls: Classifier, text: string, chunkSize: int, overlap: int, unit: Unit,
                     minChunkSize: int): Result<seq<string>>
  {
    if overlap >= chunkSize then Err("overlap must be < chunk_size")
    else if Lex(WordsOnly(cls), text) == [] then Ok([])
    else if unit.Chars? || unit.Words? then
      Ok(JoinAll(ChunksFrom(TokenTruncation.Units(cls, unit, text), 0, chunkSize, overlap, minChunkSize), unit))
    else Err("Unknown unit")
  }

  lemma {:induction false} ChunkUnitsComeFromText(s: Units, start: nat, chunkSize: int, overlap: int,
                                                  minChunkSize: int, c: Units)
    requires overlap < chunkSize && c in ChunksFrom(s, start, chunkSize, overlap, minChunkSize)
    ensures forall u :: u in c ==> u in s
    decreases |s| - start
  {
    if start < |s| && c != Slice(s, start, start + chunkSize) {
      hide Slice;
      ChunkUnitsComeFromText(s, start + (chunkSize - overlap), chunkSize, overlap, minChunkSize, c);
    }
  }

  lemma {:induction false} ConcatChars(cs: Units)
    requires forall i :: 0 <= i < |cs| ==> |cs[i]| == 1
    ensures |Concat(cs)| == |cs| && forall i :: 0 <= i < |cs| ==> [Concat(cs)[i]] == cs[i]
  {
    if cs != [] { ConcatChars(cs[..|cs| - 1]); }
  }

  /** When chunk_text raises, and when it returns anything: for a text that is not blank
      exactly when there is a window, and always as many strings as windows. */
  lemma ChunkTextOutcomes(cls: Classifier, text: string, chunkSize: int, overlap: int, unit: Unit, minChunkSize: int)
    requires unit.Chars? || unit.Words?
    ensures var r := ChunkText(cls, text, chunkSize, overlap, unit, minChunkSize);
            && (r.Err? <==> overlap >= chunkSize)
            && (r.Ok? && r.value != [] <==>
                  var units := TokenTruncation.Units(cls, unit, text);
                  overlap < chunkSize && Lex(WordsOnly(cls), text) != []
                  && minChunkSize <= PrefixLength(|units|, chunkSize))
  {
    if overlap < chunkSize && Lex(WordsOnly(cls), text) != [] {
      assert text != "";
      ChunksExistExactly(TokenTruncation.Units(cls, unit, text), chunkSize, overlap, minChunkSize);
    }
  }

  /** The chunk strings carry exactly the chunked units: splitting each returned string
      gives back the units of its window. With RebuildsExactly this makes the text's
      units recoverable from the returned strings. */
  lemma ChunkStringsSplitBack(cls: Classifier, text: string, chunkSize: int, overlap: int, unit: Unit,
                              minChunkSize: int, i: nat)
    requires Sane(cls) && (unit.Chars? || unit.Words?)
    requires var r := ChunkText(cls, text, chunkSize, overlap, unit, minChunkSize); r.Ok? && i < |r.value|
    ensures overlap < chunkSize
    ensures var chunks := ChunksFrom(TokenTruncation.Units(cls, unit, text), 0, chunkSize, overlap, minChunkSize);
            i < |chunks| == |ChunkText(cls, text, chunkSize, overlap, unit, minChunkSize).value|
            && TokenTruncation.Units(cls, unit, ChunkText(cls, text, chunkSize, overlap, unit, minChunkSize).value[i])
               == chunks[i]
  {
    var units := TokenTruncation.Units(cls, unit, text);
    var chunks := ChunksFrom(units, 0, chunkSize, overlap, minChunkSize);
    assert chunks[i] in chunks;
    ChunkUnitsComeFromText(units, 0, chunkSize, overlap, minChunkSize, chunks[i]);
    forall j | 0 <= j < |chunks[i]| ensures chunks[i][j] in units { assert chunks[i][j] in chunks[i]; }
    if unit.Words? {
      LexYieldsTokens(WordsOnly(cls), text);
      SplitUndoesJoin(cls, chunks[i]);
    } else {
      ConcatChars(chunks[i]);
    }
  }

  /** The returned strings, written out: by characters the slices of the text, by words the
      words of each window joined by blanks. */
  lemma ChunkTextReturns(cls: Classifier, text: string, chunkSize: int, overlap: int, unit: Unit, minChunkSize: int,
                         i: nat)
    requires (unit.Chars? || unit.Words?) && 0 <= overlap < chunkSize
    requires i < |ChunkText(cls, text, chunkSize, overlap, unit, minChunkSize).value|
    ensures var units := TokenTruncation.Units(cls, unit, text);
            var from := i * (chunkSize - overlap);
            var to := if from + chunkSize < |units| then from + chunkSize else |units|;
            0 <= from <= to <= |units|
            && ChunkText(cls, text, chunkSize, overlap, unit, minChunkSize).value[i]
               == if unit.Chars? then text[from..to] else Join(units[from..to])
  {
    hide ChunksFrom, Join, Concat;
    var units := TokenTruncation.Units(cls, unit, text);
    ChunksAreWindows(units, chunkSize, overlap, minChunkSize, i);
    if unit.Chars? { CharsConcat(text, i * (chunkSize - overlap), chunkSize, units); }
  }

  lemma CharsConcat(text: string, from: int, size: int, units: Units)
    requires |units| == |text| && forall i :: 0 <= i < |text| ==> units[i] == [text[i]]
    requires 0 <= from && size > 0
    ensures var to := if from + size < |text| then from + size else |text|;
            from <= to ==> Concat(units[from..to]) == text[from..to]
  {
    var to := if from + size < |text| then from + size else |text|;
    if from <= to {
      ConcatChars(units[from..to]);
      var joined := Concat(units[from..to]);
      forall k | 0 <= k < to - from ensures joined[k] == text[from..to][k] {
        assert [joined[k]] == units[from..to][k] == [text[from + k]];
      }
    }
  }
}
