/** Batched embedding generation and its resumable file: rows and ids stay aligned, and
    resumed runs add up to one run. */
module EmbeddingResume {
  import opened Sequences

  type Vector = seq<real>

  datatype Passage = Passage(id: string, text: string)

  /** The .npz file: an embedding matrix and the ids of its rows. */
  datatype Npz = Npz(embeddings: seq<Vector>, ids: seq<string>)

  function Encoded(encode: string -> Vector, texts: seq<string>): (rows: seq<Vector>)
    ensures |rows| == |texts|
  {
    seq(|texts|, i requires 0 <= i < |texts| => encode(texts[i]))
  }

  function Texts(ps: seq<Passage>): (texts: seq<string>)
    ensures |texts| == |ps|
  {
    seq(|ps|, i requires 0 <= i < |ps| => ps[i].text)
  }

  function IdsOf(ps: seq<Passage>): (ids: seq<string>)
    ensures |ids| == |ps|
  {
    seq(|ps|, i requires 0 <= i < |ps| => ps[i].id)
  }

  /** The passages whose id is not among the done ones; repeated ids of the corpus itself
      all stay. */
  function Remaining(ps: seq<Passage>, done: seq<string>): seq<Passage> {
    if ps == [] then []
    else
      var n := |ps| - 1;
      Remaining(ps[..n], done) + (if ps[n].id !in done then [ps[n]] else [])
  }

  function VStack(parts: seq<seq<Vector>>): seq<Vector> {
    if parts == [] then [] else VStack(parts[..|parts| - 1]) + parts[|parts| - 1]
  }

  /** What a run starts from: the readable file when resuming, nothing otherwise. */
  function Existing(file: Option<Npz>, resume: bool, loads: bool): Npz {
    if resume && file.Some? && loads && |file.value.ids| > 0 then file.value else Npz([], [])
  }

  /** The file after one run. */
  function Saved(encode: string -> Vector, file: Option<Npz>, ps: seq<Passage>, resume: bool, loads: bool): Option<Npz> {
    var existing := Existing(file, resume, loads);
    var remaining := Remaining(ps, existing.ids);
    if remaining == [] then file
    else Some(Npz(existing.embeddings + Encoded(encode, Texts(remaining)), existing.ids + IdsOf(remaining)))
  }

  /** How many encoder calls n texts take. */
  function Batches(n: int, size: int): nat
    requires size > 0
    decreases n
  {
    if n <= 0 then 0 else 1 + Batches(n - size, size)
  }

  /** That is n divided by the batch size, rounded up. */
  lemma {:induction false} BatchesRoundUp(n: int, size: int)
    requires size > 0
    ensures n > 0 ==> (Batches(n, size) - 1) * size < n <= Batches(n, size) * size
    ensures n <= 0 ==> Batches(n, size) == 0
    decreases n
  {
    if n > 0 {
      BatchesRoundUp(n - size, size);
      var c := Batches(n - size, size);
      assert (c + 1) * size == c * size + size && (c - 1) * size == c * size - size;
    }
  }

  /** Whether all encoder calls for n texts succeed, given the number of the call that
      raises, if one does. */
  predicate Encodes(raises: Option<nat>, n: nat, size: int)
    requires size > 0
  {
    raises.None? || raises.value >= Batches(n, size)
  }

  lemma SliceEnds(n: nat, start: nat, end: nat)
    requires start <= n && start <= end
    ensures start <= PrefixLength(n, end) <= n
    ensures end >= n ==> PrefixLength(n, end) == n
    ensures end <= n ==> PrefixLength(n, end) == end
  {
  }

  lemma EncodedEach(encode: string -> Vector, texts: seq<string>)
    ensures forall i :: 0 <= i < |texts| ==> Encoded(encode, texts)[i] == encode(texts[i])
  {
  }

  lemma OneMoreBatch(n: int, size: int)
    requires size > 0 && n > 0
    ensures Batches(n, size) == 1 + Batches(n - size, size)
  {
  }

  lemma NoMoreBatches(n: int, size: int)
    requires size > 0 && n <= 0
    ensures Batches(n, size) == 0
  {
  }

  lemma StackOneMore(parts: seq<seq<Vector>>, rows: seq<Vector>)
    ensures VStack(parts + [rows]) == VStack(parts) + rows
  {
    assert (parts + [rows])[..|parts|] == parts;
  }

  lemma EncodedInTwo(encode: string -> Vector, texts: seq<string>, m: nat, n: nat)
    requires m <= n <= |texts|
    ensures Encoded(encode, texts[..m]) + Encoded(encode, texts[m..n]) == Encoded(encode, texts[..n])
  {
  }

  class EmbeddingGenerator {
    const encode: string -> Vector
    const batchSize: int

    constructor (encode: string -> Vector, batchSize: int)
      ensures this.encode == encode && this.batchSize == batchSize
    {
      this.encode, this.batchSize := encode, batchSize;
    }

    /** Encodes batch by batch: the matrix is one row per text, in order, for any positive
        batch size. No text, a batch size that yields no batch, or an encoder call that
        raises is an error. */
    method Generate(texts: seq<string>, raises: Option<nat>) returns (r: Result<seq<Vector>>)
      ensures r.Ok? <==> texts != [] && batchSize > 0 && Encodes(raises, |texts|, batchSize)
      ensures r.Ok? ==> |r.value| == |texts| && forall i :: 0 <= i < |texts| ==> r.value[i] == encode(texts[i])
    {
      if texts == [] {
        return Err("texts must be a non-empty list");
      }
      if batchSize <= 0 {
        return Err("nothing to stack");
      }
      var all: seq<seq<Vector>> := [];
      var start, calls := 0, 0;
      assert VStack(all) == Encoded(encode, []) && PrefixLength(|texts|, 0) == 0;
      hide VStack, Batches, Encoded, PrefixLength;
      while start < |texts|
        invariant 0 <= start && (start <= |texts| ==> PrefixLength(|texts|, start) == start)
        invariant calls + Batches(|texts| - start, batchSize) == Batches(|texts|, batchSize)
        invariant raises.Some? ==> raises.value >= calls
        invariant VStack(all) == Encoded(encode, texts[..PrefixLength(|texts|, start)])
      {
        var end := PrefixLength(|texts|, start + batchSize);
        SliceEnds(|texts|, start, start + batchSize);
        var batch := texts[start..end];
        OneMoreBatch(|texts| - start, batchSize);
        if raises == Some(calls) {
          return Err("the encoder raised");
        }
        calls := calls + 1;
        var rows := Encoded(encode, batch);
        StackOneMore(all, rows);
        EncodedInTwo(encode, texts, start, end);
        all := all + [rows];
        start := start + batchSize;
      }
      NoMoreBatches(|texts| - start, batchSize);
      SliceEnds(|texts|, |texts|, start);
      assert texts[..|texts|] == texts;
      EncodedEach(encode, texts);
      return Ok(VStack(all));
    }

    /** Generates what the file lacks and rewrites it; `loads` says whether an existing file
        can be read back. An encoder or batch error leaves the file alone. */
    method GenerateAndSave(ps: seq<Passage>, file: Option<Npz>, resume: bool, loads: bool, raises: Option<nat>)
      returns (after: Option<Npz>, ok: bool)
      ensures var remaining := Remaining(ps, Existing(file, resume, loads).ids);
              ok == (remaining == [] || (batchSize > 0 && Encodes(raises, |remaining|, batchSize)))
      ensures after == if ok then Saved(encode, file, ps, resume, loads) else file
    {
      var existing := Npz([], []);
      if resume && file.Some? {
        if loads {
          existing := file.value;
        }
      }
      assert existing.ids == Existing(file, resume, loads).ids;
      var remaining := Remaining(ps, existing.ids);
      if remaining == [] {
        return file, true;
      }
      var r := Generate(Texts(remaining), raises);
      if r.Err? {
        return file, false;
      }
      assert r.value == Encoded(encode, Texts(remaining));
      var embeddings, ids := r.value, IdsOf(remaining);
      if |existing.ids| > 0 {
        embeddings := existing.embeddings + embeddings;
        ids := existing.ids + ids;
      }
      ghost var start := Existing(file, resume, loads);
      assert start.embeddings + Encoded(encode, Texts(remaining)) == embeddings;
      assert start.ids + IdsOf(remaining) == ids;
      after := Some(Npz(embeddings, ids));
      ok := true;
    }
  }

  // ---------------------------------------------------------------------------
  // Runs
  // ---------------------------------------------------------------------------

  /** Rows and ids are aligned and every row is the embedding of its id's text. */
  ghost predicate Faithful(encode: string -> Vector, textOf: string -> string, npz: Npz) {
    && |npz.embeddings| == |npz.ids|
    && forall i :: 0 <= i < |npz.ids| ==> npz.embeddings[i] == encode(textOf(npz.ids[i]))
  }

  /** A corpus that agrees with the common text of each id. */
  ghost predicate Agrees(textOf: string -> string, ps: seq<Passage>) {
    forall i :: 0 <= i < |ps| ==> ps[i].text == textOf(ps[i].id)
  }

  ghost predicate HasId(ps: seq<Passage>, id: string) {
    exists i :: 0 <= i < |ps| && ps[i].id == id
  }

  lemma HasIdSnoc(ps: seq<Passage>, p: Passage, id: string)
    ensures HasId(ps + [p], id) <==> HasId(ps, id) || p.id == id
  {
    var all := ps + [p];
    assert all[|ps|] == p;
    if i :| 0 <= i < |ps| && ps[i].id == id { assert all[i].id == id; }
  }

  lemma {:induction false} RemainingFacts(textOf: string -> string, ps: seq<Passage>, done: seq<string>, id: string)
    ensures HasId(Remaining(ps, done), id) <==> HasId(ps, id) && id !in done
    ensures Agrees(textOf, ps) ==> Agrees(textOf, Remaining(ps, done))
  {
    if ps == [] {
      assert !HasId([], id);
    } else {
      var n := |ps| - 1;
      var before := Remaining(ps[..n], done);
      RemainingFacts(textOf, ps[..n], done, id);
      assert ps == ps[..n] + [ps[n]];
      HasIdSnoc(ps[..n], ps[n], id);
      HasIdSnoc(before, ps[n], id);
      assert Agrees(textOf, ps) ==> ps[n].text == textOf(ps[n].id) && Agrees(textOf, ps[..n]);
      assert before + [] == before;
    }
  }

  lemma IdsOfHas(ps: seq<Passage>, id: string)
    ensures id in IdsOf(ps) <==> HasId(ps, id)
  {
    if i :| 0 <= i < |ps| && ps[i].id == id { assert IdsOf(ps)[i] == id; }
  }

  /** One run keeps the file faithful; a resumed one keeps the old rows as an unchanged
      prefix and adds exactly the missing ids. */
  lemma RunKeepsFaithful(encode: string -> Vector, textOf: string -> string, file: Option<Npz>, ps: seq<Passage>,
                         resume: bool, loads: bool)
    requires Agrees(textOf, ps) && (file.Some? ==> Faithful(encode, textOf, file.value))
    ensures var after := Saved(encode, file, ps, resume, loads);
            && (after.Some? ==> Faithful(encode, textOf, after.value))
            && (file.Some? && resume && loads ==>
                  after.Some? && file.value.ids <= after.value.ids && file.value.embeddings <= after.value.embeddings)
  {
    RemainingFacts(textOf, ps, Existing(file, resume, loads).ids, "");
  }

  function Contents(file: Option<Npz>): seq<string> { if file.Some? then file.value.ids else [] }

  lemma RunAddsIds(encode: string -> Vector, file: Option<Npz>, ps: seq<Passage>, id: string)
    ensures id in Contents(Saved(encode, file, ps, true, true)) <==> id in Contents(file) || HasId(ps, id)
  {
    var existing := Existing(file, true, true);
    var remaining := Remaining(ps, existing.ids);
    RemainingFacts(_ => "", ps, existing.ids, id);
    IdsOfHas(remaining, id);
    if remaining == [] { assert !HasId(remaining, id); }
  }

  /** Resumed runs over a list of corpora, starting without a file. */
  function RunAll(encode: string -> Vector, corpora: seq<seq<Passage>>): Option<Npz> {
    if corpora == [] then None
    else Saved(encode, RunAll(encode, corpora[..|corpora| - 1]), corpora[|corpora| - 1], true, true)
  }

  function Flatten(corpora: seq<seq<Passage>>): seq<Passage> {
    if corpora == [] then [] else Flatten(corpora[..|corpora| - 1]) + corpora[|corpora| - 1]
  }

  lemma HasIdConcat(ps: seq<Passage>, qs: seq<Passage>, id: string)
    ensures HasId(ps + qs, id) <==> HasId(ps, id) || HasId(qs, id)
  {
    if i :| 0 <= i < |ps| && ps[i].id == id { assert (ps + qs)[i].id == id; }
    if i :| 0 <= i < |qs| && qs[i].id == id { assert (ps + qs)[|ps| + i].id == id; }
  }

  lemma AgreesConcat(textOf: string -> string, ps: seq<Passage>, qs: seq<Passage>)
    requires Agrees(textOf, ps) && Agrees(textOf, qs)
    ensures Agrees(textOf, ps + qs)
  {
  }

  lemma {:induction false} RunAllFacts(encode: string -> Vector, textOf: string -> string, corpora: seq<seq<Passage>>,
                                       id: string)
    requires forall i :: 0 <= i < |corpora| ==> Agrees(textOf, corpora[i])
    ensures Agrees(textOf, Flatten(corpora))
    ensures RunAll(encode, corpora).Some? ==> Faithful(encode, textOf, RunAll(encode, corpora).value)
    ensures id in Contents(RunAll(encode, corpora)) <==> HasId(Flatten(corpora), id)
  {
    if corpora != [] {
      var n := |corpora| - 1;
      assert RunAll(encode, corpora) == Saved(encode, RunAll(encode, corpora[..n]), corpora[n], true, true);
      assert Flatten(corpora) == Flatten(corpora[..n]) + corpora[n];
      hide Saved, Faithful, HasId, Agrees, RunAll, Flatten;
      RunAllFacts(encode, textOf, corpora[..n], id);
      RunKeepsFaithful(encode, textOf, RunAll(encode, corpora[..n]), corpora[n], true, true);
      RunAddsIds(encode, RunAll(encode, corpora[..n]), corpora[n], id);
      HasIdConcat(Flatten(corpora[..n]), corpora[n], id);
      AgreesConcat(textOf, Flatten(corpora[..n]), corpora[n]);
    } else {
      assert !HasId([], id);
    }
  }

  /** The vectors of a file by id. */
  function VectorMap(npz: Npz): map<string, Vector>
    requires |npz.embeddings| == |npz.ids|
    decreases |npz.ids|
  {
    if npz.ids == [] then map[]
    else
      var n := |npz.ids| - 1;
      VectorMap(Npz(npz.embeddings[..n], npz.ids[..n]))[npz.ids[n] := npz.embeddings[n]]
  }

  lemma {:induction false} FaithfulMap(encode: string -> Vector, textOf: string -> string, npz: Npz)
    requires Faithful(encode, textOf, npz)
    ensures VectorMap(npz) == map id | id in npz.ids :: encode(textOf(id))
    decreases |npz.ids|
  {
    if npz.ids != [] {
      var n := |npz.ids| - 1;
      FaithfulMap(encode, textOf, Npz(npz.embeddings[..n], npz.ids[..n]));
      assert npz.ids == npz.ids[..n] + [npz.ids[n]];
    }
  }

  ghost function FileMap(file: Option<Npz>): map<string, Vector>
    requires file.Some? ==> |file.value.embeddings| == |file.value.ids|
  {
    if file.Some? then VectorMap(file.value) else map[]
  }

  lemma FileMapIs(encode: string -> Vector, textOf: string -> string, file: Option<Npz>)
    requires file.Some? ==> Faithful(encode, textOf, file.value)
    ensures file.Some? ==> |file.value.embeddings| == |file.value.ids|
    ensures forall id :: id in FileMap(file) <==> id in Contents(file)
    ensures forall id :: id in FileMap(file) ==> FileMap(file)[id] == encode(textOf(id))
  {
    if file.Some? { FaithfulMap(encode, textOf, file.value); }
  }

  /** Resumed embedding equals one-shot embedding: however a corpus is cut into runs, also
      with overlaps and repetitions, the vectors by id are those of one run over all of it,
      namely the embedding of each id's text. */
  lemma ResumedEqualsOneShot(encode: string -> Vector, textOf: string -> string, corpora: seq<seq<Passage>>)
    requires forall i :: 0 <= i < |corpora| ==> Agrees(textOf, corpora[i])
    ensures var resumed := RunAll(encode, corpora);
            var oneShot := Saved(encode, None, Flatten(corpora), true, true);
            && (resumed.Some? ==> Faithful(encode, textOf, resumed.value))
            && (oneShot.Some? ==> Faithful(encode, textOf, oneShot.value))
            && FileMap(resumed) == FileMap(oneShot)
            && (forall id :: id in FileMap(resumed) <==> HasId(Flatten(corpora), id))
            && (forall id :: id in FileMap(resumed) ==> FileMap(resumed)[id] == encode(textOf(id)))
  {
    var all := Flatten(corpora);
    var resumed, oneShot := RunAll(encode, corpora), RunAll(encode, [all]);
    OneRun(encode, all);
    hide Saved, RunAll, Flatten, VectorMap, Faithful, FileMap;
    RunAllFacts(encode, textOf, corpora, "");
    RunAllFacts(encode, textOf, [all], "");
    FileMapIs(encode, textOf, resumed);
    FileMapIs(encode, textOf, oneShot);
    forall id ensures id in FileMap(resumed) <==> HasId(all, id)
              ensures id in FileMap(oneShot) <==> HasId(all, id)
    {
      RunAllFacts(encode, textOf, corpora, id);
      RunAllFacts(encode, textOf, [all], id);
    }
    assert FileMap(resumed).Keys == FileMap(oneShot).Keys;
  }

  lemma OneRun(encode: string -> Vector, ps: seq<Passage>)
    ensures RunAll(encode, [ps]) == Saved(encode, None, ps, true, true)
    ensures Flatten([ps]) == ps
  {
    assert [ps][..0] == [];
  }

  /** Running again on the same corpus changes nothing. */
  lemma RerunChangesNothing(encode: string -> Vector, file: Option<Npz>, ps: seq<Passage>)
    ensures var once := Saved(encode, file, ps, true, true);
            Saved(encode, once, ps, true, true) == once
  {
    var once := Saved(encode, file, ps, true, true);
    var done := Existing(once, true, true).ids;
    var remaining := Remaining(ps, done);
    if remaining != [] {
      var id := remaining[0].id;
      assert HasId(remaining, id);
      RemainingFacts(_ => "", ps, done, id);
      RunAddsIds(encode, file, ps, id);
      assert false;
    }
  }

  /** An unreadable file is silently replaced: afterwards an id is on file exactly when the
      current corpus has it, whatever was saved before. Only an empty corpus leaves the file. */
  lemma LoadFailureForgets(encode: string -> Vector, file: Option<Npz>, ps: seq<Passage>, id: string)
    ensures ps == [] ==> Saved(encode, file, ps, true, false) == file
    ensures ps != [] ==> (id in Contents(Saved(encode, file, ps, true, false)) <==> HasId(ps, id))
  {
    if ps != [] {
      RemainingFacts(_ => "", ps, [], id);
      RemainingFacts(_ => "", ps, [], ps[0].id);
      IdsOfHas(Remaining(ps, []), id);
      assert HasId(ps, ps[0].id);
    }
  }
}
