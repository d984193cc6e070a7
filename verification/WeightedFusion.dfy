/** Weighted score fusion: min-max normalisation of the callers' objects in place, and
    the merge of the normalised lists. */
module WeightedFusion {
  import opened Sequences
  import opened RealFacts
  import opened RankFusion
  import opened Fusion

  // ---------------------------------------------------------------------------
  // Normalisation on values
  // ---------------------------------------------------------------------------

  function Min(x: real, y: real): real { if y < x then y else x }

  function Max(x: real, y: real): real { if y > x then y else x }

  function Lowest(rows: seq<Row>): real
    requires rows != []
  {
    if |rows| == 1 then rows[0].score else Min(Lowest(rows[..|rows| - 1]), rows[|rows| - 1].score)
  }

  function Highest(rows: seq<Row>): real
    requires rows != []
  {
    if |rows| == 1 then rows[0].score else Max(Highest(rows[..|rows| - 1]), rows[|rows| - 1].score)
  }

  /** One score after min-max normalisation; 1.0 when all scores are equal. */
  function NormScore(s: real, lo: real, hi: real): real {
    var span := hi - lo;
    if span == 0.0 then 1.0 else (s - lo) / span
  }

  function NormRows(rows: seq<Row>): (out: seq<Row>)
    ensures |out| == |rows|
  {
    if rows == [] then []
    else
      var lo, hi := Lowest(rows), Highest(rows);
      seq(|rows|, i requires 0 <= i < |rows| => rows[i].(score := NormScore(rows[i].score, lo, hi)))
  }

  ghost predicate HasScore(rows: seq<Row>, s: real) {
    exists i :: 0 <= i < |rows| && rows[i].score == s
  }

  lemma {:induction false} Extremes(rows: seq<Row>)
    requires rows != []
    ensures forall i :: 0 <= i < |rows| ==> Lowest(rows) <= rows[i].score <= Highest(rows)
    ensures HasScore(rows, Lowest(rows)) && HasScore(rows, Highest(rows))
  {
    var n := |rows| - 1;
    assert HasScore(rows, rows[n].score);
    if n > 0 {
      Extremes(rows[..n]);
      var i :| 0 <= i < n && rows[..n][i].score == Lowest(rows[..n]);
      var j :| 0 <= j < n && rows[..n][j].score == Highest(rows[..n]);
      assert rows[i].score == Lowest(rows[..n]) && rows[j].score == Highest(rows[..n]);
      forall k | 0 <= k < |rows| ensures Lowest(rows) <= rows[k].score <= Highest(rows) {
        if k < n { assert rows[..n][k] == rows[k]; }
      }
    }
  }

  lemma NormScoreFacts(s: real, lo: real, hi: real)
    requires lo <= s <= hi
    ensures 0.0 <= NormScore(s, lo, hi) <= 1.0
    ensures s == hi ==> NormScore(s, lo, hi) == 1.0
    ensures s == lo < hi ==> NormScore(s, lo, hi) == 0.0
  {
    if lo < hi { RatioFacts(s - lo, hi - lo); }
  }

  ghost predicate InUnit(rows: seq<Row>) {
    forall i :: 0 <= i < |rows| ==> 0.0 <= rows[i].score <= 1.0
  }

  /** Normalised scores are in [0,1], the best is 1 and, unless all were equal, the worst
      is 0. */
  lemma NormRowsSpanUnit(rows: seq<Row>)
    requires rows != []
    ensures InUnit(NormRows(rows)) && Highest(NormRows(rows)) == 1.0
    ensures Lowest(NormRows(rows)) == if Lowest(rows) == Highest(rows) then 1.0 else 0.0
  {
    var out, lo, hi := NormRows(rows), Lowest(rows), Highest(rows);
    Extremes(rows);
    Extremes(out);
    hide NormScore;
    forall i | 0 <= i < |rows| ensures 0.0 <= out[i].score <= 1.0 {
      NormScoreFacts(rows[i].score, lo, hi);
    }
    var best :| 0 <= best < |rows| && rows[best].score == hi;
    var worst :| 0 <= worst < |rows| && rows[worst].score == lo;
    NormScoreFacts(hi, lo, hi);
    NormScoreFacts(lo, lo, hi);
    assert out[best].score == 1.0;
    assert out[worst].score == if lo == hi then 1.0 else 0.0;
  }

  /** Normalising twice is normalising once. */
  lemma NormaliseIdempotent(rows: seq<Row>)
    ensures NormRows(NormRows(rows)) == NormRows(rows)
  {
    if rows != [] {
      NormRowsSpanUnit(rows);
      var out := NormRows(rows);
      forall i | 0 <= i < |out| ensures NormRows(out)[i] == out[i] {
        if Lowest(rows) != Highest(rows) {
          assert NormScore(out[i].score, 0.0, 1.0) == out[i].score;
        }
      }
    }
  }

  function Scaled(s: real, a: real, b: real): real { a * s + b }

  /** The same passages with every score s replaced by a * s + b. */
  function Affine(rows: seq<Row>, a: real, b: real): (out: seq<Row>)
    ensures |out| == |rows|
  {
    seq(|rows|, i requires 0 <= i < |rows| => rows[i].(score := Scaled(rows[i].score, a, b)))
  }

  lemma {:induction false} AffineExtremes(rows: seq<Row>, a: real, b: real)
    requires rows != [] && a > 0.0
    ensures Lowest(Affine(rows, a, b)) == Scaled(Lowest(rows), a, b)
    ensures Highest(Affine(rows, a, b)) == Scaled(Highest(rows), a, b)
  {
    hide Scaled;
    var n := |rows| - 1;
    if n > 0 {
      AffineExtremes(rows[..n], a, b);
      assert Affine(rows, a, b)[..n] == Affine(rows[..n], a, b);
      ScaleOrder(a, b, rows[n].score, Lowest(rows[..n]));
      ScaleOrder(a, b, Highest(rows[..n]), rows[n].score);
    }
  }

  lemma ScaleOrder(a: real, b: real, x: real, y: real)
    requires a > 0.0
    ensures x < y <==> Scaled(x, a, b) < Scaled(y, a, b)
  {
    ProductSign(y - x, a);
    assert (y - x) * a == (a * y + b) - (a * x + b);
  }

  lemma NormScoreAffine(s: real, lo: real, hi: real, a: real, b: real)
    requires a > 0.0
    ensures NormScore(Scaled(s, a, b), Scaled(lo, a, b), Scaled(hi, a, b)) == NormScore(s, lo, hi)
  {
    var span := hi - lo;
    assert (a * hi + b) - (a * lo + b) == a * span;
    assert (a * s + b) - (a * lo + b) == a * (s - lo);
    if span != 0.0 {
      CancelFactor(a, s - lo, span);
      assert a * span != 0.0;
    }
  }

  lemma CancelFactor(a: real, x: real, y: real)
    requires a > 0.0 && y != 0.0
    ensures a * y != 0.0 && (a * x) / (a * y) == x / y
  {
    var q := x / y;
    assert q * y == x;
    assert q * (a * y) == a * (q * y);
  }

  /** A positive affine change of a backend's scores does not change the normalised list. */
  lemma NormaliseIgnoresScale(rows: seq<Row>, a: real, b: real)
    requires a > 0.0
    ensures NormRows(Affine(rows, a, b)) == NormRows(rows)
  {
    hide Scaled, NormScore;
    if rows != [] {
      AffineExtremes(rows, a, b);
      forall i | 0 <= i < |rows| ensures NormRows(Affine(rows, a, b))[i] == NormRows(rows)[i] {
        NormScoreAffine(rows[i].score, Lowest(rows), Highest(rows), a, b);
      }
    }
  }

  // ---------------------------------------------------------------------------
  // Fused scores
  // ---------------------------------------------------------------------------

  /** The dictionary {passage_id: score}: the last row of an id wins. */
  function ScoreDict(rows: seq<Row>): map<string, real> {
    if rows == [] then map[]
    else ScoreDict(rows[..|rows| - 1])[rows[|rows| - 1].passage.id := rows[|rows| - 1].score]
  }

  function PassageDict(rows: seq<Row>): map<string, Passage> {
    if rows == [] then map[]
    else PassageDict(rows[..|rows| - 1])[rows[|rows| - 1].passage.id := rows[|rows| - 1].passage]
  }

  function ScoreOrZero(rows: seq<Row>, id: string): real {
    if id in ScoreDict(rows) then ScoreDict(rows)[id] else 0.0
  }

  function Mix(w: real, x: real, y: real): real { w * x + (1.0 - w) * y }

  function FusedScore(w: real, bm25: seq<Row>, dense: seq<Row>, id: string): real {
    Mix(w, ScoreOrZero(dense, id), ScoreOrZero(bm25, id))
  }

  lemma {:induction false} DictInUnit(rows: seq<Row>, id: string)
    requires InUnit(rows)
    ensures 0.0 <= ScoreOrZero(rows, id) <= 1.0
  {
    if rows != [] {
      DictInUnit(rows[..|rows| - 1], id);
    }
  }

  predicate Lists(rows: seq<Row>, id: string) {
    exists i :: 0 <= i < |rows| && rows[i].passage.id == id
  }

  lemma ListsSnoc(rows: seq<Row>, id: string)
    requires rows != []
    ensures var n := |rows| - 1; Lists(rows, id) <==> Lists(rows[..n], id) || rows[n].passage.id == id
  {
    var n := |rows| - 1;
    if i :| 0 <= i < n && rows[..n][i].passage.id == id { assert rows[i].passage.id == id; }
    if i :| 0 <= i < |rows| && rows[i].passage.id == id {
      if i < n { assert rows[..n][i].passage.id == id; }
    }
  }

  lemma {:induction false} DictIds(rows: seq<Row>, id: string)
    ensures id in ScoreDict(rows) <==> Lists(rows, id)
    ensures id in PassageDict(rows) <==> Lists(rows, id)
    ensures id in PassageDict(rows) ==> PassageDict(rows)[id].id == id
  {
    if rows != [] {
      DictIds(rows[..|rows| - 1], id);
      ListsSnoc(rows, id);
    }
  }

  /** A convex mix of scores in [0,1] is in [0,1]. */
  lemma FusedScoreInUnit(w: real, bm25: seq<Row>, dense: seq<Row>, id: string)
    requires 0.0 <= w <= 1.0 && InUnit(bm25) && InUnit(dense)
    ensures 0.0 <= FusedScore(w, bm25, dense, id) <= 1.0
  {
    hide Mix;
    DictInUnit(bm25, id);
    DictInUnit(dense, id);
    ConvexMix(w, ScoreOrZero(dense, id), ScoreOrZero(bm25, id));
  }

  lemma ConvexMix(w: real, x: real, y: real)
    requires 0.0 <= w <= 1.0 && 0.0 <= x <= 1.0 && 0.0 <= y <= 1.0
    ensures 0.0 <= Mix(w, x, y) <= 1.0
  {
    assert 0.0 <= w * x <= w;
    assert 0.0 <= (1.0 - w) * y <= 1.0 - w;
  }

  /** The fused scores do not depend on the scale of either backend, and merging the
      already normalised lists again gives the same scores. */
  lemma FusedScoresIgnoreScale(w: real, bm25: seq<Row>, dense: seq<Row>, id: string,
                               a: real, b: real, c: real, e: real)
    requires a > 0.0 && c > 0.0
    ensures FusedScore(w, NormRows(Affine(bm25, a, b)), NormRows(Affine(dense, c, e)), id)
            == FusedScore(w, NormRows(bm25), NormRows(dense), id)
    ensures FusedScore(w, NormRows(NormRows(bm25)), NormRows(NormRows(dense)), id)
            == FusedScore(w, NormRows(bm25), NormRows(dense), id)
  {
    NormaliseIgnoresScale(bm25, a, b);
    NormaliseIgnoresScale(dense, c, e);
    NormaliseIdempotent(bm25);
    NormaliseIdempotent(dense);
  }

  // ---------------------------------------------------------------------------
  // Normalisation of shared objects
  // ---------------------------------------------------------------------------

  /** An assignment of scores to objects. */
  type Scores = map<RetrievalResult, real>

  ghost predicate Covers(h: Scores, rs: seq<RetrievalResult>) {
    forall i :: 0 <= i < |rs| ==> rs[i] in h
  }

  /** The rows of a list under an assignment of scores; ranks play no part here. */
  ghost function RowsUnder(h: Scores, rs: seq<RetrievalResult>): (rows: seq<Row>)
    requires Covers(h, rs)
    ensures |rows| == |rs|
  {
    seq(|rs|, i requires 0 <= i < |rs| => Row(rs[i].passage, h[rs[i]], 0))
  }

  /** The effect of the normalising loop; an object that occurs twice is rescaled twice. */
  ghost function Rescaled(h: Scores, rs: seq<RetrievalResult>, lo: real, hi: real): (h': Scores)
    requires Covers(h, rs)
    ensures h'.Keys == h.Keys
  {
    if rs == [] then h
    else
      var h1 := Rescaled(h, rs[..|rs| - 1], lo, hi);
      var r := rs[|rs| - 1];
      h1[r := NormScore(h1[r], lo, hi)]
  }

  ghost function Normalised(h: Scores, rs: seq<RetrievalResult>): (h': Scores)
    requires Covers(h, rs)
    ensures h'.Keys == h.Keys
  {
    if rs == [] then h
    else var rows := RowsUnder(h, rs); Rescaled(h, rs, Lowest(rows), Highest(rows))
  }

  ghost predicate HoldsIn(h: Scores)
    reads h.Keys
  {
    forall r :: r in h ==> r.score == h[r]
  }

  lemma {:induction false} SameExtremes(rows: seq<Row>, other: seq<Row>)
    requires |rows| == |other| > 0 && forall i :: 0 <= i < |rows| ==> rows[i].score == other[i].score
    ensures Lowest(rows) == Lowest(other) && Highest(rows) == Highest(other)
  {
    if |rows| > 1 { SameExtremes(rows[..|rows| - 1], other[..|other| - 1]); }
  }

  /** The loop for equal scores. */
  method SetAllToOne(rs: seq<RetrievalResult>, ghost h: Scores, ghost s: real)
    requires Covers(h, rs) && HoldsIn(h)
    modifies rs
    ensures HoldsIn(Rescaled(h, rs, s, s))
    ensures forall r :: r in rs ==> r.rank == old(r.rank)
  {
    hide Rescaled, NormScore;
    RescaledNothing(h, s, s);
    for i := 0 to |rs|
      invariant HoldsIn(Rescaled(h, rs[..i], s, s))
      invariant forall r :: r in rs ==> r.rank == old(r.rank)
    {
      RescaledStep(h, rs, i, s, s);
      rs[i].score := 1.0;
    }
    assert rs[..|rs|] == rs;
  }

  /** The loop for differing scores. */
  method RescaleAll(rs: seq<RetrievalResult>, minS: real, maxS: real, ghost h: Scores)
    requires Covers(h, rs) && HoldsIn(h) && minS != maxS
    modifies rs
    ensures HoldsIn(Rescaled(h, rs, minS, maxS))
    ensures forall r :: r in rs ==> r.rank == old(r.rank)
  {
    hide Rescaled, NormScore;
    var span := maxS - minS;
    RescaledNothing(h, minS, maxS);
    for i := 0 to |rs|
      invariant HoldsIn(Rescaled(h, rs[..i], minS, maxS))
      invariant forall r :: r in rs ==> r.rank == old(r.rank)
    {
      RescaledStep(h, rs, i, minS, maxS);
      rs[i].score := (rs[i].score - minS) / span;
    }
    assert rs[..|rs|] == rs;
  }

  /** Min-max normalisation in place: the new scores of all objects under consideration
      are those of the loop, objects outside the list keep theirs, ranks do not change. */
  method Normalise(rs: seq<RetrievalResult>, ghost h: Scores)
    requires Covers(h, rs) && HoldsIn(h)
    modifies rs
    ensures HoldsIn(Normalised(h, rs))
    ensures forall r :: r in rs ==> r.rank == old(r.rank)
  {
    if rs == [] {
      return;
    }
    var minS := Lowest(Rows(rs));
    var maxS := Highest(Rows(rs));
    SameExtremes(Rows(rs), RowsUnder(h, rs));
    if maxS - minS == 0.0 {
      SetAllToOne(rs, h, minS);
    } else {
      RescaleAll(rs, minS, maxS, h);
    }
  }

  lemma RescaledNothing(h: Scores, lo: real, hi: real)
    ensures Rescaled(h, [], lo, hi) == h
  {
  }

  lemma RescaledStep(h: Scores, rs: seq<RetrievalResult>, i: nat, lo: real, hi: real)
    requires Covers(h, rs) && i < |rs|
    ensures var h1 := Rescaled(h, rs[..i], lo, hi);
            rs[i] in h1
            && Rescaled(h, rs[..i + 1], lo, hi) == h1[rs[i] := if hi - lo == 0.0 then 1.0 else (h1[rs[i]] - lo) / (hi - lo)]
  {
    assert rs[..i + 1][..i] == rs[..i];
  }

  lemma {:induction false} RescaledOnce(h: Scores, rs: seq<RetrievalResult>, lo: real, hi: real)
    requires Covers(h, rs) && Distinct(rs)
    ensures forall r :: r in h ==> Rescaled(h, rs, lo, hi)[r] == if r in rs then NormScore(h[r], lo, hi) else h[r]
  {
    if rs != [] {
      var n := |rs| - 1;
      RescaledOnce(h, rs[..n], lo, hi);
      assert rs == rs[..n] + [rs[n]];
      assert rs[n] !in rs[..n];
    }
  }

  /** A list without repeated objects is normalised like its values. */
  lemma DistinctObjectsNormalise(h: Scores, rs: seq<RetrievalResult>)
    requires Covers(h, rs) && Distinct(rs)
    ensures RowsUnder(Normalised(h, rs), rs) == NormRows(RowsUnder(h, rs))
    ensures forall r :: r in h && r !in rs ==> Normalised(h, rs)[r] == h[r]
  {
    if rs != [] {
      RescaledOnce(h, rs, Lowest(RowsUnder(h, rs)), Highest(RowsUnder(h, rs)));
    }
  }

  // Repeated objects. The loop rescales an object once per occurrence.

  /** No object repeats, or only one object is listed at all. */
  ghost predicate OnceOrSingle(rs: seq<RetrievalResult>) {
    Distinct(rs) || (forall i :: 0 <= i < |rs| ==> rs[i] == rs[0])
  }

  lemma {:induction false} AllSameExtremes(rows: seq<Row>, s: real)
    requires rows != [] && forall i :: 0 <= i < |rows| ==> rows[i].score == s
    ensures Lowest(rows) == Highest(rows) == s
  {
    if |rows| > 1 { AllSameExtremes(rows[..|rows| - 1], s); }
  }

  lemma {:induction false} SingleObjectBecomesOne(h: Scores, rs: seq<RetrievalResult>, s: real)
    requires Covers(h, rs) && rs != [] && forall i :: 0 <= i < |rs| ==> rs[i] == rs[0]
    ensures Rescaled(h, rs, s, s)[rs[0]] == 1.0
  {
    if |rs| > 1 { SingleObjectBecomesOne(h, rs[..|rs| - 1], s); }
  }

  lemma NormalisesIntoUnit(h: Scores, rs: seq<RetrievalResult>)
    requires Covers(h, rs) && OnceOrSingle(rs)
    ensures InUnit(RowsUnder(Normalised(h, rs), rs))
    ensures forall r :: r in h && r !in rs ==> Normalised(h, rs)[r] == h[r]
  {
    if Distinct(rs) {
      DistinctObjectsNormalise(h, rs);
      if rs != [] { NormRowsSpanUnit(RowsUnder(h, rs)); }
    } else {
      AllSameExtremes(RowsUnder(h, rs), h[rs[0]]);
      SingleObjectBecomesOne(h, rs, h[rs[0]]);
      OthersKeepScores(h, rs, h[rs[0]], h[rs[0]]);
    }
  }

  lemma {:induction false} OthersKeepScores(h: Scores, rs: seq<RetrievalResult>, lo: real, hi: real)
    requires Covers(h, rs)
    ensures forall r :: r in h && r !in rs ==> Rescaled(h, rs, lo, hi)[r] == h[r]
  {
    if rs != [] {
      var n := |rs| - 1;
      OthersKeepScores(h, rs[..n], lo, hi);
      assert rs == rs[..n] + [rs[n]];
    }
  }

  /** One object at -5 and all others at -10. */
  ghost function Spread(rs: seq<RetrievalResult>, x: RetrievalResult): (h: Scores)
    ensures Covers(h, rs)
  {
    map r | r in rs :: if r == x then -5.0 else -10.0
  }

  /** Rescaling from [-10, -5] takes x to 1 at its first occurrence and beyond 1 at every
      later one. */
  lemma {:induction false} RepeatedObjectEscapes(h: Scores, rs: seq<RetrievalResult>, x: RetrievalResult)
    requires Covers(h, rs) && x in h && h[x] == -5.0
    ensures var v, c := Rescaled(h, rs, -10.0, -5.0)[x], Count(rs, x);
            if c == 0 then v == -5.0 else if c == 1 then v == 1.0 else v > 1.0
  {
    if rs != [] { RepeatedObjectEscapes(h, rs[..|rs| - 1], x); }
  }

  ghost predicate IsSpread(h: Scores, rs: seq<RetrievalResult>, x: RetrievalResult) {
    Covers(h, rs) && forall i :: 0 <= i < |rs| ==> h[rs[i]] == if rs[i] == x then -5.0 else -10.0
  }

  /** A repeated object among others ends above 1. */
  lemma SpreadEscapes(h: Scores, rs: seq<RetrievalResult>, i: nat, j: nat, k: nat)
    requires i < j < |rs| && rs[i] == rs[j] && k < |rs| && rs[k] != rs[i] && IsSpread(h, rs, rs[i])
    ensures Normalised(h, rs)[rs[i]] > 1.0 && !InUnit(RowsUnder(Normalised(h, rs), rs))
  {
    var x, rows := rs[i], RowsUnder(h, rs);
    Extremes(rows);
    assert rows[i].score == -5.0 && rows[k].score == -10.0;
    CountTwice(rs, i, j);
    RepeatedObjectEscapes(h, rs, x);
    assert RowsUnder(Normalised(h, rs), rs)[i].score > 1.0;
  }

  lemma RepeatedAmongOthers(rs: seq<RetrievalResult>) returns (i: nat, j: nat, k: nat)
    requires !OnceOrSingle(rs)
    ensures i < j < |rs| && rs[i] == rs[j] && k < |rs| && rs[k] != rs[i]
  {
    i, j :| 0 <= i < j < |rs| && rs[i] == rs[j];
    k :| 0 <= k < |rs| && rs[k] != rs[0];
    if rs[k] == rs[i] { k := 0; }
  }

  /** A list normalises into [0,1] under every assignment of scores exactly when no object
      repeats or it holds a single object. */
  lemma NormalisesIntoUnitExactly(rs: seq<RetrievalResult>)
    ensures (forall h: Scores :: Covers(h, rs) ==> InUnit(RowsUnder(Normalised(h, rs), rs))) <==> OnceOrSingle(rs)
  {
    if OnceOrSingle(rs) {
      forall h: Scores | Covers(h, rs) ensures InUnit(RowsUnder(Normalised(h, rs), rs)) {
        NormalisesIntoUnit(h, rs);
      }
    } else {
      var i, j, k := RepeatedAmongOthers(rs);
      SpreadEscapes(Spread(rs, rs[i]), rs, i, j, k);
    }
  }

  /** The list x, x, y, z with scores 5, 2 and 10 leaves x below zero. */
  lemma RepeatedObjectLeavesUnit(x: RetrievalResult, y: RetrievalResult, z: RetrievalResult)
    requires x != y && y != z && x != z
    ensures Normalised(map[x := 5.0, y := 2.0, z := 10.0], [x, x, y, z])[x] < 0.0
  {
    var h, rs := map[x := 5.0, y := 2.0, z := 10.0], [x, x, y, z];
    var rows := RowsUnder(h, rs);
    Extremes(rows);
    assert rows[0].score == rows[1].score == 5.0 && rows[2].score == 2.0 && rows[3].score == 10.0;
    assert Lowest(rows) == 2.0 && Highest(rows) == 10.0;
    for i := 0 to 4
      invariant Rescaled(h, rs[..i], 2.0, 10.0)[x] == if i == 0 then 5.0 else if i == 1 then 3.0 / 8.0 else -13.0 / 64.0
    {
      RescaledStep(h, rs, i, 2.0, 10.0);
    }
    assert rs[..4] == rs;
  }

  /** The assignment after merge has normalised the BM25 list and then the dense list. */
  ghost function BothNormalised(h: Scores, bm25: seq<RetrievalResult>, dense: seq<RetrievalResult>): (h': Scores)
    requires Covers(h, bm25) && Covers(h, dense)
    ensures h'.Keys == h.Keys
  {
    Normalised(Normalised(h, bm25), dense)
  }

  /** Lists that share no object are normalised independently. */
  lemma SeparateListsNormalise(h: Scores, bm25: seq<RetrievalResult>, dense: seq<RetrievalResult>)
    requires Covers(h, bm25) && Covers(h, dense) && Distinct(bm25) && Distinct(dense)
    requires forall r :: r in bm25 ==> r !in dense
    ensures RowsUnder(BothNormalised(h, bm25, dense), bm25) == NormRows(RowsUnder(h, bm25))
    ensures RowsUnder(BothNormalised(h, bm25, dense), dense) == NormRows(RowsUnder(h, dense))
  {
    var h1 := Normalised(h, bm25);
    DistinctObjectsNormalise(h, bm25);
    DistinctObjectsNormalise(h1, dense);
    assert RowsUnder(h1, dense) == RowsUnder(h, dense);
    assert RowsUnder(BothNormalised(h, bm25, dense), bm25) == RowsUnder(h1, bm25);
  }

  /** The merged list: a ranking of the union of the ids with their fused scores, the
      passage taken from the dense list where both have it. */
  ghost predicate IsWeightedMerge(out: seq<Row>, w: real, bm25: seq<Row>, dense: seq<Row>) {
    && IsRanking(out)
    && forall p, s :: HasRow(out, p, s) <==>
         p.id in PassageDict(bm25 + dense) && p == PassageDict(bm25 + dense)[p.id]
         && s == FusedScore(w, bm25, dense, p.id)
  }

  /** The merge overwrites its arguments, but harmlessly: merging the same separate lists
      again normalises nothing further, so it ranks the same scores. */
  lemma MergeIsRepeatable(h: Scores, bm25: seq<RetrievalResult>, dense: seq<RetrievalResult>)
    requires Covers(h, bm25) && Covers(h, dense) && Distinct(bm25) && Distinct(dense)
    requires forall r :: r in bm25 ==> r !in dense
    ensures var h1 := BothNormalised(h, bm25, dense);
            var h2 := BothNormalised(h1, bm25, dense);
            RowsUnder(h2, bm25) == RowsUnder(h1, bm25) && RowsUnder(h2, dense) == RowsUnder(h1, dense)
  {
    SeparateListsNormalise(h, bm25, dense);
    SeparateListsNormalise(BothNormalised(h, bm25, dense), bm25, dense);
    NormaliseIdempotent(RowsUnder(h, bm25));
    NormaliseIdempotent(RowsUnder(h, dense));
  }

  ghost function ScoresOf(rs: seq<RetrievalResult>): (h: Scores)
    reads rs
    ensures Covers(h, rs) && HoldsIn(h)
  {
    map r | r in rs :: r.score
  }

  lemma UnionCovered(h: Scores, bm25: seq<RetrievalResult>, dense: seq<RetrievalResult>)
    requires Covers(h, bm25 + dense)
    ensures Covers(h, bm25) && Covers(h, dense)
  {
    assert forall i :: 0 <= i < |bm25| ==> (bm25 + dense)[i] == bm25[i];
    assert forall i :: 0 <= i < |dense| ==> (bm25 + dense)[|bm25| + i] == dense[i];
  }

  class ScoreFusion {
    const alpha: real
    const checks: Checks

    constructor (alpha: real, checks: Checks)
      requires 0.0 <= alpha <= 1.0
      ensures this.alpha == alpha && this.checks == checks
    {
      this.alpha := alpha;
      this.checks := checks;
    }

    /** The rows of the merged list before ranking, one fresh object of rank 0 per id of the
        two dictionaries, in any order. When ranks are checked the first of them raises. */
    method Collect(w: real, bm25: seq<Row>, dense: seq<Row>) returns (r: Result<seq<RetrievalResult>>)
      ensures r.Err? <==> bm25 + dense != [] && checks.rejectsLowRanks
      ensures r.Ok? ==> Distinct(r.value) && forall i :: 0 <= i < |r.value| ==> fresh(r.value[i])
      ensures r.Ok? ==> DuplicateFree(Rows(r.value)) && FusedRows(Rows(r.value), {}, w, bm25, dense)
    {
      hide Mix, Done, PassageDict, ScoreDict;
      var bm25Map, denseMap := ScoreDict(bm25), ScoreDict(dense);
      var payload := PassageDict(bm25 + dense);
      var todo := payload.Keys;
      NoIdsToMerge(bm25 + dense);
      var merged: seq<RetrievalResult> := [];
      while todo != {}
        invariant todo <= payload.Keys && (checks.rejectsLowRanks ==> todo == payload.Keys)
        invariant Distinct(merged) && forall i :: 0 <= i < |merged| ==> fresh(merged[i])
        invariant DuplicateFree(Rows(merged)) && FusedRows(Rows(merged), todo, w, bm25, dense)
        decreases todo
      {
        var pid :| pid in todo;
        var bm25Score := if pid in bm25Map then bm25Map[pid] else 0.0;
        var denseScore := if pid in denseMap then denseMap[pid] else 0.0;
        var row := Construct(payload[pid], Mix(w, denseScore, bm25Score), 0, checks);
        if row.Err? {
          return Err(row.error);
        }
        OneMoreRow(Rows(merged), todo, pid, w, bm25, dense);
        assert row.value !in merged;
        assert Rows(merged + [row.value]) == Rows(merged) + [RowOf(row.value)];
        merged := merged + [row.value];
        todo := todo - {pid};
      }
      return Ok(merged);
    }

    /** Weighted fusion. An out-of-range weight is an error that changes nothing. Otherwise
        both lists are normalised in place, and the merge of the normalised lists is
        returned as fresh objects; as written, any non-empty merge then raises. `h` names
        the scores of the given objects, shared or not. */
    method Merge(bm25: seq<RetrievalResult>, dense: seq<RetrievalResult>, alpha: Option<real>, ghost h: Scores)
      returns (r: Result<seq<RetrievalResult>>)
      requires Covers(h, bm25) && Covers(h, dense) && HoldsIn(h)
      modifies bm25, dense
      ensures var w := if alpha.Some? then alpha.value else this.alpha;
              if !(0.0 <= w <= 1.0) then r.Err? && HoldsIn(h)
              else
                var h' := BothNormalised(h, bm25, dense);
                && HoldsIn(h')
                && (r.Ok? <==> (checks.rejectsLowRanks ==> bm25 == [] && dense == []))
                && (r.Ok? ==> IsWeightedMerge(Rows(r.value), w, RowsUnder(h', bm25), RowsUnder(h', dense))
                              && Distinct(r.value) && forall i :: 0 <= i < |r.value| ==> fresh(r.value[i]))
      ensures forall x :: x in bm25 || x in dense ==> x.rank == old(x.rank)
    {
      hide Normalised, FusedRows, IsWeightedMerge, PassageDict;
      var w := if alpha.Some? then alpha.value else this.alpha;
      if !(0.0 <= w <= 1.0) {
        return Err("alpha must be in [0, 1]");
      }
      Normalise(bm25, h);
      Normalise(dense, Normalised(h, bm25));
      ghost var h' := BothNormalised(h, bm25, dense);
      ghost var b, d := RowsUnder(h', bm25), RowsUnder(h', dense);
      DictsIgnoreRanks(Rows(bm25), b, Rows(dense), d, w);
      var merged := Collect(w, Rows(bm25), Rows(dense));
      if merged.Err? {
        return Err(merged.error);
      }
      ghost var unranked := Rows(merged.value);
      var ranked := RankInPlace(merged.value);
      RankedMerge(unranked, w, b, d);
      forall i | 0 <= i < |ranked| ensures fresh(ranked[i]) {
        assert ranked[i] in multiset(merged.value);
      }
      return Ok(ranked);
    }
  }

  lemma NoIdsToMerge(rows: seq<Row>)
    ensures PassageDict(rows).Keys == {} <==> rows == []
  {
    if rows != [] { assert rows[|rows| - 1].passage.id in PassageDict(rows); }
  }

  /** Rows collected so far: exactly the ids no longer to do, each with its passage and
      fused score. */
  ghost predicate FusedRows(rows: seq<Row>, todo: set<string>, w: real, bm25: seq<Row>, dense: seq<Row>) {
    && (forall i :: 0 <= i < |rows| ==> Done(rows[i].passage, rows[i].score, todo, w, bm25, dense))
    && (forall id :: id in PassageDict(bm25 + dense) && id !in todo ==> Lists(rows, id))
  }

  lemma OneMoreRow(rows: seq<Row>, todo: set<string>, pid: string, w: real, bm25: seq<Row>, dense: seq<Row>)
    requires FusedRows(rows, todo, w, bm25, dense) && DuplicateFree(rows)
    requires pid in todo && pid in PassageDict(bm25 + dense)
    ensures var out := rows + [Row(PassageDict(bm25 + dense)[pid], FusedScore(w, bm25, dense, pid), 0)];
            FusedRows(out, todo - {pid}, w, bm25, dense) && DuplicateFree(out)
  {
    hide FusedScore, PassageDict;
    DictIds(bm25 + dense, pid);
    var out := rows + [Row(PassageDict(bm25 + dense)[pid], FusedScore(w, bm25, dense, pid), 0)];
    forall id | id in PassageDict(bm25 + dense) && id !in todo - {pid} ensures Lists(out, id) {
      if id == pid {
        assert out[|rows|].passage.id == id;
      } else {
        var i :| 0 <= i < |rows| && rows[i].passage.id == id;
        assert out[i].passage.id == id;
      }
    }
  }

  lemma RankedMerge(rows: seq<Row>, w: real, bm25: seq<Row>, dense: seq<Row>)
    requires DuplicateFree(rows) && FusedRows(rows, {}, w, bm25, dense)
    ensures IsWeightedMerge(AssignRanks(rows), w, bm25, dense)
  {
    hide FusedScore, PassageDict, AssignRanks;
    AssignRanksIsRanking(rows);
    forall p, s
      ensures HasRow(rows, p, s) <==>
                p.id in PassageDict(bm25 + dense) && p == PassageDict(bm25 + dense)[p.id]
                && s == FusedScore(w, bm25, dense, p.id)
    {
      if p.id in PassageDict(bm25 + dense) && p == PassageDict(bm25 + dense)[p.id]
         && s == FusedScore(w, bm25, dense, p.id) {
        var i :| 0 <= i < |rows| && rows[i].passage.id == p.id;
        assert Done(rows[i].passage, rows[i].score, {}, w, bm25, dense);
      }
    }
  }

  lemma {:induction false} DictsOfSame(rows: seq<Row>, other: seq<Row>)
    requires |rows| == |other|
    requires forall i :: 0 <= i < |rows| ==> rows[i].passage == other[i].passage && rows[i].score == other[i].score
    ensures ScoreDict(rows) == ScoreDict(other) && PassageDict(rows) == PassageDict(other)
  {
    if rows != [] { DictsOfSame(rows[..|rows| - 1], other[..|other| - 1]); }
  }

  lemma DictsIgnoreRanks(bm25: seq<Row>, b: seq<Row>, dense: seq<Row>, d: seq<Row>, w: real)
    requires |bm25| == |b| && |dense| == |d|
    requires forall i :: 0 <= i < |b| ==> bm25[i].passage == b[i].passage && bm25[i].score == b[i].score
    requires forall i :: 0 <= i < |d| ==> dense[i].passage == d[i].passage && dense[i].score == d[i].score
    ensures forall rows, todo :: FusedRows(rows, todo, w, bm25, dense) <==> FusedRows(rows, todo, w, b, d)
  {
    DictsOfSame(bm25, b);
    DictsOfSame(dense, d);
    DictsOfSame(bm25 + dense, b + d);
  }

  ghost predicate Done(p: Passage, s: real, todo: set<string>, w: real, bm25: seq<Row>, dense: seq<Row>) {
    && p.id in PassageDict(bm25 + dense) && p.id !in todo
    && p == PassageDict(bm25 + dense)[p.id] && s == FusedScore(w, bm25, dense, p.id)
  }
}
