/** Score fusion of lists that share or repeat result objects: what the two in-place
    normalisations leave, and exactly when every score ends in [0,1]. */
module SharedObjects {
  import opened Sequences
  import opened RealFacts
  import opened RankFusion
  import opened Fusion
  import opened WeightedFusion

  /** Every repeated object of the first list is in the second. */
  ghost predicate RepeatsListed(bm25: seq<RetrievalResult>, dense: seq<RetrievalResult>) {
    forall i, j :: 0 <= i < j < |bm25| && bm25[i] == bm25[j] ==> bm25[i] in dense
  }

  lemma {:induction false} ListedOnce(h: Scores, rs: seq<RetrievalResult>, i: nat, lo: real, hi: real)
    requires Covers(h, rs) && i < |rs| && forall j :: 0 <= j < |rs| && j != i ==> rs[j] != rs[i]
    ensures Rescaled(h, rs, lo, hi)[rs[i]] == NormScore(h[rs[i]], lo, hi)
  {
    var n := |rs| - 1;
    if i < n {
      ListedOnce(h, rs[..n], i, lo, hi);
    } else {
      OthersKeepScores(h, rs[..n], lo, hi);
    }
  }

  /** An object that occurs once ends in [0,1], whatever else repeats. */
  lemma OnceIntoUnit(h: Scores, rs: seq<RetrievalResult>, i: nat)
    requires Covers(h, rs) && i < |rs| && forall j :: 0 <= j < |rs| && j != i ==> rs[j] != rs[i]
    ensures 0.0 <= Normalised(h, rs)[rs[i]] <= 1.0
  {
    var rows := RowsUnder(h, rs);
    Extremes(rows);
    assert rows[i].score == h[rs[i]];
    ListedOnce(h, rs, i, Lowest(rows), Highest(rows));
    NormScoreFacts(h[rs[i]], Lowest(rows), Highest(rows));
  }

  lemma NotInOther(h: Scores, rs: seq<RetrievalResult>, r: RetrievalResult)
    requires Covers(h, rs) && r in h && r !in rs
    ensures Normalised(h, rs)[r] == h[r]
  {
    if rs != [] { OthersKeepScores(h, rs, Lowest(RowsUnder(h, rs)), Highest(RowsUnder(h, rs))); }
  }

  /** Both lists hold the same objects. */
  ghost predicate SameObjects(bm25: seq<RetrievalResult>, dense: seq<RetrievalResult>) {
    (forall r | r in bm25 :: r in dense) && (forall r | r in dense :: r in bm25)
  }

  /** Either the dense list repeats no object among others and renormalises those the BM25
      list repeats, or both lists hold the same objects, in the BM25 list once each. */
  ghost predicate KeepsUnit(bm25: seq<RetrievalResult>, dense: seq<RetrievalResult>) {
    || (OnceOrSingle(dense) && (OnceOrSingle(bm25) || RepeatsListed(bm25, dense)))
    || (Distinct(bm25) && SameObjects(bm25, dense))
  }

  /** Both lists are in [0,1] once they have been normalised. */
  ghost predicate BothInUnit(h: Scores, bm25: seq<RetrievalResult>, dense: seq<RetrievalResult>)
    requires Covers(h, bm25) && Covers(h, dense)
  {
    var h2 := BothNormalised(h, bm25, dense);
    InUnit(RowsUnder(h2, bm25)) && InUnit(RowsUnder(h2, dense))
  }

  // ---------------------------------------------------------------------------
  // Repeated rescaling
  // ---------------------------------------------------------------------------

  /** A score after c rescalings. */
  function NormTimes(s: real, lo: real, hi: real, c: nat): real {
    if c == 0 then s else NormScore(NormTimes(s, lo, hi, c - 1), lo, hi)
  }

  /** The loop rescales an object once per occurrence. */
  lemma {:induction false} RescaledTimes(h: Scores, rs: seq<RetrievalResult>, lo: real, hi: real, r: RetrievalResult)
    requires Covers(h, rs) && r in h
    ensures Rescaled(h, rs, lo, hi)[r] == NormTimes(h[r], lo, hi, Count(rs, r))
  {
    if rs != [] { RescaledTimes(h, rs[..|rs| - 1], lo, hi, r); }
  }

  /** All scores of a list lie between those at positions p and q. */
  ghost predicate Between(h: Scores, rs: seq<RetrievalResult>, p: nat, q: nat)
    requires Covers(h, rs) && p < |rs| && q < |rs|
  {
    forall i :: 0 <= i < |rs| ==> h[rs[p]] <= h[rs[i]] <= h[rs[q]]
  }

  lemma NormalisedTimes(h: Scores, rs: seq<RetrievalResult>, p: nat, q: nat, r: RetrievalResult)
    requires Covers(h, rs) && p < |rs| && q < |rs| && r in h && Between(h, rs, p, q)
    ensures Normalised(h, rs)[r] == NormTimes(h[r], h[rs[p]], h[rs[q]], Count(rs, r))
  {
    var rows := RowsUnder(h, rs);
    Extremes(rows);
    assert rows[p].score == h[rs[p]] && rows[q].score == h[rs[q]];
    RescaledTimes(h, rs, Lowest(rows), Highest(rows), r);
  }

  lemma {:induction false} UnitIsFixed(s: real, c: nat)
    ensures NormTimes(s, 0.0, 1.0, c) == s
  {
    if c > 0 { UnitIsFixed(s, c - 1); }
  }

  lemma {:induction false} EqualBecomesOne(s: real, lo: real, c: nat)
    requires c > 0
    ensures NormTimes(s, lo, lo, c) == 1.0
  {
  }

  lemma {:induction false} TopStaysOne(hi: real, lo: real, c: nat)
    requires lo < hi == 1.0
    ensures lo == -1.0 ==> NormTimes(hi, lo, hi, c) == 1.0
  {
    if c > 0 { TopStaysOne(hi, lo, c - 1); }
  }

  /** A positive minimum drops to 0 at its first occurrence and below 0 at every later one. */
  lemma {:induction false} MinimumDrops(lo: real, hi: real, c: nat)
    requires 0.0 < lo < hi
    ensures c == 1 ==> NormTimes(lo, lo, hi, c) == 0.0
    ensures c >= 2 ==> NormTimes(lo, lo, hi, c) < 0.0
  {
    if c > 0 {
      MinimumDrops(lo, hi, c - 1);
      BelowGoesNegative(NormTimes(lo, lo, hi, c - 1), lo, hi);
    }
  }

  lemma BelowGoesNegative(v: real, lo: real, hi: real)
    requires lo < hi
    ensures v < lo ==> NormScore(v, lo, hi) < 0.0
    ensures v == lo ==> NormScore(v, lo, hi) == 0.0
  {
    var span, q := hi - lo, (v - lo) / (hi - lo);
    assert q * span == v - lo;
    ProductSign(-q, span);
  }

  /** From the bottom of [-1, 1]: 0, then between one half and one. */
  lemma {:induction false} BottomRises(c: nat)
    requires c >= 1
    ensures c == 1 ==> NormTimes(-1.0, -1.0, 1.0, c) == 0.0
    ensures c >= 2 ==> 0.5 <= NormTimes(-1.0, -1.0, 1.0, c) < 1.0
  {
    if c > 1 { BottomRises(c - 1); }
  }

  /** Over a span of 1 starting at -2 every rescaling adds 2. */
  lemma {:induction false} AddsTwo(s: real, c: nat)
    ensures NormTimes(s, -2.0, -1.0, c) == s + 2.0 * c as real
  {
    if c > 0 { AddsTwo(s, c - 1); }
  }

  /** If the least object of the dense list is positive after the first normalisation,
      repeats and is not alone, the second leaves it below zero. */
  lemma MinimumSinks(h: Scores, bm25: seq<RetrievalResult>, dense: seq<RetrievalResult>, i: nat, j: nat, k: nat)
    requires Covers(h, bm25) && Covers(h, dense) && i < j < |dense| && dense[i] == dense[j] && k < |dense|
    requires var h1 := Normalised(h, bm25);
             && 0.0 < h1[dense[i]] < h1[dense[k]]
             && forall m :: 0 <= m < |dense| ==> h1[dense[i]] <= h1[dense[m]]
    ensures !BothInUnit(h, bm25, dense)
  {
    var h1 := Normalised(h, bm25);
    var rows := RowsUnder(h1, dense);
    Extremes(rows);
    var q :| 0 <= q < |rows| && rows[q].score == Highest(rows);
    assert forall m :: 0 <= m < |dense| ==> rows[m].score == h1[dense[m]];
    hide Normalised;
    NormalisedTimes(h1, dense, i, q, dense[i]);
    CountTwice(dense, i, j);
    MinimumDrops(h1[dense[i]], h1[dense[q]], Count(dense, dense[i]));
    assert RowsUnder(BothNormalised(h, bm25, dense), dense)[i].score < 0.0;
  }

  // ---------------------------------------------------------------------------
  // When all scores end in [0,1]
  // ---------------------------------------------------------------------------

  /** Under that condition every score of both lists ends in [0,1]. */
  lemma SharedObjectsStayInUnit(h: Scores, bm25: seq<RetrievalResult>, dense: seq<RetrievalResult>)
    requires Covers(h, bm25) && Covers(h, dense) && KeepsUnit(bm25, dense)
    ensures BothInUnit(h, bm25, dense)
  {
    if OnceOrSingle(dense) && (OnceOrSingle(bm25) || RepeatsListed(bm25, dense)) {
      DenseRenormalises(h, bm25, dense);
    } else {
      SameObjectsStayInUnit(h, bm25, dense);
    }
  }

  lemma DenseRenormalises(h: Scores, bm25: seq<RetrievalResult>, dense: seq<RetrievalResult>)
    requires Covers(h, bm25) && Covers(h, dense) && OnceOrSingle(dense)
    requires OnceOrSingle(bm25) || RepeatsListed(bm25, dense)
    ensures BothInUnit(h, bm25, dense)
  {
    hide Normalised;
    var h1, h2 := Normalised(h, bm25), BothNormalised(h, bm25, dense);
    if OnceOrSingle(bm25) { NormalisesIntoUnit(h, bm25); }
    NormalisesIntoUnit(h1, dense);
    var first, last := RowsUnder(h1, bm25), RowsUnder(h2, dense);
    forall i | 0 <= i < |bm25| ensures 0.0 <= RowsUnder(h2, bm25)[i].score <= 1.0 {
      if bm25[i] in dense {
        var j :| 0 <= j < |dense| && dense[j] == bm25[i];
        assert last[j].score == h2[bm25[i]];
      } else if OnceOrSingle(bm25) {
        assert first[i].score == h2[bm25[i]];
      } else {
        OnceIntoUnit(h, bm25, i);
      }
    }
  }

  lemma NothingInCommon(bm25: seq<RetrievalResult>, dense: seq<RetrievalResult>)
    requires SameObjects(bm25, dense)
    ensures bm25 == [] <==> dense == []
  {
    assert bm25 != [] ==> bm25[0] in dense;
    assert dense != [] ==> dense[0] in bm25;
  }

  /** With the same objects in both lists, the second normalisation finds the span [0,1] and
      changes nothing, or finds only ones. */
  lemma SameObjectsStayInUnit(h: Scores, bm25: seq<RetrievalResult>, dense: seq<RetrievalResult>)
    requires Covers(h, bm25) && Covers(h, dense) && Distinct(bm25) && SameObjects(bm25, dense)
    ensures BothInUnit(h, bm25, dense)
  {
    NothingInCommon(bm25, dense);
    if bm25 != [] {
      var h1 := Normalised(h, bm25);
      var p, q := NormalisedExtremes(h, bm25);
      assert bm25[p] in dense && bm25[q] in dense;
      var p' :| 0 <= p' < |dense| && dense[p'] == bm25[p];
      var q' :| 0 <= q' < |dense| && dense[q'] == bm25[q];
      forall i | 0 <= i < |dense| ensures h1[dense[p']] <= h1[dense[i]] <= h1[dense[q']] {
        assert dense[i] in bm25;
      }
      forall r | r in dense ensures 0.0 <= BothNormalised(h, bm25, dense)[r] <= 1.0 {
        assert r in bm25;
        CountPositive(dense, r);
        NormalisedTimes(h1, dense, p', q', r);
        hide Normalised;
        if h1[bm25[p]] == 0.0 {
          UnitIsFixed(h1[r], Count(dense, r));
        } else {
          EqualBecomesOne(h1[r], 1.0, Count(dense, r));
        }
      }
    }
  }

  /** After normalising a list without repetitions its scores span [0,1] or are all 1. */
  lemma NormalisedExtremes(h: Scores, rs: seq<RetrievalResult>) returns (p: nat, q: nat)
    requires Covers(h, rs) && Distinct(rs) && rs != []
    ensures p < |rs| && q < |rs| && Between(Normalised(h, rs), rs, p, q)
    ensures var h1 := Normalised(h, rs);
            h1[rs[q]] == 1.0 && (h1[rs[p]] == 0.0 || h1[rs[p]] == 1.0)
    ensures forall r :: r in rs ==> 0.0 <= Normalised(h, rs)[r] <= 1.0
  {
    var h1 := Normalised(h, rs);
    var norm := RowsUnder(h1, rs);
    DistinctObjectsNormalise(h, rs);
    NormRowsSpanUnit(RowsUnder(h, rs));
    Extremes(norm);
    hide Normalised;
    p :| 0 <= p < |norm| && norm[p].score == Lowest(norm);
    q :| 0 <= q < |norm| && norm[q].score == Highest(norm);
    forall i | 0 <= i < |rs| ensures h1[rs[p]] <= h1[rs[i]] <= h1[rs[q]] && 0.0 <= h1[rs[i]] <= 1.0 {
      assert norm[i].score == h1[rs[i]];
    }
  }

  // Assignments that leave [0,1] when the condition fails.

  /** A repeated object of the BM25 list that the dense list does not renormalise. */
  lemma UnlistedEscapes(bm25: seq<RetrievalResult>, dense: seq<RetrievalResult>) returns (h: Scores)
    requires !OnceOrSingle(bm25) && !RepeatsListed(bm25, dense)
    ensures Covers(h, bm25) && Covers(h, dense) && !BothInUnit(h, bm25, dense)
  {
    var i, j :| 0 <= i < j < |bm25| && bm25[i] == bm25[j] && bm25[i] !in dense;
    var k :| 0 <= k < |bm25| && bm25[k] != bm25[i];
    h := Spread(bm25 + dense, bm25[i]);
    UnionCovered(h, bm25, dense);
    SpreadEscapes(h, bm25, i, j, k);
    NotInOther(Normalised(h, bm25), dense, bm25[i]);
    assert RowsUnder(BothNormalised(h, bm25, dense), bm25)[i].score > 1.0;
  }

  ghost predicate RepeatsAt(rs: seq<RetrievalResult>, i: nat, j: nat, k: nat) {
    i < j < |rs| && rs[i] == rs[j] && k < |rs| && rs[k] != rs[i]
  }

  /** An object o of the dense list is not in the BM25 list: all of the BM25 list at 1. */
  ghost function OutsideScores(bm25: seq<RetrievalResult>, dense: seq<RetrievalResult>, x: RetrievalResult): (h: Scores)
    ensures Covers(h, bm25) && Covers(h, dense)
  {
    var h: Scores := map r | r in bm25 + dense ::
      if r in bm25 then 1.0 else if x in bm25 then 10.0 else if r == x then 0.5 else 1.0;
    UnionCovered(h, bm25, dense);
    h
  }

  lemma OutsideSinks(bm25: seq<RetrievalResult>, dense: seq<RetrievalResult>, i: nat, j: nat, k: nat, o: nat)
    requires RepeatsAt(dense, i, j, k) && o < |dense| && dense[o] !in bm25
    ensures !BothInUnit(OutsideScores(bm25, dense, dense[i]), bm25, dense)
  {
    var x := dense[i];
    var h := OutsideScores(bm25, dense, x);
    forall m | 0 <= m < |dense| ensures Normalised(h, bm25)[dense[m]] == h[dense[m]] {
      OnesStay(h, bm25, dense[m]);
    }
    hide Normalised;
    if x in bm25 {
      MinimumSinks(h, bm25, dense, i, j, o);
    } else {
      MinimumSinks(h, bm25, dense, i, j, k);
    }
  }

  lemma OnesStay(h: Scores, rs: seq<RetrievalResult>, r: RetrievalResult)
    requires Covers(h, rs) && r in h && forall i :: 0 <= i < |rs| ==> h[rs[i]] == 1.0
    ensures Normalised(h, rs)[r] == h[r]
  {
    if r in rs {
      var i :| 0 <= i < |rs| && rs[i] == r;
      NormalisedTimes(h, rs, i, i, r);
      CountPositive(rs, r);
      EqualBecomesOne(h[r], 1.0, Count(rs, r));
    } else {
      NotInOther(h, rs, r);
    }
  }

  /** Object o at lo, object x at mid, all others at hi. */
  ghost function ThreeScores(rs: seq<RetrievalResult>, o: RetrievalResult, lo: real, x: RetrievalResult, mid: real,
                             hi: real): (h: Scores)
    ensures Covers(h, rs)
  {
    map r | r in rs :: if r == o then lo else if r == x then mid else hi
  }

  /** An object o of the BM25 list is not in the dense list, which it contains: o = 0,
      x = 1/2, all others 1, which the first normalisation leaves as they are. */
  lemma MissingSinks(bm25: seq<RetrievalResult>, dense: seq<RetrievalResult>, i: nat, j: nat, k: nat, o: nat)
    requires RepeatsAt(dense, i, j, k) && o < |bm25| && bm25[o] !in dense && forall r :: r in dense ==> r in bm25
    ensures var h := ThreeScores(bm25, bm25[o], 0.0, dense[i], 0.5, 1.0);
            Covers(h, dense) && !BothInUnit(h, bm25, dense)
  {
    var h := ThreeScores(bm25, bm25[o], 0.0, dense[i], 0.5, 1.0);
    assert forall m :: 0 <= m < |dense| ==> dense[m] in bm25;
    var y :| 0 <= y < |bm25| && bm25[y] == dense[k];
    forall m | 0 <= m < |dense| ensures Normalised(h, bm25)[dense[m]] == h[dense[m]] {
      NormalisedTimes(h, bm25, o, y, dense[m]);
      UnitIsFixed(h[dense[m]], Count(bm25, dense[m]));
    }
    hide Normalised;
    MinimumSinks(h, bm25, dense, i, j, k);
  }

  /** Same objects, x repeated in both lists: x = -1, all others 1. */
  lemma TwiceRepeatedSinks(bm25: seq<RetrievalResult>, dense: seq<RetrievalResult>, i: nat, j: nat, k: nat)
    requires RepeatsAt(dense, i, j, k) && SameObjects(bm25, dense) && Count(bm25, dense[i]) >= 2
    ensures var h := ThreeScores(bm25, dense[i], -1.0, dense[i], -1.0, 1.0);
            Covers(h, dense) && !BothInUnit(h, bm25, dense)
  {
    var h := ThreeScores(bm25, dense[i], -1.0, dense[i], -1.0, 1.0);
    assert forall m :: 0 <= m < |dense| ==> dense[m] in bm25;
    var o :| 0 <= o < |bm25| && bm25[o] == dense[i];
    var y :| 0 <= y < |bm25| && bm25[y] == dense[k];
    BottomRises(Count(bm25, dense[i]));
    NormalisedTimes(h, bm25, o, y, dense[i]);
    forall m | 0 <= m < |dense| && dense[m] != dense[i] ensures Normalised(h, bm25)[dense[m]] == 1.0 {
      NormalisedTimes(h, bm25, o, y, dense[m]);
      TopStaysOne(1.0, -1.0, Count(bm25, dense[m]));
    }
    hide Normalised;
    MinimumSinks(h, bm25, dense, i, j, k);
  }

  /** Same objects, x once in the BM25 list, which repeats some other y: y = -2, all others
      -1. */
  lemma OtherRepeatedSinks(bm25: seq<RetrievalResult>, dense: seq<RetrievalResult>, i: nat, j: nat, p: nat, q: nat)
    requires i < j < |dense| && dense[i] == dense[j] && SameObjects(bm25, dense) && Count(bm25, dense[i]) == 1
    requires p < q < |bm25| && bm25[p] == bm25[q] != dense[i]
    ensures var h := ThreeScores(bm25, bm25[p], -2.0, bm25[p], -2.0, -1.0);
            Covers(h, dense) && !BothInUnit(h, bm25, dense)
  {
    var h := ThreeScores(bm25, bm25[p], -2.0, bm25[p], -2.0, -1.0);
    assert forall m :: 0 <= m < |dense| ==> dense[m] in bm25;
    assert bm25[p] in dense;
    var y :| 0 <= y < |dense| && dense[y] == bm25[p];
    var x :| 0 <= x < |bm25| && bm25[x] == dense[i];
    CountTwice(bm25, p, q);
    forall m | 0 <= m < |dense|
      ensures Normalised(h, bm25)[dense[m]] == h[dense[m]] + 2.0 * Count(bm25, dense[m]) as real
      ensures Count(bm25, dense[m]) >= 1
    {
      NormalisedTimes(h, bm25, p, x, dense[m]);
      AddsTwo(h[dense[m]], Count(bm25, dense[m]));
      CountPositive(bm25, dense[m]);
    }
    hide Normalised, Count;
    MinimumSinks(h, bm25, dense, i, j, y);
  }

  /** When the condition fails some assignment leaves [0,1]. */
  lemma SomeScoreEscapes(bm25: seq<RetrievalResult>, dense: seq<RetrievalResult>) returns (h: Scores)
    requires !KeepsUnit(bm25, dense)
    ensures Covers(h, bm25) && Covers(h, dense) && !BothInUnit(h, bm25, dense)
  {
    if OnceOrSingle(dense) {
      h := UnlistedEscapes(bm25, dense);
      return;
    }
    var i, j, k := RepeatedAmongOthers(dense);
    if o :| 0 <= o < |dense| && dense[o] !in bm25 {
      h := OutsideScores(bm25, dense, dense[i]);
      OutsideSinks(bm25, dense, i, j, k, o);
    } else if o :| 0 <= o < |bm25| && bm25[o] !in dense {
      h := ThreeScores(bm25, bm25[o], 0.0, dense[i], 0.5, 1.0);
      MissingSinks(bm25, dense, i, j, k, o);
    } else if Count(bm25, dense[i]) >= 2 {
      h := ThreeScores(bm25, dense[i], -1.0, dense[i], -1.0, 1.0);
      TwiceRepeatedSinks(bm25, dense, i, j, k);
    } else {
      var p, q :| 0 <= p < q < |bm25| && bm25[p] == bm25[q];
      if bm25[p] == dense[i] { CountTwice(bm25, p, q); }
      CountPositive(bm25, dense[i]);
      h := ThreeScores(bm25, bm25[p], -2.0, bm25[p], -2.0, -1.0);
      OtherRepeatedSinks(bm25, dense, i, j, p, q);
    }
  }

  /** Every assignment of scores leaves both lists in [0,1] exactly under that condition. */
  lemma BothInUnitExactly(bm25: seq<RetrievalResult>, dense: seq<RetrievalResult>)
    ensures (forall h: Scores :: Covers(h, bm25) && Covers(h, dense) ==> BothInUnit(h, bm25, dense))
            <==> KeepsUnit(bm25, dense)
  {
    hide BothInUnit, KeepsUnit;
    if KeepsUnit(bm25, dense) {
      forall h: Scores | Covers(h, bm25) && Covers(h, dense) ensures BothInUnit(h, bm25, dense) {
        SharedObjectsStayInUnit(h, bm25, dense);
      }
    } else {
      var h := SomeScoreEscapes(bm25, dense);
    }
  }

  /** Under the same condition every merged score is in [0,1]. */
  lemma MergedScoresInUnit(out: seq<Row>, w: real, h: Scores, bm25: seq<RetrievalResult>, dense: seq<RetrievalResult>)
    requires Covers(h, bm25) && Covers(h, dense) && 0.0 <= w <= 1.0
    requires KeepsUnit(bm25, dense)
    requires var h' := BothNormalised(h, bm25, dense);
             IsWeightedMerge(out, w, RowsUnder(h', bm25), RowsUnder(h', dense))
    ensures InUnit(out)
  {
    hide BothNormalised, FusedScore, PassageDict;
    var h' := BothNormalised(h, bm25, dense);
    SharedObjectsStayInUnit(h, bm25, dense);
    forall i | 0 <= i < |out| ensures 0.0 <= out[i].score <= 1.0 {
      assert HasRow(out, out[i].passage, out[i].score);
      FusedScoreInUnit(w, RowsUnder(h', bm25), RowsUnder(h', dense), out[i].passage.id);
    }
  }

  /** The repeated object below zero reaches the merge: with dense weight 0 its passage is
      merged with a negative score. */
  lemma RepeatedObjectMergesBelowZero(x: RetrievalResult, y: RetrievalResult, z: RetrievalResult)
    requires x != y && y != z && x != z && x.passage.id != y.passage.id && x.passage.id != z.passage.id
    ensures var h, bm25 := map[x := 5.0, y := 2.0, z := 10.0], [x, x, y, z];
            var h' := BothNormalised(h, bm25, []);
            FusedScore(0.0, RowsUnder(h', bm25), RowsUnder(h', []), x.passage.id) < 0.0
  {
    RepeatedObjectLeavesUnit(x, y, z);
    var h, bm25 := map[x := 5.0, y := 2.0, z := 10.0], [x, x, y, z];
    var h' := BothNormalised(h, bm25, []);
    var rows := RowsUnder(h', bm25);
    assert rows[1] == Row(x.passage, h'[x], 0);
    LastScore(rows, 1);
  }

  lemma {:induction false} LastScore(rows: seq<Row>, i: nat)
    requires i < |rows| && forall j :: i < j < |rows| ==> rows[j].passage.id != rows[i].passage.id
    ensures rows[i].passage.id in ScoreDict(rows) && ScoreDict(rows)[rows[i].passage.id] == rows[i].score
  {
    if i < |rows| - 1 { LastScore(rows[..|rows| - 1], i); }
  }
}
