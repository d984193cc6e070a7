/** The hybrid retriever: fetch depths, fusion with its fallback, truncation and
    re-ranking, and what fetching only the top of each backend can cost. */
module HybridRetrieval {
  import opened Sequences
  import opened RankFusion
  import opened Fusion
  import opened WeightedFusion

  datatype Strategy = Score | Rrf

  /** A backend: the rows it returns for a query and a depth, or its exception. */
  type Backend = (string, int) -> Result<seq<Row>>

  /** max(top_k * 3, 50), the default fetch depth. */
  function DefaultDepth(topK: int): int {
    if topK * 3 > 50 then topK * 3 else 50
  }

  /** `requested or default`: None and 0 both mean the default. */
  function Depth(requested: Option<int>, topK: int): int {
    if requested.Some? && requested.value != 0 then requested.value else DefaultDepth(topK)
  }

  /** Scores only: what normalisation looks at. */
  function Unrank(rows: seq<Row>): (out: seq<Row>)
    ensures |out| == |rows|
  {
    seq(|rows|, i requires 0 <= i < |rows| => rows[i].(rank := 0))
  }

  /** What the score strategy leaves in the BM25 objects: normalised scores, old ranks. */
  function Rescored(rows: seq<Row>): (out: seq<Row>)
    ensures |out| == |rows|
  {
    var norm := NormRows(Unrank(rows));
    seq(|rows|, i requires 0 <= i < |rows| => rows[i].(score := norm[i].score))
  }

  /** The fused list before truncation: the merge, or the BM25 list when the merge raises. */
  ghost predicate FusedOrFallback(fused: seq<Row>, strategy: Strategy, alpha: real, rrfK: int, checks: Checks,
                                  bm25: seq<Row>, dense: seq<Row>)
    requires strategy.Rrf? ==> rrfK > 0
  {
    if checks.rejectsLowRanks && (bm25 != [] || dense != []) then
      fused == if strategy.Score? then Rescored(bm25) else bm25
    else if strategy.Rrf? then fused == Fused([bm25, dense], rrfK)
    else IsWeightedMerge(fused, alpha, NormRows(Unrank(bm25)), NormRows(Unrank(dense)))
  }

  /** The objects a backend returns for its rows. */
  method Materialise(rows: seq<Row>) returns (rs: seq<RetrievalResult>)
    ensures Rows(rs) == rows && Distinct(rs)
    ensures forall i :: 0 <= i < |rs| ==> fresh(rs[i])
  {
    rs := [];
    for i := 0 to |rows|
      invariant |rs| == i && Distinct(rs) && forall j :: 0 <= j < i ==> fresh(rs[j])
      invariant Rows(rs) == rows[..i]
    {
      var r := new RetrievalResult(rows[i].passage, rows[i].score, rows[i].rank);
      assert r !in rs;
      assert Rows(rs + [r]) == Rows(rs) + [RowOf(r)];
      rs := rs + [r];
    }
  }

  lemma EntriesOfTwo(bm25: seq<Row>, dense: seq<Row>)
    ensures AllEntries([bm25, dense]) == Contributions(bm25) + Contributions(dense)
    ensures AllEntries([bm25, dense]) == [] <==> bm25 == [] && dense == []
  {
    assert [bm25, dense][..1] == [bm25];
    assert [bm25][..0] == [];
    assert AllEntries([bm25]) == AllEntries([]) + Contributions(bm25);
  }

  class HybridRetriever {
    const strategy: Strategy
    const alpha: real
    const rrfK: int
    const checks: Checks
    const bm25: Backend
    const dense: Backend
    const strip: string -> string

    constructor (bm25: Backend, dense: Backend, strategy: Strategy, alpha: real, rrfK: int, checks: Checks,
                 strip: string -> string)
      requires strategy.Score? ==> 0.0 <= alpha <= 1.0
      requires strategy.Rrf? ==> rrfK > 0
      ensures this.bm25 == bm25 && this.dense == dense && this.strategy == strategy && this.alpha == alpha
      ensures this.rrfK == rrfK && this.checks == checks && this.strip == strip
    {
      this.bm25, this.dense, this.strategy, this.alpha := bm25, dense, strategy, alpha;
      this.rrfK, this.checks, this.strip := rrfK, checks, strip;
    }

    predicate Configured() {
      (strategy.Score? ==> 0.0 <= alpha <= 1.0) && (strategy.Rrf? ==> rrfK > 0)
    }

    /** Whether the merge raises: as written, whenever there is anything to merge. */
    predicate MergeRaises(b: seq<RetrievalResult>, d: seq<RetrievalResult>) {
      checks.rejectsLowRanks && (b != [] || d != [])
    }

    /** Dispatch to the strategy; an error of the merge yields the BM25 objects. The score
        strategy leaves both lists normalised, whether the merge raises or not. `h` names the
        scores of the given objects, shared or not. */
    method Fuse(b: seq<RetrievalResult>, d: seq<RetrievalResult>, ghost h: Scores)
      returns (fused: seq<RetrievalResult>)
      requires Configured() && Covers(h, b) && Covers(h, d) && HoldsIn(h)
      modifies b, d
      ensures forall x :: x in b || x in d ==> x.rank == old(x.rank)
      ensures HoldsIn(if strategy.Score? then BothNormalised(h, b, d) else h)
      ensures if MergeRaises(b, d) then fused == b
              else
                && Distinct(fused) && (forall i :: 0 <= i < |fused| ==> fresh(fused[i]))
                && if strategy.Rrf? then Rows(fused) == Fused([old(Rows(b)), old(Rows(d))], rrfK)
                   else
                     var h' := BothNormalised(h, b, d);
                     IsWeightedMerge(Rows(fused), alpha, RowsUnder(h', b), RowsUnder(h', d))
    {
      hide IsWeightedMerge, Fused, AllEntries, BothNormalised, RowsUnder;
      var r: Result<seq<RetrievalResult>>;
      if strategy.Rrf? {
        EntriesOfTwo(Rows(b), Rows(d));
        assert AllRows([b, d]) == [Rows(b), Rows(d)];
        var fuser := new ReciprocalRankFusion(rrfK, checks);
        r := fuser.Merge([b, d], Some(rrfK));
      } else {
        var fuser := new ScoreFusion(alpha, checks);
        r := fuser.Merge(b, d, Some(alpha), h);
      }
      match r
      case Ok(merged) => fused := merged;
      case Err(_) => fused := b;
    }

    /** Fusing what the two backends returned, as objects of their own. */
    method FuseRows(bm25Rows: seq<Row>, denseRows: seq<Row>) returns (fused: seq<RetrievalResult>)
      requires Configured()
      ensures FusedOrFallback(Rows(fused), strategy, alpha, rrfK, checks, bm25Rows, denseRows)
      ensures Distinct(fused) && forall i :: 0 <= i < |fused| ==> fresh(fused[i])
    {
      hide FusedOrFallback, BothNormalised, IsWeightedMerge, Fused, RowsUnder, Unrank, Rescored;
      var b := Materialise(bm25Rows);
      var d := Materialise(denseRows);
      ghost var h := ScoresOf(b + d);
      UnionCovered(h, b, d);
      fused := Fuse(b, d, h);
      FusedFromSeparate(Rows(fused), Rows(b), this, h, b, d, bm25Rows, denseRows);
    }

    /** Retrieval: an exception of a backend ends it; otherwise the first topK of the fused
        list, numbered from 1. As written, with ranks checked, these are the first topK BM25
        passages whatever the dense backend returns. */
    method Retrieve(query: string, topK: int, bm25TopK: Option<int>, denseTopK: Option<int>)
      returns (r: Result<seq<RetrievalResult>>)
      requires Configured()
      ensures query == "" || strip(query) == "" ==> r == Ok([])
      ensures query != "" && strip(query) != "" ==>
                var fetchK := if topK * 3 > 50 then topK * 3 else 50;
                var bk := if bm25TopK.Some? && bm25TopK.value != 0 then bm25TopK.value else fetchK;
                var dk := if denseTopK.Some? && denseTopK.value != 0 then denseTopK.value else fetchK;
                var b, d := bm25(query, bk), dense(query, dk);
                && (r.Err? <==> b.Err? || d.Err?)
                && (r.Ok? ==>
                      exists fused :: FusedOrFallback(fused, strategy, alpha, rrfK, checks, b.value, d.value)
                                      && Rows(r.value) == Ranked(Prefix(fused, topK)))
                && (r.Ok? && checks.rejectsLowRanks ==> TopOfBm25(Rows(r.value), strategy, b.value, topK))
    {
      if query == "" || strip(query) == "" {
        return Ok([]);
      }
      hide FusedOrFallback, TopOfBm25;
      var bm25Rows := bm25(query, Depth(bm25TopK, topK));
      var denseRows := dense(query, Depth(denseTopK, topK));
      if bm25Rows.Err? {
        return Err(bm25Rows.error);
      }
      if denseRows.Err? {
        return Err(denseRows.error);
      }
      var fused := FuseRows(bm25Rows.value, denseRows.value);
      ghost var rows := Rows(fused);
      var top := Prefix(fused, topK);
      assert Rows(top) == Prefix(rows, topK);
      Renumber(top);
      if checks.rejectsLowRanks {
        AsWrittenHybridIsBm25(rows, strategy, alpha, rrfK, bm25Rows.value, denseRows.value, topK);
      }
      return Ok(top);
    }
  }

  /** With objects of their own in both lists, the outcome of `Fuse` in terms of the rows the
      backends returned; `after` are the BM25 rows when it is done. */
  lemma FusedFromSeparate(fused: seq<Row>, after: seq<Row>, r: HybridRetriever, h: Scores, b: seq<RetrievalResult>,
                          d: seq<RetrievalResult>, bm25: seq<Row>, dense: seq<Row>)
    requires r.Configured() && Covers(h, b) && Covers(h, d) && Distinct(b) && Distinct(d)
    requires forall x :: x in b ==> x !in d
    requires |after| == |b| == |bm25| && |d| == |dense|
    requires forall i :: 0 <= i < |b| ==> b[i].passage == bm25[i].passage == after[i].passage && h[b[i]] == bm25[i].score
    requires forall i :: 0 <= i < |d| ==> d[i].passage == dense[i].passage && h[d[i]] == dense[i].score
    requires forall i :: 0 <= i < |b| ==> after[i].rank == bm25[i].rank
    requires var h' := if r.strategy.Score? then BothNormalised(h, b, d) else h;
             forall i :: 0 <= i < |b| ==> after[i].score == h'[b[i]]
    requires if r.MergeRaises(b, d) then fused == after
             else if r.strategy.Rrf? then fused == Fused([bm25, dense], r.rrfK)
             else
               var h' := BothNormalised(h, b, d);
               IsWeightedMerge(fused, r.alpha, RowsUnder(h', b), RowsUnder(h', d))
    ensures FusedOrFallback(fused, r.strategy, r.alpha, r.rrfK, r.checks, bm25, dense)
  {
    hide IsWeightedMerge, Fused, BothNormalised, NormRows;
    assert RowsUnder(h, b) == Unrank(bm25) && RowsUnder(h, d) == Unrank(dense);
    SeparateListsNormalise(h, b, d);
    if r.strategy.Rrf? {
      assert r.MergeRaises(b, d) ==> after == bm25;
    } else {
      var h' := BothNormalised(h, b, d);
      forall i | 0 <= i < |b| ensures after[i] == Rescored(bm25)[i] {
        assert after[i].score == RowsUnder(h', b)[i].score;
      }
      assert r.MergeRaises(b, d) ==> after == Rescored(bm25);
    }
  }

  lemma NothingToMerge(fused: seq<Row>, w: real)
    requires IsWeightedMerge(fused, w, [], [])
    ensures fused == []
  {
    assert PassageDict([] + []) == map[];
    var noRow := forall p, s :: !HasRow(fused, p, s);
    assert noRow;
    assert |fused| > 0 ==> HasRow(fused, fused[0].passage, fused[0].score);
  }

  /** The first topK BM25 rows, numbered from 1, with the scores the strategy leaves: those
      of the backend, or their min-max normalisation. */
  ghost predicate TopOfBm25(top: seq<Row>, strategy: Strategy, bm25: seq<Row>, topK: int) {
    && |top| == PrefixLength(|bm25|, topK)
    && forall i :: 0 <= i < |top| ==>
         && top[i].passage == bm25[i].passage && top[i].rank == i + 1
         && top[i].score == if strategy.Rrf? then bm25[i].score else NormRows(Unrank(bm25))[i].score
  }

  /** As the code is written, the hybrid retriever is a BM25 retriever: whatever the dense
      backend found, the result is the top of the BM25 list. */
  lemma AsWrittenHybridIsBm25(fused: seq<Row>, strategy: Strategy, alpha: real, rrfK: int,
                              bm25: seq<Row>, dense: seq<Row>, topK: int)
    requires strategy.Rrf? ==> rrfK > 0
    requires FusedOrFallback(fused, strategy, alpha, rrfK, Checks(true), bm25, dense)
    ensures TopOfBm25(Ranked(Prefix(fused, topK)), strategy, bm25, topK)
  {
    hide IsWeightedMerge, AllEntries, Unranked, AssignRanks;
    if bm25 == [] && dense == [] {
      EntriesOfTwo(bm25, dense);
      if strategy.Score? { NothingToMerge(fused, alpha); } else { NothingToRank(rrfK); }
    }
  }

  lemma NothingToRank(k: int)
    requires k > 0
    ensures Fused([[], []], k) == []
  {
    EntriesOfTwo([], []);
  }

  // ---------------------------------------------------------------------------
  // Fetching only the top of each backend
  // ---------------------------------------------------------------------------

  /** A full ranking of a backend: no id twice, ranks 1, 2, ... */
  ghost predicate FullRanking(rows: seq<Row>) {
    DuplicateFree(rows) && forall i :: 0 <= i < |rows| ==> rows[i].rank == i + 1
  }

  /** A list cut at depth n loses at most the share of rank n + 1 for any id, and nothing
      when it was not longer than n. */
  lemma CutLosesAtMost(full: seq<Row>, n: nat, id: string, k: int)
    requires k > 0 && FullRanking(full)
    ensures 0.0 <= ListScore(full, id, k) - ListScore(Prefix(full, n), id, k) <= Share(k, n + 1)
    ensures |full| <= n ==> ListScore(Prefix(full, n), id, k) == ListScore(full, id, k)
  {
    hide ListScore;
    var cut := Prefix(full, n);
    ListScoreIs(full, id, k);
    ListScoreIs(cut, id, k);
    if i: nat :| At(full, id, i) {
      if i < n {
        assert At(cut, id, i);
        assert EffectiveRank(cut, i) == EffectiveRank(full, i);
      } else {
        forall j: nat | j < |cut| ensures !At(cut, id, j) {
          assert cut[j] == full[j];
        }
        ShareOrder(k, n + 1, i + 1);
      }
    } else {
      forall j: nat | j < |cut| ensures !At(cut, id, j) {
        assert cut[j] == full[j] && !At(full, id, j);
      }
    }
  }

  lemma ScoreOfTwo(b: seq<Row>, d: seq<Row>, id: string, k: int)
    requires k > 0
    ensures ScoreOf(AllEntries([b, d]), id, k) == ListScore(b, id, k) + ListScore(d, id, k)
  {
    EntriesOfTwo(b, d);
    ScoreOfConcat(Contributions(b), Contributions(d), id, k);
  }

  /** Truncation error: fetching bk and dk results lowers any fused score by at most
      1/(K+bk+1) + 1/(K+dk+1). */
  lemma TruncationError(b: seq<Row>, d: seq<Row>, bk: nat, dk: nat, id: string, k: int)
    requires k > 0 && FullRanking(b) && FullRanking(d)
    ensures var full := ScoreOf(AllEntries([b, d]), id, k);
            var cut := ScoreOf(AllEntries([Prefix(b, bk), Prefix(d, dk)]), id, k);
            0.0 <= full - cut <= Share(k, bk + 1) + Share(k, dk + 1)
  {
    hide ScoreOf, ListScore;
    ScoreOfTwo(b, d, id, k);
    ScoreOfTwo(Prefix(b, bk), Prefix(d, dk), id, k);
    CutLosesAtMost(b, bk, id, k);
    CutLosesAtMost(d, dk, id, k);
  }

  /** Two passages whose computed scores differ by more than the truncation error stand in
      the same order when everything is fetched. */
  lemma ClearWinnersKeepTheirOrder(b: seq<Row>, d: seq<Row>, bk: nat, dk: nat, k: int,
                                   p: string, q: string, i: nat, j: nat)
    requires k > 0 && FullRanking(b) && FullRanking(d)
    requires var cut := AllEntries([Prefix(b, bk), Prefix(d, dk)]);
             ScoreOf(cut, p, k) > ScoreOf(cut, q, k) + Share(k, bk + 1) + Share(k, dk + 1)
    requires At(Fused([b, d], k), p, i) && At(Fused([b, d], k), q, j)
    ensures i < j
  {
    hide ScoreOf, Share;
    TruncationError(b, d, bk, dk, p, k);
    TruncationError(b, d, bk, dk, q, k);
    var rows := Fused([b, d], k);
    FusionRanksTheUnion([b, d], k);
    assert HasRow(rows, rows[i].passage, rows[i].score);
    assert HasRow(rows, rows[j].passage, rows[j].score);
  }

  /** With the default constant and depths the error is at most 2/111, and three candidates
      are fetched per result. */
  lemma DefaultDepthError(topK: int)
    ensures DefaultDepth(topK) >= 50 && DefaultDepth(topK) >= topK * 3
    ensures Share(60, DefaultDepth(topK) + 1) + Share(60, DefaultDepth(topK) + 1) <= 2.0 / 111.0
  {
    ShareOrder(60, 51, DefaultDepth(topK) + 1);
  }
}
