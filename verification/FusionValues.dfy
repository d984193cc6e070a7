/** The rows of the merged lists, written out: reciprocal ranks, weights and normalised
    scores, the passage kept, and the order of ties. */
module FusionValues {
  import opened Sequences
  import opened RankFusion
  import opened Fusion
  import opened WeightedFusion
  import opened HybridRetrieval

  // ---------------------------------------------------------------------------
  // Reciprocal rank fusion
  // ---------------------------------------------------------------------------

  ghost predicate Listed(rows: seq<Row>, id: string) {
    exists i: nat :: At(rows, id, i)
  }

  /** The score of an id in a list, 0 without it. */
  ghost function ScoreIn(rows: seq<Row>, id: string): real {
    if Listed(rows, id) then var i: nat :| At(rows, id, i); rows[i].score else 0.0
  }

  /** What a list gives an id: the reciprocal of the constant plus its rank, where an unset
      rank is the position counted from 1. */
  ghost function GivenBy(rows: seq<Row>, id: string, k: int): real
    requires k > 0
  {
    if Listed(rows, id) then
      var i: nat :| At(rows, id, i);
      if rows[i].rank >= 1 then 1.0 / (k + rows[i].rank) as real else 1.0 / (k + i + 1) as real
    else 0.0
  }

  lemma ListScoreIsGiven(rows: seq<Row>, id: string, k: int)
    requires k > 0 && DuplicateFree(rows)
    ensures ListScore(rows, id, k) == GivenBy(rows, id, k)
  {
    ListScoreIs(rows, id, k);
    hide ListScore, DuplicateFree;
    if Listed(rows, id) {
      var i: nat :| At(rows, id, i) && GivenBy(rows, id, k)
        == if rows[i].rank >= 1 then 1.0 / (k + rows[i].rank) as real else 1.0 / (k + i + 1) as real;
      assert k + EffectiveRank(rows, i) == if rows[i].rank >= 1 then k + rows[i].rank else k + i + 1;
    }
  }

  lemma ListedIsMentioned(rows: seq<Row>, id: string)
    ensures Listed(rows, id) <==> Mentions(Contributions(rows), id)
  {
    var es := Contributions(rows);
    if i: nat :| At(rows, id, i) { assert es[i].passage.id == id; }
    if i :| 0 <= i < |es| && es[i].passage.id == id { assert At(rows, id, i); }
  }

  lemma FusedRowIs(lists: seq<seq<Row>>, id: string, k: int, i: nat)
    requires k > 0 && At(Fused(lists, k), id, i)
    ensures Mentions(AllEntries(lists), id)
    ensures Fused(lists, k)[i].score == ScoreOf(AllEntries(lists), id, k)
    ensures Fused(lists, k)[i].passage == LastPassage(AllEntries(lists), id)
  {
    FusionRanksTheUnion(lists, k);
    var rows := Fused(lists, k);
    hide Fused, ScoreOf, LastPassage, Mentions, AllEntries;
    assert HasRow(rows, rows[i].passage, rows[i].score);
  }

  lemma FusedListsMentioned(lists: seq<seq<Row>>, id: string, k: int)
    requires k > 0
    ensures Listed(Fused(lists, k), id) <==> Mentions(AllEntries(lists), id)
    ensures ScoreIn(Fused(lists, k), id) == ScoreOf(AllEntries(lists), id, k)
  {
    FusionRanksTheUnion(lists, k);
    var rows, es := Fused(lists, k), AllEntries(lists);
    hide Fused, ScoreOf, LastPassage, Mentions, AllEntries;
    if Mentions(es, id) {
      assert HasRow(rows, LastPassage(es, id), ScoreOf(es, id, k));
      var i :| 0 <= i < |rows| && rows[i].passage == LastPassage(es, id) && rows[i].score == ScoreOf(es, id, k);
      assert At(rows, id, i);
      var j: nat :| At(rows, id, j) && ScoreIn(rows, id) == rows[j].score;
      FusedRowIs(lists, id, k, j);
    } else {
      NoScore(es, id, k);
      if j: nat :| At(rows, id, j) { FusedRowIs(lists, id, k, j); }
    }
  }

  /** One more list: every id's merged score grows by its reciprocal rank there, and the ids
      of the list join the merge with its passages. Nothing is merged from no list. */
  lemma OneMoreListFused(lists: seq<seq<Row>>, list: seq<Row>, id: string, k: int)
    requires k > 0 && DuplicateFree(list)
    ensures Fused([], k) == []
    ensures Listed(Fused(lists + [list], k), id) <==> Listed(Fused(lists, k), id) || Listed(list, id)
    ensures ScoreIn(Fused(lists + [list], k), id) == ScoreIn(Fused(lists, k), id) + GivenBy(list, id, k)
    ensures forall i: nat, j: nat :: At(Fused(lists + [list], k), id, i) && At(list, id, j) ==>
              Fused(lists + [list], k)[i].passage == list[j].passage
    ensures forall i: nat, j: nat ::
              At(Fused(lists + [list], k), id, i) && At(Fused(lists, k), id, j) && !Listed(list, id) ==>
              Fused(lists + [list], k)[i].passage == Fused(lists, k)[j].passage
  {
    NothingFused(k);
    var es, cs := AllEntries(lists), Contributions(list);
    assert (lists + [list])[..|lists|] == lists;
    assert AllEntries(lists + [list]) == es + cs;
    ListedIsMentioned(list, id);
    ListScoreIsGiven(list, id, k);
    hide Fused, Mentions, LastPassage, ScoreOf, Contributions, AllEntries, GivenBy, ScoreIn, DuplicateFree, Listed;
    MentionsConcat(es, cs, id);
    LastPassageConcat(es, cs, id);
    FusedListsMentioned(lists, id, k);
    FusedListsMentioned(lists + [list], id, k);
    ScoreOfConcat(es, cs, id, k);
    forall i: nat, j: nat | At(Fused(lists + [list], k), id, i) && At(list, id, j)
      ensures Fused(lists + [list], k)[i].passage == list[j].passage
    {
      FusedRowIs(lists + [list], id, k, i);
      LastPassageListed(list, id, j);
    }
    forall i: nat, j: nat | At(Fused(lists + [list], k), id, i) && At(Fused(lists, k), id, j) && !Listed(list, id)
      ensures Fused(lists + [list], k)[i].passage == Fused(lists, k)[j].passage
    {
      FusedRowIs(lists + [list], id, k, i);
      FusedRowIs(lists, id, k, j);
    }
  }

  lemma NothingFused(k: int)
    requires k > 0
    ensures Fused([], k) == []
  {
  }

  /** Fusing the two lists of the hybrid retriever: each row scores the sum of its two
      reciprocal ranks and carries the dense passage where there is one. */
  lemma TwoListsFused(b: seq<Row>, d: seq<Row>, k: int, i: nat)
    requires k > 0 && DuplicateFree(b) && DuplicateFree(d) && i < |Fused([b, d], k)|
    ensures var row := Fused([b, d], k)[i]; var id := row.passage.id;
            && (Listed(b, id) || Listed(d, id))
            && row.score == GivenBy(b, id, k) + GivenBy(d, id, k)
            && (forall j: nat :: At(d, id, j) ==> row.passage == d[j].passage)
            && (forall j: nat :: At(b, id, j) && !Listed(d, id) ==> row.passage == b[j].passage)
  {
    var rows := Fused([b, d], k);
    var id := rows[i].passage.id;
    assert [] + [b] == [b] && [b] + [d] == [b, d];
    assert At(rows, id, i);
    NothingFused(k);
    hide Fused, GivenBy;
    OneMoreListFused([], b, id, k);
    OneMoreListFused([b], d, id, k);
    FusedListsMentioned([b, d], id, k);
    FusedRowIs([b, d], id, k, i);
    if j: nat :| At(b, id, j) && !Listed(d, id) {
      var m: nat :| At(Fused([b], k), id, m);
    }
  }

  lemma MentionsConcat(es: seq<Entry>, cs: seq<Entry>, id: string)
    ensures Mentions(es + cs, id) <==> Mentions(es, id) || Mentions(cs, id)
  {
    var all := es + cs;
    if i :| 0 <= i < |es| && es[i].passage.id == id { assert all[i].passage.id == id; }
    if i :| 0 <= i < |cs| && cs[i].passage.id == id { assert all[|es| + i].passage.id == id; }
  }

  lemma {:induction false} LastPassageConcat(es: seq<Entry>, cs: seq<Entry>, id: string)
    ensures Mentions(es + cs, id) <==> Mentions(es, id) || Mentions(cs, id)
    ensures Mentions(cs, id) ==> LastPassage(es + cs, id) == LastPassage(cs, id)
    ensures !Mentions(cs, id) && Mentions(es, id) ==> LastPassage(es + cs, id) == LastPassage(es, id)
  {
    MentionsConcat(es, cs, id);
    if cs == [] {
      assert es + cs == es;
    } else {
      var n := |cs| - 1;
      LastPassageConcat(es, cs[..n], id);
      assert (es + cs)[..|es| + n] == es + cs[..n];
      assert cs == cs[..n] + [cs[n]];
      MentionsConcat(cs[..n], [cs[n]], id);
      if cs[n].passage.id != id { assert !Mentions([cs[n]], id); }
    }
  }

  lemma LastPassageListed(rows: seq<Row>, id: string, j: nat)
    requires DuplicateFree(rows) && At(rows, id, j)
    ensures Mentions(Contributions(rows), id) && LastPassage(Contributions(rows), id) == rows[j].passage
  {
    LastPassageAt(Contributions(rows), id, j);
  }

  lemma {:induction false} LastPassageAt(es: seq<Entry>, id: string, j: nat)
    requires j < |es| && es[j].passage.id == id && forall i :: j < i < |es| ==> es[i].passage.id != id
    ensures Mentions(es, id) && LastPassage(es, id) == es[j].passage
  {
    if j < |es| - 1 { LastPassageAt(es[..|es| - 1], id, j); }
  }

  // ---------------------------------------------------------------------------
  // Ties
  // ---------------------------------------------------------------------------

  /** Entry number i is the first one of its id. */
  ghost predicate FirstOf(es: seq<Entry>, id: string, i: nat) {
    i < |es| && es[i].passage.id == id && forall j :: 0 <= j < i ==> es[j].passage.id != id
  }

  /** The dictionary lists ids by first appearance. */
  lemma {:induction false} FirstSeenOrder(es: seq<Entry>, p: nat, q: nat, i: nat, j: nat)
    requires p < q < |FirstSeen(es)|
    requires FirstOf(es, FirstSeen(es)[p], i) && FirstOf(es, FirstSeen(es)[q], j)
    ensures i < j
  {
    var n := |es| - 1;
    var ids := FirstSeen(es[..n]);
    FirstSeenIsExact(es);
    FirstSeenIsExact(es[..n]);
    assert FirstSeen(es)[p] in ids by { assert FirstSeen(es)[p] == ids[p]; }
    if j < n {
      SeenBefore(es, FirstSeen(es)[p], i);
      assert Mentions(es[..n], es[j].passage.id) by { assert es[..n][j] == es[j]; }
      assert FirstSeen(es)[q] == ids[q];
      FirstSeenOrder(es[..n], p, q, i, j);
    } else {
      SeenBefore(es, FirstSeen(es)[p], i);
    }
  }

  lemma SeenBefore(es: seq<Entry>, id: string, i: nat)
    requires es != [] && FirstOf(es, id, i) && Mentions(es[..|es| - 1], id)
    ensures i < |es| - 1
  {
    var n := |es| - 1;
    var m :| 0 <= m < n && es[..n][m].passage.id == id;
    assert es[m].passage.id == id;
  }

  /** Passages with equal merged scores stand in the order in which the lists first show
      them. */
  lemma TiesKeepFirstSeen(lists: seq<seq<Row>>, k: int, x: nat, y: nat, i: nat, j: nat)
    requires k > 0 && x < y < |Fused(lists, k)| && Fused(lists, k)[x].score == Fused(lists, k)[y].score
    requires FirstOf(AllEntries(lists), Fused(lists, k)[x].passage.id, i)
    requires FirstOf(AllEntries(lists), Fused(lists, k)[y].passage.id, j)
    ensures i < j
  {
    var es := AllEntries(lists);
    var rows, ids := Unranked(es, k), FirstSeen(es);
    var sorted := SortDesc(rows, ByScore);
    assert sorted[x].passage == Fused(lists, k)[x].passage && sorted[y].passage == Fused(lists, k)[y].passage;
    SortIsStable(rows, ByScore, x, y);
    var p: nat, q: nat :| p < q < |rows| && rows[p] == sorted[x] && rows[q] == sorted[y];
    assert rows[p].passage.id == ids[p] && rows[q].passage.id == ids[q] by {
      FirstSeenIsExact(es);
      assert ids[p] in ids && ids[q] in ids;
    }
    hide Fused, AllEntries, Unranked, FirstSeen;
    FirstSeenOrder(es, p, q, i, j);
  }

  // ---------------------------------------------------------------------------
  // Weighted fusion
  // ---------------------------------------------------------------------------

  /** lo and hi are the least and greatest score of the list. */
  ghost predicate Range(rows: seq<Row>, lo: real, hi: real) {
    rows != [] ==>
      && (forall i :: 0 <= i < |rows| ==> lo <= rows[i].score <= hi)
      && (exists i :: 0 <= i < |rows| && rows[i].score == lo)
      && (exists i :: 0 <= i < |rows| && rows[i].score == hi)
  }

  /** What a list contributes for an id before weighing: its score min-max normalised, 1 where
      all scores are equal, 0 where the list lacks the id. */
  ghost function NormalisedIn(rows: seq<Row>, id: string, lo: real, hi: real): real {
    if Listed(rows, id) then
      var i: nat :| At(rows, id, i);
      if hi == lo then 1.0 else (rows[i].score - lo) / (hi - lo)
    else 0.0
  }

  lemma {:induction false} DictOfDistinct(rows: seq<Row>, i: nat)
    requires DuplicateFree(rows) && i < |rows|
    ensures var id := rows[i].passage.id;
            && id in ScoreDict(rows) && ScoreDict(rows)[id] == rows[i].score
            && id in PassageDict(rows) && PassageDict(rows)[id] == rows[i].passage
  {
    if i < |rows| - 1 { DictOfDistinct(rows[..|rows| - 1], i); }
  }

  lemma RangeIs(rows: seq<Row>, lo: real, hi: real)
    requires rows != [] && Range(rows, lo, hi)
    ensures Lowest(rows) == lo && Highest(rows) == hi
  {
    Extremes(rows);
    var i :| 0 <= i < |rows| && rows[i].score == Lowest(rows);
    var j :| 0 <= j < |rows| && rows[j].score == Highest(rows);
  }

  lemma NormalisedScore(rows: seq<Row>, id: string, lo: real, hi: real)
    requires DuplicateFree(rows) && Range(rows, lo, hi)
    ensures ScoreOrZero(NormRows(rows), id) == NormalisedIn(rows, id, lo, hi)
  {
    ListedNormalised(rows, id);
    DictIds(NormRows(rows), id);
    hide NormRows, Lists, PassageDict, ScoreDict, Range, DuplicateFree;
    if Listed(rows, id) {
      var i: nat :| At(rows, id, i) && NormalisedIn(rows, id, lo, hi)
        == if hi == lo then 1.0 else (rows[i].score - lo) / (hi - lo);
      NormalisedAt(rows, i, lo, hi);
    }
  }

  lemma NormalisedAt(rows: seq<Row>, i: nat, lo: real, hi: real)
    requires DuplicateFree(rows) && Range(rows, lo, hi) && i < |rows|
    ensures var id, dict := rows[i].passage.id, ScoreDict(NormRows(rows));
            id in dict && dict[id] == if hi == lo then 1.0 else (rows[i].score - lo) / (hi - lo)
  {
    RangeIs(rows, lo, hi);
    var out := NormRows(rows);
    assert out[i] == rows[i].(score := NormScore(rows[i].score, lo, hi));
    assert DuplicateFree(out);
    hide NormRows, DuplicateFree;
    DictOfDistinct(out, i);
  }

  lemma {:induction false} LaterDictWins(b: seq<Row>, d: seq<Row>, id: string)
    ensures id in PassageDict(b + d) <==> id in PassageDict(b) || id in PassageDict(d)
    ensures id in PassageDict(d) ==> PassageDict(b + d)[id] == PassageDict(d)[id]
    ensures id !in PassageDict(d) && id in PassageDict(b) ==> PassageDict(b + d)[id] == PassageDict(b)[id]
  {
    if d == [] {
      assert b + d == b;
    } else {
      assert (b + d)[..|b + d| - 1] == b + d[..|d| - 1];
      LaterDictWins(b, d[..|d| - 1], id);
    }
  }

  lemma MixedRow(out: seq<Row>, w: real, b: seq<Row>, d: seq<Row>, loB: real, hiB: real, loD: real, hiD: real, i: nat)
    requires DuplicateFree(b) && DuplicateFree(d) && Range(b, loB, hiB) && Range(d, loD, hiD)
    requires IsWeightedMerge(out, w, NormRows(b), NormRows(d)) && i < |out|
    ensures var row := out[i]; var id := row.passage.id;
            && id in PassageDict(NormRows(b) + NormRows(d)) && row.passage == PassageDict(NormRows(b) + NormRows(d))[id]
            && row.score == Mix(w, NormalisedIn(d, id, loD, hiD), NormalisedIn(b, id, loB, hiB))
  {
    hide Mix, NormRows, NormalisedIn, Range, PassageDict, ScoreOrZero, IsRanking, DuplicateFree;
    var row := out[i];
    assert HasRow(out, row.passage, row.score);
    NormalisedScore(b, row.passage.id, loB, hiB);
    NormalisedScore(d, row.passage.id, loD, hiD);
  }

  lemma WeightedRow(out: seq<Row>, w: real, b: seq<Row>, d: seq<Row>, loB: real, hiB: real, loD: real, hiD: real,
                    i: nat)
    requires DuplicateFree(b) && DuplicateFree(d) && Range(b, loB, hiB) && Range(d, loD, hiD)
    requires IsWeightedMerge(out, w, NormRows(b), NormRows(d)) && i < |out|
    ensures var row := out[i]; var id := row.passage.id;
            && (Listed(b, id) || Listed(d, id))
            && row.score == Mix(w, NormalisedIn(d, id, loD, hiD), NormalisedIn(b, id, loB, hiB))
            && (forall j: nat :: At(d, id, j) ==> row.passage == d[j].passage)
            && (forall j: nat :: At(b, id, j) && !Listed(d, id) ==> row.passage == b[j].passage)
  {
    MixedRow(out, w, b, d, loB, hiB, loD, hiD, i);
    var row, id := out[i], out[i].passage.id;
    hide Mix, IsWeightedMerge, NormRows, NormalisedIn, Range, PassageDict, DuplicateFree, Listed;
    KeptFrom(b, d, id);
    forall j: nat | At(d, id, j) ensures row.passage == d[j].passage { KeptPassage(d, id, j); }
    forall j: nat | At(b, id, j) && !Listed(d, id) ensures row.passage == b[j].passage { KeptPassage(b, id, j); }
  }

  /** The weighted merge of two lists: each row scores w times its normalised dense score plus
      1 - w times its normalised BM25 score, a missing one counting 0, and carries the dense
      passage where there is one. */
  lemma WeightedRowIs(out: seq<Row>, w: real, b: seq<Row>, d: seq<Row>, loB: real, hiB: real, loD: real, hiD: real,
                      i: nat)
    requires DuplicateFree(b) && DuplicateFree(d) && Range(b, loB, hiB) && Range(d, loD, hiD)
    requires IsWeightedMerge(out, w, NormRows(b), NormRows(d)) && i < |out|
    ensures var row := out[i]; var id := row.passage.id;
            && (Listed(b, id) || Listed(d, id))
            && row.score == w * NormalisedIn(d, id, loD, hiD) + (1.0 - w) * NormalisedIn(b, id, loB, hiB)
            && (forall j: nat :: At(d, id, j) ==> row.passage == d[j].passage)
            && (forall j: nat :: At(b, id, j) && !Listed(d, id) ==> row.passage == b[j].passage)
  {
    hide IsWeightedMerge, NormRows, NormalisedIn, Listed, DuplicateFree, Range, Mix;
    WeightedRow(out, w, b, d, loB, hiB, loD, hiD, i);
    MixIs(w, NormalisedIn(d, out[i].passage.id, loD, hiD), NormalisedIn(b, out[i].passage.id, loB, hiB));
  }

  lemma KeptFrom(b: seq<Row>, d: seq<Row>, id: string)
    ensures id in PassageDict(NormRows(b) + NormRows(d)) <==> Listed(b, id) || Listed(d, id)
    ensures Listed(d, id) ==>
              id in PassageDict(NormRows(d))
              && PassageDict(NormRows(b) + NormRows(d))[id] == PassageDict(NormRows(d))[id]
    ensures Listed(b, id) && !Listed(d, id) ==>
              id in PassageDict(NormRows(b))
              && PassageDict(NormRows(b) + NormRows(d))[id] == PassageDict(NormRows(b))[id]
    ensures forall j: nat :: At(d, id, j) ==> Listed(d, id)
    ensures forall j: nat :: At(b, id, j) ==> Listed(b, id)
  {
    ListedNormalised(b, id);
    ListedNormalised(d, id);
    hide PassageDict, NormRows, Lists;
    DictIds(NormRows(b), id);
    DictIds(NormRows(d), id);
    LaterDictWins(NormRows(b), NormRows(d), id);
  }

  lemma ListedNormalised(rows: seq<Row>, id: string)
    ensures Lists(NormRows(rows), id) <==> Listed(rows, id)
  {
    var out := NormRows(rows);
    if i: nat :| At(rows, id, i) { assert out[i].passage.id == id; }
    if i :| 0 <= i < |out| && out[i].passage.id == id { assert At(rows, id, i); }
  }

  lemma KeptPassage(rows: seq<Row>, id: string, j: nat)
    requires DuplicateFree(rows) && At(rows, id, j)
    ensures id in PassageDict(NormRows(rows)) && PassageDict(NormRows(rows))[id] == rows[j].passage
  {
    assert DuplicateFree(NormRows(rows));
    DictOfDistinct(NormRows(rows), j);
  }

  // ---------------------------------------------------------------------------
  // Hybrid retrieval
  // ---------------------------------------------------------------------------

  /** What the hybrid retriever returns under reciprocal rank fusion while the merge does not
      raise: row i has rank i + 1, the sum of its reciprocal ranks in the two lists, and the
      dense passage where there is one. */
  lemma RetrievedByRank(fused: seq<Row>, alpha: real, k: int, b: seq<Row>, d: seq<Row>, topK: int, i: nat)
    requires k > 0 && DuplicateFree(b) && DuplicateFree(d)
    requires FusedOrFallback(fused, Rrf, alpha, k, Checks(false), b, d) && i < |Ranked(Prefix(fused, topK))|
    ensures var row := Ranked(Prefix(fused, topK))[i]; var id := row.passage.id;
            && row.rank == i + 1 && (Listed(b, id) || Listed(d, id))
            && row.score == GivenBy(b, id, k) + GivenBy(d, id, k)
            && (forall j: nat :: At(d, id, j) ==> row.passage == d[j].passage)
            && (forall j: nat :: At(b, id, j) && !Listed(d, id) ==> row.passage == b[j].passage)
  {
    hide Fused, GivenBy, Listed, DuplicateFree;
    TwoListsFused(b, d, k, i);
  }

  /** And under weighted fusion, with the weight on the dense score. */
  lemma RetrievedByScore(fused: seq<Row>, alpha: real, k: int, b: seq<Row>, d: seq<Row>, topK: int,
                         loB: real, hiB: real, loD: real, hiD: real, i: nat)
    requires DuplicateFree(b) && DuplicateFree(d) && Range(b, loB, hiB) && Range(d, loD, hiD)
    requires FusedOrFallback(fused, Score, alpha, k, Checks(false), b, d) && i < |Ranked(Prefix(fused, topK))|
    ensures var row := Ranked(Prefix(fused, topK))[i]; var id := row.passage.id;
            && row.rank == i + 1 && (Listed(b, id) || Listed(d, id))
            && row.score == alpha * NormalisedIn(d, id, loD, hiD) + (1.0 - alpha) * NormalisedIn(b, id, loB, hiB)
            && (forall j: nat :: At(d, id, j) ==> row.passage == d[j].passage)
            && (forall j: nat :: At(b, id, j) && !Listed(d, id) ==> row.passage == b[j].passage)
  {
    hide IsWeightedMerge, NormRows, NormalisedIn, Listed, DuplicateFree, Range, Unrank, Mix;
    WeightedUnranked(fused, alpha, b, d, loB, hiB, loD, hiD, i);
    MixIs(alpha, NormalisedIn(d, fused[i].passage.id, loD, hiD), NormalisedIn(b, fused[i].passage.id, loB, hiB));
  }

  lemma MixIs(w: real, x: real, y: real)
    ensures Mix(w, x, y) == w * x + (1.0 - w) * y
  {
  }

  lemma WeightedUnranked(out: seq<Row>, w: real, b: seq<Row>, d: seq<Row>, loB: real, hiB: real, loD: real, hiD: real,
                         i: nat)
    requires DuplicateFree(b) && DuplicateFree(d) && Range(b, loB, hiB) && Range(d, loD, hiD)
    requires IsWeightedMerge(out, w, NormRows(Unrank(b)), NormRows(Unrank(d))) && i < |out|
    ensures var row := out[i]; var id := row.passage.id;
            && (Listed(b, id) || Listed(d, id))
            && row.score == Mix(w, NormalisedIn(d, id, loD, hiD), NormalisedIn(b, id, loB, hiB))
            && (forall j: nat :: At(d, id, j) ==> row.passage == d[j].passage)
            && (forall j: nat :: At(b, id, j) && !Listed(d, id) ==> row.passage == b[j].passage)
  {
    var id := out[i].passage.id;
    RanksDoNotMatter(b, id, loB, hiB);
    RanksDoNotMatter(d, id, loD, hiD);
    hide IsWeightedMerge, NormRows, NormalisedIn, Listed, DuplicateFree, Range, Unrank, Mix;
    WeightedRow(out, w, Unrank(b), Unrank(d), loB, hiB, loD, hiD, i);
  }

  lemma RanksDoNotMatter(rows: seq<Row>, id: string, lo: real, hi: real)
    requires DuplicateFree(rows) && Range(rows, lo, hi)
    ensures DuplicateFree(Unrank(rows)) && Range(Unrank(rows), lo, hi)
    ensures Listed(Unrank(rows), id) <==> Listed(rows, id)
    ensures NormalisedIn(Unrank(rows), id, lo, hi) == NormalisedIn(rows, id, lo, hi)
    ensures forall j: nat :: At(Unrank(rows), id, j) <==> At(rows, id, j)
    ensures forall j: nat :: j < |rows| ==> Unrank(rows)[j].passage == rows[j].passage
  {
    var out := Unrank(rows);
    assert forall j: nat :: j < |rows| ==> out[j].score == rows[j].score && out[j].passage == rows[j].passage;
    hide Unrank;
    SamePlaces(out, rows, id);
    SameRange(out, rows, lo, hi);
    assert DuplicateFree(out);
    hide DuplicateFree, Range, At;
    if Listed(rows, id) { SameNormalised(out, rows, id, lo, hi); }
  }

  lemma SamePlaces(s: seq<Row>, t: seq<Row>, id: string)
    requires |s| == |t| && forall j: nat :: j < |s| ==> s[j].passage == t[j].passage
    ensures forall j: nat :: At(s, id, j) <==> At(t, id, j)
    ensures Listed(s, id) <==> Listed(t, id)
  {
  }

  lemma SameRange(s: seq<Row>, t: seq<Row>, lo: real, hi: real)
    requires |s| == |t| && (forall j: nat :: j < |s| ==> s[j].score == t[j].score) && Range(t, lo, hi)
    ensures Range(s, lo, hi)
  {
    if s != [] {
      var i :| 0 <= i < |t| && t[i].score == lo;
      var j :| 0 <= j < |t| && t[j].score == hi;
      assert s[i].score == lo && s[j].score == hi;
    }
  }

  lemma SameNormalised(s: seq<Row>, t: seq<Row>, id: string, lo: real, hi: real)
    requires |s| == |t| && forall j: nat :: j < |s| ==> s[j].score == t[j].score && s[j].passage == t[j].passage
    requires DuplicateFree(t) && Listed(t, id)
    ensures NormalisedIn(s, id, lo, hi) == NormalisedIn(t, id, lo, hi)
  {
    SamePlaces(s, t, id);
    var i: nat :| At(t, id, i);
    OnlyPlace(t, id, i);
  }

  lemma OnlyPlace(rows: seq<Row>, id: string, i: nat)
    requires DuplicateFree(rows) && At(rows, id, i)
    ensures forall j: nat :: At(rows, id, j) ==> j == i
  {
  }
}
