/** Reciprocal rank fusion on row values: contributions, merged rows and the laws of the
    merged ranking. */
module RankFusion {
  import opened Sequences
  import opened RealFacts

  datatype Passage = Passage(id: string, text: string, title: string, metadata: map<string, string>)

  /** The value of a retrieval result: passage, score and rank. */
  datatype Row = Row(passage: Passage, score: real, rank: int)

  /** One term of the fusion sum. */
  datatype Entry = Entry(passage: Passage, rank: int)

  predicate Positive(es: seq<Entry>) {
    forall e :: e in es ==> e.rank >= 1
  }

  /** The rank field where it is set, the list position otherwise. */
  function EffectiveRank(rows: seq<Row>, i: nat): (rank: int)
    requires i < |rows|
    ensures rank >= 1
  {
    if rows[i].rank >= 1 then rows[i].rank else i + 1
  }

  function Contributions(rows: seq<Row>): (es: seq<Entry>)
    ensures |es| == |rows| && Positive(es)
  {
    seq(|rows|, i requires 0 <= i < |rows| => Entry(rows[i].passage, EffectiveRank(rows, i)))
  }

  function AllEntries(lists: seq<seq<Row>>): (es: seq<Entry>)
    ensures Positive(es)
  {
    if lists == [] then [] else AllEntries(lists[..|lists| - 1]) + Contributions(lists[|lists| - 1])
  }

  function Share(k: int, rank: int): (share: real)
    requires k > 0 && rank >= 1
    ensures share > 0.0
  {
    1.0 / (k + rank) as real
  }

  /** Fused score of an id: the sum of 1/(k + rank) over its entries. */
  function ScoreOf(es: seq<Entry>, id: string, k: int): real
    requires k > 0 && Positive(es)
  {
    if es == [] then 0.0
    else
      var e := es[|es| - 1];
      ScoreOf(es[..|es| - 1], id, k) + (if e.passage.id == id then Share(k, e.rank) else 0.0)
  }

  /** Ids in the order of their first appearance, the iteration order of the score
      dictionary. */
  function FirstSeen(es: seq<Entry>): seq<string> {
    if es == [] then []
    else
      var ids := FirstSeen(es[..|es| - 1]);
      var id := es[|es| - 1].passage.id;
      if id in ids then ids else ids + [id]
  }

  predicate Mentions(es: seq<Entry>, id: string) {
    exists i :: 0 <= i < |es| && es[i].passage.id == id
  }

  /** The passage of the last entry of an id: the last writer wins. */
  function LastPassage(es: seq<Entry>, id: string): (p: Passage)
    requires Mentions(es, id)
    ensures p.id == id
  {
    var e := es[|es| - 1];
    if e.passage.id == id then e.passage else LastPassage(es[..|es| - 1], id)
  }

  lemma {:induction false} FirstSeenIsExact(es: seq<Entry>)
    ensures Distinct(FirstSeen(es))
    ensures forall id :: id in FirstSeen(es) <==> Mentions(es, id)
  {
    if es != [] {
      var n := |es| - 1;
      var before := es[..n];
      FirstSeenIsExact(before);
      forall id ensures Mentions(es, id) <==> Mentions(before, id) || es[n].passage.id == id {
        if Mentions(before, id) {
          var i :| 0 <= i < n && before[i].passage.id == id;
          assert es[i].passage.id == id;
        }
        if i :| 0 <= i < |es| && es[i].passage.id == id {
          if i < n { assert before[i].passage.id == id; }
        }
      }
    }
  }

  /** The merged rows before ranking, in dictionary order. */
  function Unranked(es: seq<Entry>, k: int): (rows: seq<Row>)
    requires k > 0 && Positive(es)
    ensures |rows| == |FirstSeen(es)|
  {
    FirstSeenIsExact(es);
    var ids := FirstSeen(es);
    seq(|ids|, i requires 0 <= i < |ids| => Row(LastPassage(es, ids[i]), ScoreOf(es, ids[i], k), 0))
  }

  function ByScore(r: Row): real { r.score }

  function Ranked(rows: seq<Row>): (out: seq<Row>)
    ensures |out| == |rows|
  {
    seq(|rows|, i requires 0 <= i < |rows| => rows[i].(rank := i + 1))
  }

  /** Stable descending sort, then ranks 1..n. */
  function AssignRanks(rows: seq<Row>): seq<Row> { Ranked(SortDesc(rows, ByScore)) }

  function Fused(lists: seq<seq<Row>>, k: int): seq<Row>
    requires k > 0
  {
    AssignRanks(Unranked(AllEntries(lists), k))
  }

  // ---------------------------------------------------------------------------
  // Conservation
  // ---------------------------------------------------------------------------

  function SumScores(rows: seq<Row>): real {
    if rows == [] then 0.0 else rows[0].score + SumScores(rows[1..])
  }

  function SumShares(es: seq<Entry>, k: int): real
    requires k > 0 && Positive(es)
  {
    if es == [] then 0.0 else SumShares(es[..|es| - 1], k) + Share(k, es[|es| - 1].rank)
  }

  /** Total score of a list of ids. */
  function SumOver(ids: seq<string>, es: seq<Entry>, k: int): real
    requires k > 0 && Positive(es)
  {
    if ids == [] then 0.0 else SumOver(ids[..|ids| - 1], es, k) + ScoreOf(es, ids[|ids| - 1], k)
  }

  /** A new entry adds its share to the total of a duplicate-free id list that holds its
      id, and nothing to any other. */
  lemma {:induction false} SumOverNewEntry(ids: seq<string>, es: seq<Entry>, k: int)
    requires k > 0 && Positive(es) && es != [] && Distinct(ids)
    ensures var e := es[|es| - 1];
            SumOver(ids, es, k) == SumOver(ids, es[..|es| - 1], k) + (if e.passage.id in ids then Share(k, e.rank) else 0.0)
  {
    if ids != [] {
      SumOverNewEntry(ids[..|ids| - 1], es, k);
      assert ids == ids[..|ids| - 1] + [ids[|ids| - 1]];
    }
  }

  lemma {:induction false} SharesAreDistributed(es: seq<Entry>, k: int)
    requires k > 0 && Positive(es)
    ensures SumOver(FirstSeen(es), es, k) == SumShares(es, k)
  {
    if es != [] {
      var n := |es| - 1;
      SharesAreDistributed(es[..n], k);
      FirstSeenIsExact(es);
      FirstSeenIsExact(es[..n]);
      SumOverNewEntry(FirstSeen(es), es, k);
      var ids, id := FirstSeen(es[..n]), es[n].passage.id;
      if id !in ids {
        assert FirstSeen(es)[..|ids|] == ids;
        NoScore(es[..n], id, k);
      }
    }
  }

  lemma {:induction false} NoScore(es: seq<Entry>, id: string, k: int)
    requires k > 0 && Positive(es) && !Mentions(es, id)
    ensures ScoreOf(es, id, k) == 0.0
  {
    if es != [] {
      forall i | 0 <= i < |es| ensures es[i].passage.id != id {}
      NoScore(es[..|es| - 1], id, k);
    }
  }

  lemma {:induction false} SumOfRows(rows: seq<Row>, more: seq<Row>)
    ensures SumScores(rows + more) == SumScores(rows) + SumScores(more)
  {
    if rows == [] {
      assert rows + more == more;
    } else {
      assert (rows + more)[1..] == rows[1..] + more;
      SumOfRows(rows[1..], more);
    }
  }

  lemma {:induction false} UnrankedSum(rows: seq<Row>, ids: seq<string>, es: seq<Entry>, k: int)
    requires k > 0 && Positive(es) && |rows| == |ids|
    requires forall i :: 0 <= i < |ids| ==> rows[i].score == ScoreOf(es, ids[i], k)
    ensures SumScores(rows) == SumOver(ids, es, k)
  {
    if ids != [] {
      var n := |ids| - 1;
      UnrankedSum(rows[..n], ids[..n], es, k);
      SumOfRows(rows[..n], [rows[n]]);
      assert rows == rows[..n] + [rows[n]];
    }
  }

  lemma {:induction false} SumAfterInsert(x: Row, rows: seq<Row>)
    ensures SumScores(Insert(x, rows, ByScore)) == x.score + SumScores(rows)
  {
    if rows != [] && x.score < rows[0].score {
      SumAfterInsert(x, rows[1..]);
    }
  }

  lemma {:induction false} SumAfterSort(rows: seq<Row>)
    ensures SumScores(SortDesc(rows, ByScore)) == SumScores(rows)
  {
    if rows != [] {
      SumAfterSort(rows[1..]);
      SumAfterInsert(rows[0], SortDesc(rows[1..], ByScore));
    }
  }

  lemma {:induction false} SumOfSameScores(rows: seq<Row>, other: seq<Row>)
    requires |rows| == |other| && forall i :: 0 <= i < |rows| ==> rows[i].score == other[i].score
    ensures SumScores(rows) == SumScores(other)
  {
    if rows != [] { SumOfSameScores(rows[1..], other[1..]); }
  }

  /** Fusion conserves score: the merged scores add up to the sum of 1/(k + rank) over
      every entry of every list. */
  lemma FusionConservesScore(lists: seq<seq<Row>>, k: int)
    requires k > 0
    ensures SumScores(Fused(lists, k)) == SumShares(AllEntries(lists), k)
  {
    var es := AllEntries(lists);
    var rows := Unranked(es, k);
    UnrankedSum(rows, FirstSeen(es), es, k);
    SharesAreDistributed(es, k);
    SumAfterSort(rows);
    SortDescCorrect(rows, ByScore);
    SumOfSameScores(Fused(lists, k), SortDesc(rows, ByScore));
  }

  // ---------------------------------------------------------------------------
  // What the merged list is
  // ---------------------------------------------------------------------------

  ghost predicate DuplicateFree(rows: seq<Row>) {
    forall i, j :: 0 <= i < j < |rows| ==> rows[i].passage.id != rows[j].passage.id
  }

  /** A ranking of exactly the given ids: each once, by descending score, ranks 1..n. */
  ghost predicate IsRanking(rows: seq<Row>) {
    && (forall i, j :: 0 <= i < j < |rows| ==> rows[i].score >= rows[j].score)
    && DuplicateFree(rows)
    && (forall i :: 0 <= i < |rows| ==> rows[i].rank == i + 1)
  }

  ghost predicate HasRow(rows: seq<Row>, passage: Passage, score: real) {
    exists i :: 0 <= i < |rows| && rows[i].passage == passage && rows[i].score == score
  }

  lemma {:induction false} InsertKeepsDistinctIds(x: Row, rows: seq<Row>)
    requires DuplicateFree(rows) && forall i :: 0 <= i < |rows| ==> rows[i].passage.id != x.passage.id
    ensures DuplicateFree(Insert(x, rows, ByScore))
  {
    if rows != [] && x.score < rows[0].score {
      InsertKeepsDistinctIds(x, rows[1..]);
      var t := Insert(x, rows[1..], ByScore);
      forall i | 0 <= i < |t| ensures t[i].passage.id != rows[0].passage.id {
        InsertPermutes(x, rows[1..], ByScore);
        assert t[i] in multiset(t);
        assert t[i] in multiset(rows[1..]) || t[i] == x;
        assert t[i] in rows[1..] || t[i] == x;
      }
    }
  }

  lemma {:induction false} SortKeepsDistinctIds(rows: seq<Row>)
    requires DuplicateFree(rows)
    ensures DuplicateFree(SortDesc(rows, ByScore))
  {
    if rows != [] {
      SortKeepsDistinctIds(rows[1..]);
      var rest := SortDesc(rows[1..], ByScore);
      forall i | 0 <= i < |rest| ensures rest[i].passage.id != rows[0].passage.id {
        InSorted(rows[1..], ByScore, rest[i]);
      }
      InsertKeepsDistinctIds(rows[0], rest);
    }
  }

  /** Ranking keeps each row's passage and score and is a ranking. */
  lemma AssignRanksIsRanking(rows: seq<Row>)
    requires DuplicateFree(rows)
    ensures IsRanking(AssignRanks(rows)) && |AssignRanks(rows)| == |rows|
    ensures forall p, s :: HasRow(AssignRanks(rows), p, s) <==> HasRow(rows, p, s)
  {
    SortKeepsDistinctIds(rows);
    SortDescCorrect(rows, ByScore);
    var sorted, out := SortDesc(rows, ByScore), AssignRanks(rows);
    forall i, j | 0 <= i < j < |out| ensures out[i].score >= out[j].score {
      assert ByScore(sorted[i]) >= ByScore(sorted[j]);
    }
    forall p, s ensures HasRow(out, p, s) <==> HasRow(rows, p, s) {
      if i :| 0 <= i < |out| && out[i].passage == p && out[i].score == s {
        InSorted(rows, ByScore, sorted[i]);
        var j :| 0 <= j < |rows| && rows[j] == sorted[i];
      }
      if i :| 0 <= i < |rows| && rows[i].passage == p && rows[i].score == s {
        InSorted(rows, ByScore, rows[i]);
        var j :| 0 <= j < |sorted| && sorted[j] == rows[i];
        assert out[j].passage == p && out[j].score == s;
      }
    }
  }

  /** The merged list ranks exactly the ids of the input lists, each once, with the last
      seen passage and its fused score. */
  lemma FusionRanksTheUnion(lists: seq<seq<Row>>, k: int)
    requires k > 0
    ensures IsRanking(Fused(lists, k))
    ensures forall p, s :: HasRow(Fused(lists, k), p, s) <==>
              Mentions(AllEntries(lists), p.id) && p == LastPassage(AllEntries(lists), p.id)
              && s == ScoreOf(AllEntries(lists), p.id, k)
  {
    var es := AllEntries(lists);
    var rows, ids := Unranked(es, k), FirstSeen(es);
    FirstSeenIsExact(es);
    AssignRanksIsRanking(rows);
    forall p, s ensures HasRow(rows, p, s) <==>
                          Mentions(es, p.id) && p == LastPassage(es, p.id) && s == ScoreOf(es, p.id, k)
    {
      if Mentions(es, p.id) && p == LastPassage(es, p.id) && s == ScoreOf(es, p.id, k) {
        var i :| 0 <= i < |ids| && ids[i] == p.id;
        assert rows[i].passage == p && rows[i].score == s;
      }
    }
  }

  // ---------------------------------------------------------------------------
  // Symmetry and dominance
  // ---------------------------------------------------------------------------

  function ListScore(rows: seq<Row>, id: string, k: int): real
    requires k > 0
  {
    ScoreOf(Contributions(rows), id, k)
  }

  function SumListScores(lists: seq<seq<Row>>, id: string, k: int): real
    requires k > 0
  {
    if lists == [] then 0.0
    else SumListScores(lists[..|lists| - 1], id, k) + ListScore(lists[|lists| - 1], id, k)
  }

  lemma {:induction false} ScoreOfConcat(es: seq<Entry>, fs: seq<Entry>, id: string, k: int)
    requires k > 0 && Positive(es) && Positive(fs) && Positive(es + fs)
    ensures ScoreOf(es + fs, id, k) == ScoreOf(es, id, k) + ScoreOf(fs, id, k)
  {
    if fs == [] {
      assert es + fs == es;
    } else {
      var n := |fs| - 1;
      assert (es + fs)[..|es| + n] == es + fs[..n];
      ScoreOfConcat(es, fs[..n], id, k);
    }
  }

  lemma {:induction false} ScoreIsSumOverLists(lists: seq<seq<Row>>, id: string, k: int)
    requires k > 0
    ensures ScoreOf(AllEntries(lists), id, k) == SumListScores(lists, id, k)
  {
    if lists != [] {
      var n := |lists| - 1;
      ScoreIsSumOverLists(lists[..n], id, k);
      ScoreOfConcat(AllEntries(lists[..n]), Contributions(lists[n]), id, k);
    }
  }

  lemma {:induction false} SumWithout(lists: seq<seq<Row>>, i: nat, id: string, k: int)
    requires k > 0 && i < |lists|
    ensures SumListScores(lists, id, k)
            == SumListScores(lists[..i] + lists[i + 1..], id, k) + ListScore(lists[i], id, k)
  {
    hide ListScore;
    var n := |lists| - 1;
    var without := lists[..i] + lists[i + 1..];
    if i == n {
      assert without == lists[..n];
    } else {
      SumWithout(lists[..n], i, id, k);
      assert without[..n - 1] == lists[..n][..i] + lists[..n][i + 1..];
      assert without[n - 1] == lists[n];
    }
  }

  /** The order of the input lists does not matter to any score. */
  lemma {:induction false} ListOrderIsIrrelevant(lists: seq<seq<Row>>, other: seq<seq<Row>>, id: string, k: int)
    requires k > 0 && multiset(lists) == multiset(other)
    ensures ScoreOf(AllEntries(lists), id, k) == ScoreOf(AllEntries(other), id, k)
    decreases |lists|
  {
    hide AllEntries, ScoreOf;
    if lists == [] {
      assert |other| == |multiset(other)|;
    } else {
      var n := |lists| - 1;
      assert lists[n] in multiset(other);
      var i :| 0 <= i < |other| && other[i] == lists[n];
      WithoutOne(lists, other, i);
      var without := other[..i] + other[i + 1..];
      ListOrderIsIrrelevant(lists[..n], without, id, k);
      ScoreIsSumOverLists(lists, id, k);
      ScoreIsSumOverLists(lists[..n], id, k);
      ScoreIsSumOverLists(other, id, k);
      ScoreIsSumOverLists(without, id, k);
      SumWithout(other, i, id, k);
    }
  }

  lemma WithoutOne<T>(s: seq<T>, t: seq<T>, i: nat)
    requires s != [] && i < |t| && multiset(s) == multiset(t) && t[i] == s[|s| - 1]
    ensures multiset(s[..|s| - 1]) == multiset(t[..i] + t[i + 1..])
  {
    assert s == s[..|s| - 1] + [s[|s| - 1]];
    assert t == t[..i] + [t[i]] + t[i + 1..];
    assert multiset(t[..i] + t[i + 1..]) == multiset(t) - multiset{t[i]};
  }

  ghost predicate At(rows: seq<Row>, id: string, i: nat) {
    i < |rows| && rows[i].passage.id == id
  }

  lemma {:induction false} ScoreInDuplicateFree(es: seq<Entry>, i: nat, id: string, k: int)
    requires k > 0 && Positive(es) && i < |es| && es[i].passage.id == id
    requires forall a, b :: 0 <= a < b < |es| ==> es[a].passage.id != es[b].passage.id
    ensures ScoreOf(es, id, k) == Share(k, es[i].rank)
  {
    var n := |es| - 1;
    if i == n {
      forall j | 0 <= j < n ensures es[..n][j].passage.id != id {}
      NoScore(es[..n], id, k);
    } else {
      ScoreInDuplicateFree(es[..n], i, id, k);
    }
  }

  lemma ListScoreIs(rows: seq<Row>, id: string, k: int)
    requires k > 0 && DuplicateFree(rows)
    ensures forall i :: At(rows, id, i) ==> ListScore(rows, id, k) == Share(k, EffectiveRank(rows, i))
    ensures (forall i :: !At(rows, id, i)) ==> ListScore(rows, id, k) == 0.0
    ensures ListScore(rows, id, k) >= 0.0
  {
    var es := Contributions(rows);
    if i: nat :| At(rows, id, i) {
      forall i: nat | At(rows, id, i) ensures ListScore(rows, id, k) == Share(k, EffectiveRank(rows, i)) {
        ScoreInDuplicateFree(es, i, id, k);
      }
    } else {
      if Mentions(es, id) {
        var i :| 0 <= i < |es| && es[i].passage.id == id;
        assert At(rows, id, i);
      }
      NoScore(es, id, k);
    }
  }

  /** p is in the list wherever q is, with a rank no worse. */
  ghost predicate NoWorse(rows: seq<Row>, p: string, q: string) {
    forall j :: At(rows, q, j) ==> exists i :: At(rows, p, i) && EffectiveRank(rows, i) <= EffectiveRank(rows, j)
  }

  /** p is in the list, and q is absent or strictly behind. */
  ghost predicate Ahead(rows: seq<Row>, p: string, q: string) {
    exists i :: At(rows, p, i) && forall j :: At(rows, q, j) ==> EffectiveRank(rows, i) < EffectiveRank(rows, j)
  }

  lemma ShareOrder(k: int, r: int, s: int)
    requires k > 0 && 1 <= r <= s
    ensures Share(k, r) >= Share(k, s)
    ensures r < s ==> Share(k, r) > Share(k, s)
  {
    if r < s { QuotientDrops(1.0, (k + r) as real, (k + s) as real); }
  }

  lemma ListDominance(rows: seq<Row>, p: string, q: string, k: int)
    requires k > 0 && DuplicateFree(rows) && NoWorse(rows, p, q)
    ensures ListScore(rows, p, k) >= ListScore(rows, q, k)
    ensures Ahead(rows, p, q) ==> ListScore(rows, p, k) > ListScore(rows, q, k)
  {
    ListScoreIs(rows, p, k);
    ListScoreIs(rows, q, k);
    if j: nat :| At(rows, q, j) {
      var i: nat :| At(rows, p, i) && EffectiveRank(rows, i) <= EffectiveRank(rows, j);
      ShareOrder(k, EffectiveRank(rows, i), EffectiveRank(rows, j));
      if Ahead(rows, p, q) {
        var a: nat :| At(rows, p, a) && forall j: nat :: At(rows, q, j) ==> EffectiveRank(rows, a) < EffectiveRank(rows, j);
        ShareOrder(k, EffectiveRank(rows, a), EffectiveRank(rows, j));
      }
    }
  }

  lemma {:induction false} ScoreDominance(lists: seq<seq<Row>>, p: string, q: string, k: int)
    requires k > 0 && forall l :: l in lists ==> DuplicateFree(l) && NoWorse(l, p, q)
    ensures SumListScores(lists, p, k) >= SumListScores(lists, q, k)
    ensures (exists l :: l in lists && Ahead(l, p, q)) ==> SumListScores(lists, p, k) > SumListScores(lists, q, k)
  {
    if lists != [] {
      hide NoWorse, Ahead, DuplicateFree, ListScore;
      var n := |lists| - 1;
      assert lists[n] in lists;
      assert forall l :: l in lists[..n] ==> l in lists;
      ScoreDominance(lists[..n], p, q, k);
      ListDominance(lists[n], p, q, k);
      if l :| l in lists && Ahead(l, p, q) {
        var i :| 0 <= i < |lists| && lists[i] == l;
        if i < n { assert lists[..n][i] == l; }
      }
    }
  }

  /** Dominance: over duplicate-free lists, a passage that is nowhere behind another and
      somewhere ahead of it precedes it in the merged ranking. */
  lemma DominatingPassagePrecedes(lists: seq<seq<Row>>, p: string, q: string, k: int, i: nat, j: nat)
    requires k > 0 && forall l :: l in lists ==> DuplicateFree(l) && NoWorse(l, p, q)
    requires exists l :: l in lists && Ahead(l, p, q)
    requires At(Fused(lists, k), p, i) && At(Fused(lists, k), q, j)
    ensures i < j && Fused(lists, k)[i].score > Fused(lists, k)[j].score
  {
    var rows := Fused(lists, k);
    FusionRanksTheUnion(lists, k);
    assert HasRow(rows, rows[i].passage, rows[i].score);
    assert HasRow(rows, rows[j].passage, rows[j].score);
    ScoreIsSumOverLists(lists, p, k);
    ScoreIsSumOverLists(lists, q, k);
    ScoreDominance(lists, p, q, k);
  }
}
