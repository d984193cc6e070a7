/** The fusion objects: result objects on the heap, in-place normalisation and ranking,
    and the dictionary-accumulating merges. */
module Fusion {
  import opened Sequences
  import opened RankFusion

  class RetrievalResult {
    const passage: Passage
    var score: real
    var rank: int

    constructor (passage: Passage, score: real, rank: int)
      ensures this.passage == passage && this.score == score && this.rank == rank
    {
      this.passage := passage;
      this.score := score;
      this.rank := rank;
    }
  }

  function RowOf(r: RetrievalResult): Row
    reads r
  {
    Row(r.passage, r.score, r.rank)
  }

  /** The values of a list of result objects. */
  function Rows(rs: seq<RetrievalResult>): (rows: seq<Row>)
    reads rs
    ensures |rows| == |rs|
    ensures forall i :: 0 <= i < |rs| ==> rows[i] == Row(rs[i].passage, rs[i].score, rs[i].rank)
  {
    seq(|rs|, i requires 0 <= i < |rs| reads rs => RowOf(rs[i]))
  }

  ghost function Objects(lists: seq<seq<RetrievalResult>>): set<RetrievalResult> {
    set l, r | l in lists && r in l :: r
  }

  ghost function AllRows(lists: seq<seq<RetrievalResult>>): (rows: seq<seq<Row>>)
    reads Objects(lists)
    ensures |rows| == |lists|
    ensures forall i :: 0 <= i < |lists| ==> rows[i] == Rows(lists[i])
  {
    if lists == [] then []
    else
      var n := |lists| - 1;
      assert lists[n] in lists;
      assert forall r :: r in lists[n] ==> r in Objects(lists);
      assert Objects(lists[..n]) <= Objects(lists);
      AllRows(lists[..n]) + [Rows(lists[n])]
  }

  // ---------------------------------------------------------------------------
  // Sorting and ranking in place
  // ---------------------------------------------------------------------------

  method InsertByScore(x: RetrievalResult, rs: seq<RetrievalResult>) returns (out: seq<RetrievalResult>)
    ensures Rows(out) == Insert(RowOf(x), Rows(rs), ByScore)
    ensures multiset(out) == multiset(rs) + multiset{x}
  {
    if rs == [] || x.score >= rs[0].score {
      out := [x] + rs;
      assert Rows(out) == [RowOf(x)] + Rows(rs);
    } else {
      var rest := InsertByScore(x, rs[1..]);
      out := [rs[0]] + rest;
      assert Rows(rs)[1..] == Rows(rs[1..]);
      assert Rows(out) == [RowOf(rs[0])] + Rows(rest);
      assert rs == [rs[0]] + rs[1..];
    }
  }

  lemma RowsTail(rs: seq<RetrievalResult>)
    requires rs != []
    ensures Rows(rs)[0] == RowOf(rs[0]) && Rows(rs)[1..] == Rows(rs[1..])
  {
  }

  lemma RowsCons(rs: seq<RetrievalResult>)
    requires rs != []
    ensures SortDesc(Rows(rs), ByScore) == Insert(RowOf(rs[0]), SortDesc(Rows(rs[1..]), ByScore), ByScore)
  {
    hide RowOf, Insert;
    RowsTail(rs);
  }

  lemma HeadAndTail<T>(s: seq<T>)
    requires s != []
    ensures multiset(s) == multiset(s[1..]) + multiset{s[0]}
  {
    assert s == [s[0]] + s[1..];
  }

  /** list.sort(key=score, reverse=True). */
  method SortByScore(rs: seq<RetrievalResult>) returns (out: seq<RetrievalResult>)
    ensures Rows(out) == SortDesc(Rows(rs), ByScore)
    ensures multiset(out) == multiset(rs)
  {
    hide RowOf, Insert, SortDesc, Rows;
    if rs == [] {
      NothingToSort(rs);
      out := [];
    } else {
      RowsCons(rs);
      HeadAndTail(rs);
      var rest := SortByScore(rs[1..]);
      out := InsertByScore(rs[0], rest);
    }
  }

  lemma NothingToSort(rs: seq<RetrievalResult>)
    requires rs == []
    ensures Rows(rs) == SortDesc(Rows(rs), ByScore)
  {
  }

  lemma DistinctByMultiset<T>(s: seq<T>, t: seq<T>)
    requires multiset(s) == multiset(t) && Distinct(s)
    ensures Distinct(t)
  {
    forall i, j | 0 <= i < j < |t| ensures t[i] != t[j] {
      MultiplicityTwo(t, i, j);
      MultiplicityOne(s, t[i]);
    }
  }

  lemma MultiplicityTwo<T>(t: seq<T>, i: nat, j: nat)
    requires i < j < |t|
    ensures t[i] == t[j] ==> multiset(t)[t[i]] >= 2
  {
    assert t == t[..j] + [t[j]] + t[j + 1..];
    assert t[..j][i] == t[i];
    assert t[i] in multiset(t[..j]);
  }

  lemma {:induction false} MultiplicityOne<T>(s: seq<T>, x: T)
    requires Distinct(s)
    ensures multiset(s)[x] <= 1
  {
    if s != [] {
      var n := |s| - 1;
      MultiplicityOne(s[..n], x);
      assert s == s[..n] + [s[n]];
      if s[n] == x {
        assert x !in s[..n];
        assert x !in multiset(s[..n]);
      }
    }
  }

  /** Sorts the list by descending score and numbers the objects from 1. */
  method RankInPlace(rs: seq<RetrievalResult>) returns (out: seq<RetrievalResult>)
    requires Distinct(rs)
    modifies rs
    ensures multiset(out) == multiset(rs) && Distinct(out)
    ensures Rows(out) == AssignRanks(old(Rows(rs)))
  {
    out := SortByScore(rs);
    DistinctByMultiset(rs, out);
    ghost var sorted := Rows(out);
    forall i | 0 <= i < |out| ensures out[i] in rs { assert out[i] in multiset(out); }
    Renumber(out);
    assert Rows(out) == Ranked(sorted);
  }

  /** The ranking loop: the i-th object gets rank i, nothing else changes. */
  method Renumber(rs: seq<RetrievalResult>)
    requires Distinct(rs)
    modifies rs
    ensures Rows(rs) == Ranked(old(Rows(rs)))
    ensures forall r :: r in rs ==> r.score == old(r.score)
  {
    for i := 0 to |rs|
      invariant forall r :: r in rs ==> r.score == old(r.score)
      invariant forall j :: 0 <= j < |rs| ==> rs[j].rank == if j < i then j + 1 else old(rs[j].rank)
    {
      rs[i].rank := i + 1;
    }
  }

  // ---------------------------------------------------------------------------
  // Reciprocal rank fusion
  // ---------------------------------------------------------------------------

  /** Whether constructing a result checks `rank >= 1`. The code as written does (true);
      the unit tests of the merges describe the unchecked behaviour (false). */
  datatype Checks = Checks(rejectsLowRanks: bool)

  /** Constructing a result, which raises for a rank below 1 when ranks are checked. */
  method Construct(passage: Passage, score: real, rank: int, checks: Checks) returns (r: Result<RetrievalResult>)
    ensures r.Err? <==> rank < 1 && checks.rejectsLowRanks
    ensures r.Ok? ==> fresh(r.value) && RowOf(r.value) == Row(passage, score, rank)
  {
    if rank < 1 && checks.rejectsLowRanks {
      return Err("rank must be >= 1");
    }
    var row := new RetrievalResult(passage, score, rank);
    return Ok(row);
  }

  class ReciprocalRankFusion {
    const k: int
    const checks: Checks

    constructor (k: int, checks: Checks)
      requires k > 0
      ensures this.k == k && this.checks == checks
    {
      this.k := k;
      this.checks := checks;
    }

    /** Adds one list's entries to the score and payload dictionaries. `ids` is the
        insertion order of the dictionaries. */
    method Accumulate(list: seq<RetrievalResult>, smoothing: int, ids: seq<string>, scores: map<string, real>,
                      payload: map<string, Passage>, ghost es: seq<Entry>)
      returns (ids': seq<string>, scores': map<string, real>, payload': map<string, Passage>)
      requires smoothing > 0 && Positive(es) && Dictionaries(es, smoothing, ids, scores, payload)
      ensures Positive(es + Contributions(Rows(list)))
      ensures Dictionaries(es + Contributions(Rows(list)), smoothing, ids', scores', payload')
    {
      hide Dictionaries;
      ids', scores', payload' := ids, scores, payload;
      ghost var cs := Contributions(Rows(list));
      assert es + cs[..0] == es;
      for i := 0 to |list|
        invariant Positive(es + cs[..i])
        invariant Dictionaries(es + cs[..i], smoothing, ids', scores', payload')
      {
        var result := list[i];
        var rank := if result.rank >= 1 then result.rank else i + 1;
        var id := result.passage.id;
        assert es + cs[..i + 1] == (es + cs[..i]) + [cs[i]];
        AddEntry(es + cs[..i], cs[i], smoothing, ids', scores', payload');
        ids' := if id in scores' then ids' else ids' + [id];
        scores' := scores'[id := (if id in scores' then scores'[id] else 0.0) + 1.0 / (smoothing + rank) as real];
        payload' := payload'[id := result.passage];
      }
      assert cs[..|list|] == cs;
    }

    /** The rows of the merged list before ranking, as fresh objects of rank 0. When ranks
        are checked the first of them raises. */
    method Collect(ids: seq<string>, scores: map<string, real>, payload: map<string, Passage>,
                   ghost es: seq<Entry>, smoothing: int)
      returns (r: Result<seq<RetrievalResult>>)
      requires smoothing > 0 && Positive(es) && Dictionaries(es, smoothing, ids, scores, payload)
      ensures r.Err? <==> ids != [] && checks.rejectsLowRanks
      ensures r.Ok? ==> Distinct(r.value) && forall i :: 0 <= i < |r.value| ==> fresh(r.value[i])
      ensures r.Ok? ==> Rows(r.value) == Unranked(es, smoothing)
    {
      hide Dictionaries, Unranked;
      UnrankedByDictionary(es, smoothing, ids, scores, payload);
      var merged: seq<RetrievalResult> := [];
      for i := 0 to |ids|
        invariant i > 0 ==> !checks.rejectsLowRanks
        invariant |merged| == i && Distinct(merged) && forall j :: 0 <= j < i ==> fresh(merged[j])
        invariant Rows(merged) == Unranked(es, smoothing)[..i]
      {
        var pid := ids[i];
        var row := Construct(payload[pid], scores[pid], 0, checks);
        if row.Err? {
          return Err(row.error);
        }
        assert row.value !in merged;
        merged := merged + [row.value];
        assert Rows(merged) == Unranked(es, smoothing)[..i] + [RowOf(row.value)];
      }
      assert Unranked(es, smoothing)[..|ids|] == Unranked(es, smoothing);
      return Ok(merged);
    }

    /** Merging ranked lists: an error for a non-positive constant and, as written, for
        any non-empty input; otherwise the fused ranking as fresh objects. */
    method Merge(lists: seq<seq<RetrievalResult>>, k: Option<int>) returns (r: Result<seq<RetrievalResult>>)
      ensures var smoothing := if k.Some? then k.value else this.k;
              && (r.Ok? <==> smoothing > 0 && (checks.rejectsLowRanks ==> old(AllEntries(AllRows(lists))) == []))
              && (r.Ok? ==> Rows(r.value) == Fused(old(AllRows(lists)), smoothing)
                            && Distinct(r.value) && forall i :: 0 <= i < |r.value| ==> fresh(r.value[i]))
    {
      hide Dictionaries, Rows, AllRows, AllEntries, Unranked, AssignRanks;
      var smoothing := if k.Some? then k.value else this.k;
      if smoothing <= 0 {
        return Err("k must be positive");
      }
      var ids: seq<string> := [];
      var scores: map<string, real> := map[];
      var payload: map<string, Passage> := map[];
      ghost var all := AllRows(lists);
      NoEntries(smoothing);
      for i := 0 to |lists|
        invariant Dictionaries(AllEntries(all[..i]), smoothing, ids, scores, payload)
      {
        ids, scores, payload := Accumulate(lists[i], smoothing, ids, scores, payload, AllEntries(all[..i]));
        OneMoreList(all, i);
      }
      assert all[..|lists|] == all;
      ghost var es := AllEntries(all);
      SomeIds(es, smoothing, ids, scores, payload);
      var merged := Collect(ids, scores, payload, es, smoothing);
      if merged.Err? {
        return Err(merged.error);
      }
      var ranked := RankInPlace(merged.value);
      forall i | 0 <= i < |ranked| ensures fresh(ranked[i]) {
        assert ranked[i] in multiset(merged.value);
      }
      return Ok(ranked);
    }
  }

  lemma NoEntries(k: int)
    requires k > 0
    ensures AllEntries([]) == [] && Dictionaries([], k, [], map[], map[])
  {
  }

  lemma OneMoreList(all: seq<seq<Row>>, i: nat)
    requires i < |all|
    ensures AllEntries(all[..i + 1]) == AllEntries(all[..i]) + Contributions(all[i])
  {
    assert all[..i + 1][..i] == all[..i];
  }

  lemma SomeIds(es: seq<Entry>, k: int, ids: seq<string>, scores: map<string, real>, payload: map<string, Passage>)
    requires k > 0 && Positive(es) && Dictionaries(es, k, ids, scores, payload)
    ensures ids != [] <==> es != []
  {
    if es != [] { assert Mentions(es, es[0].passage.id); }
  }

  /** The dictionaries after the entries es. */
  ghost predicate Dictionaries(es: seq<Entry>, k: int, ids: seq<string>, scores: map<string, real>,
                               payload: map<string, Passage>)
    requires k > 0 && Positive(es)
  {
    && ids == FirstSeen(es)
    && (forall id :: id in scores <==> Mentions(es, id))
    && (forall id :: id in payload <==> Mentions(es, id))
    && (forall id :: id in ids <==> Mentions(es, id))
    && (forall id :: id in scores ==> scores[id] == ScoreOf(es, id, k))
    && (forall id :: id in payload ==> payload[id] == LastPassage(es, id))
  }

  /** The rows of the merge read off the dictionaries. */
  lemma UnrankedByDictionary(es: seq<Entry>, k: int, ids: seq<string>, scores: map<string, real>,
                             payload: map<string, Passage>)
    requires k > 0 && Positive(es) && Dictionaries(es, k, ids, scores, payload)
    ensures |Unranked(es, k)| == |ids|
    ensures forall i :: 0 <= i < |ids| ==>
              ids[i] in payload && ids[i] in scores && Unranked(es, k)[i] == Row(payload[ids[i]], scores[ids[i]], 0)
  {
    forall i | 0 <= i < |ids|
      ensures ids[i] in payload && ids[i] in scores && Unranked(es, k)[i] == Row(payload[ids[i]], scores[ids[i]], 0)
    {
      assert ids[i] in ids;
    }
  }

  lemma MentionsSnoc(es: seq<Entry>, e: Entry, x: string)
    ensures Mentions(es + [e], x) <==> Mentions(es, x) || x == e.passage.id
  {
    var all := es + [e];
    if i :| 0 <= i < |es| && es[i].passage.id == x { assert all[i].passage.id == x; }
    assert all[|es|] == e;
  }

  lemma EntrySnoc(es: seq<Entry>, e: Entry, x: string, k: int)
    requires k > 0 && Positive(es) && e.rank >= 1
    ensures Positive(es + [e]) && (Mentions(es + [e], x) <==> Mentions(es, x) || x == e.passage.id)
    ensures ScoreOf(es + [e], x, k)
            == (if Mentions(es, x) then ScoreOf(es, x, k) else 0.0) + (if x == e.passage.id then Share(k, e.rank) else 0.0)
    ensures Mentions(es + [e], x) ==>
              LastPassage(es + [e], x) == if x == e.passage.id then e.passage else LastPassage(es, x)
  {
    MentionsSnoc(es, e, x);
    assert (es + [e])[..|es|] == es;
    if !Mentions(es, x) { NoScore(es, x, k); }
  }

  lemma AddEntry(es: seq<Entry>, e: Entry, k: int, ids: seq<string>, scores: map<string, real>,
                 payload: map<string, Passage>)
    requires k > 0 && Positive(es) && e.rank >= 1 && Dictionaries(es, k, ids, scores, payload)
    ensures Positive(es + [e])
    ensures var id := e.passage.id;
            Dictionaries(es + [e], k, if id in scores then ids else ids + [id],
                         scores[id := (if id in scores then scores[id] else 0.0) + Share(k, e.rank)],
                         payload[id := e.passage])
  {
    FirstSeenSnoc(es, e);
    hide Share, ScoreOf, LastPassage, Mentions, FirstSeen;
    var id, all := e.passage.id, es + [e];
    EntrySnoc(es, e, id, k);
    assert id in scores <==> Mentions(es, id);
    forall x
      ensures Mentions(all, x) <==> Mentions(es, x) || x == id
      ensures ScoreOf(all, x, k) == (if Mentions(es, x) then ScoreOf(es, x, k) else 0.0) + (if x == id then Share(k, e.rank) else 0.0)
      ensures Mentions(all, x) ==> LastPassage(all, x) == if x == id then e.passage else LastPassage(es, x)
    {
      EntrySnoc(es, e, x, k);
    }
  }

  lemma FirstSeenSnoc(es: seq<Entry>, e: Entry)
    ensures var ids, id := FirstSeen(es), e.passage.id;
            FirstSeen(es + [e]) == if id in ids then ids else ids + [id]
    ensures forall x :: x in FirstSeen(es + [e]) <==> Mentions(es + [e], x)
    ensures forall x :: x in FirstSeen(es) <==> Mentions(es, x)
  {
    assert (es + [e])[..|es|] == es;
    FirstSeenIsExact(es);
    FirstSeenIsExact(es + [e]);
  }
}
