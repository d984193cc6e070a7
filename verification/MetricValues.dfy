/** The values of the metrics in terms of judgements and rankings: grades, counts and ranks
    written out, and what one query adds to a report. */
module MetricValues {
  import opened Sequences
  import opened RealFacts
  import opened Metrics
  import opened MetricAggregation

  /** The grades of a ranking; an unjudged document has grade 0. */
  ghost predicate Graded(qrel: Qrel, docs: seq<string>, grades: seq<int>) {
    |grades| == |docs| && forall i :: 0 <= i < |docs| ==> grades[i] == if docs[i] in qrel then qrel[docs[i]] else 0
  }

  ghost predicate NonNegativeGrades(qrel: Qrel) {
    forall id :: id in qrel ==> qrel[id] >= 0
  }

  function Product(x: real, y: real): real { x * y }

  // ---------------------------------------------------------------------------
  // NDCG
  // ---------------------------------------------------------------------------

  /** The first n labels are in descending order and no later one is larger than any of
      them. */
  ghost predicate BestFirst(rels: seq<int>, n: nat) {
    forall i, j :: 0 <= i < n && i < j < |rels| ==> rels[i] >= rels[j]
  }

  /** A list starts like its ideal order exactly when its best labels come first. */
  lemma PrefixIsIdealExactly(rels: seq<int>, n: nat)
    requires n <= |rels|
    ensures |Ideal(rels)| == |rels|
    ensures rels[..n] == Ideal(rels)[..n] <==> BestFirst(rels, n)
  {
    SortDescCorrect(rels, Grade);
    var ideal := Ideal(rels);
    if rels[..n] == ideal[..n] {
      IdealPrefixIsBest(rels, ideal, n);
    } else if BestFirst(rels, n) {
      BestPrefixIsIdeal(rels, n);
    }
  }

  lemma SameRest<T>(s: seq<T>, t: seq<T>, n: nat)
    requires n <= |s| == |t| && multiset(s) == multiset(t) && s[..n] == t[..n]
    ensures multiset(s[n..]) == multiset(t[n..])
  {
    assert s == s[..n] + s[n..] && t == t[..n] + t[n..];
    assert multiset(s[n..]) == multiset(s) - multiset(s[..n]);
    assert multiset(t[n..]) == multiset(t) - multiset(t[..n]);
  }

  lemma LaterLabel(s: seq<int>, t: seq<int>, n: nat, j: nat) returns (m: nat)
    requires n <= j < |s| == |t| && multiset(s[n..]) == multiset(t[n..])
    ensures n <= m < |t| && t[m] == s[j]
  {
    assert s[n..][j - n] == s[j];
    assert s[j] in multiset(t[n..]);
    var i :| 0 <= i < |t[n..]| && t[n..][i] == s[j];
    m := n + i;
  }

  lemma DescendsFrom(s: seq<int>, i: nat, j: nat)
    requires Descending(s, Grade) && i <= j < |s|
    ensures s[i] >= s[j]
  {
    if i < j { assert Grade(s[i]) >= Grade(s[j]); }
  }

  lemma IdealPrefixIsBest(rels: seq<int>, ideal: seq<int>, n: nat)
    requires n <= |rels| == |ideal| && Descending(ideal, Grade) && multiset(ideal) == multiset(rels)
    requires rels[..n] == ideal[..n]
    ensures BestFirst(rels, n)
  {
    SameRest(rels, ideal, n);
    hide Descending;
    assert forall i :: 0 <= i < n ==> rels[..n][i] == rels[i] && ideal[..n][i] == ideal[i];
    forall i, j | 0 <= i < n && i < j < |rels| ensures rels[i] >= rels[j] {
      if j < n {
        DescendsFrom(ideal, i, j);
      } else {
        var m := LaterLabel(rels, ideal, n, j);
        DescendsFrom(ideal, i, m);
      }
    }
  }

  lemma BestPrefixIsIdeal(rels: seq<int>, n: nat)
    requires n <= |rels| && BestFirst(rels, n)
    ensures |Ideal(rels)| == |rels| && rels[..n] == Ideal(rels)[..n]
  {
    var rest := Ideal(rels[n..]);
    SortDescCorrect(rels, Grade);
    SortDescCorrect(rels[n..], Grade);
    RestFromTail(rels[n..]);
    var ideal := Ideal(rels);
    assert Descending(ideal, Grade) && multiset(ideal) == multiset(rels) && |ideal| == |rels|;
    assert Descending(rest, Grade) && multiset(rest) == multiset(rels[n..]);
    hide Ideal, SortDesc, Descending, BestFirst;
    JoinDescends(rels, n, rest);
    JoinPermutes(rels, n, rest);
    GradesIdentify(ideal);
    DescendingUnique(ideal, rels[..n] + rest, Grade);
  }

  lemma RestFromTail(tail: seq<int>)
    ensures forall m :: 0 <= m < |Ideal(tail)| ==> Ideal(tail)[m] in tail
  {
    forall m | 0 <= m < |Ideal(tail)| ensures Ideal(tail)[m] in tail { InSorted(tail, Grade, Ideal(tail)[m]); }
  }

  lemma JoinPermutes(rels: seq<int>, n: nat, rest: seq<int>)
    requires n <= |rels| && multiset(rest) == multiset(rels[n..])
    ensures multiset(rels[..n] + rest) == multiset(rels)
  {
    assert rels == rels[..n] + rels[n..];
  }

  lemma GradesIdentify(s: seq<int>)
    ensures KeyIdentifies(s, Grade)
  {
  }

  lemma JoinDescends(rels: seq<int>, n: nat, rest: seq<int>)
    requires n <= |rels| && BestFirst(rels, n) && Descending(rest, Grade)
    requires forall m :: 0 <= m < |rest| ==> rest[m] in rels[n..]
    ensures Descending(rels[..n] + rest, Grade)
  {
    var t := rels[..n] + rest;
    forall i, j | 0 <= i < j < |t| ensures Grade(t[i]) >= Grade(t[j]) {
      if i < n <= j {
        var m :| 0 <= m < |rels[n..]| && rels[n..][m] == rest[j - n];
        assert rels[i] >= rels[n + m];
      } else if i >= n {
        assert Grade(rest[i - n]) >= Grade(rest[j - n]);
      }
    }
  }

  lemma {:induction false} GainIsPositiveExactly(d: nat -> real, s: seq<int>, n: nat)
    requires Discounting(d) && NonNegative(s) && n <= |s|
    ensures Gain(d, s, n) >= 0.0
    ensures Gain(d, s, n) > 0.0 <==> exists i :: 0 <= i < n && s[i] > 0
  {
    if n > 0 {
      GainIsPositiveExactly(d, s, n - 1);
      TermIsPositiveExactly(s[n - 1], d(n - 1));
      hide Term;
    }
  }

  lemma TermIsPositiveExactly(g: int, w: real)
    requires g >= 0 && w > 0.0
    ensures Term(g, w) >= 0.0 && (Term(g, w) > 0.0 <==> g > 0)
  {
    ProductSign(g as real, w);
  }

  /** The ideal DCG of non-negative labels is positive exactly when some label is. */
  lemma IdealIsPositiveExactly(d: nat -> real, rels: seq<int>, k: int)
    requires Discounting(d) && NonNegative(rels) && k > 0
    ensures IdealDcgAtK(d, rels, k) > 0.0 <==> exists i :: 0 <= i < |rels| && rels[i] > 0
    ensures IdealDcgAtK(d, rels, k) >= 0.0
  {
    IdealNonNegative(rels);
    SortDescCorrect(rels, Grade);
    var ideal := Ideal(rels);
    GainIsPositiveExactly(d, ideal, PrefixLength(|ideal|, k));
    if i :| 0 <= i < |rels| && rels[i] > 0 {
      InSorted(rels, Grade, rels[i]);
      var j :| 0 <= j < |ideal| && ideal[j] == rels[i];
      assert j > 0 ==> Grade(ideal[0]) >= Grade(ideal[j]);
      assert ideal[0] > 0;
    }
    if i :| 0 <= i < PrefixLength(|ideal|, k) && ideal[i] > 0 {
      InSorted(rels, Grade, ideal[i]);
    }
  }

  /** ndcg@k of a query is 1 exactly when some retrieved document has a positive grade, the
      first k come in descending grade, and no document behind them has a larger grade than
      one of them. */
  lemma QueryNdcgIsOneExactly(d: nat -> real, qrel: Qrel, docs: seq<string>, k: int, grades: seq<int>)
    requires Discounting(d) && NonNegativeGrades(qrel) && k > 0 && Graded(qrel, docs, grades)
    ensures QueryMetric(d, qrel, docs, Ndcg(k)) == 1.0 <==>
              && (exists i :: 0 <= i < |docs| && grades[i] > 0)
              && (forall i, j :: 0 <= i < k && i < j < |docs| ==> grades[i] >= grades[j])
  {
    assert BuildRelevanceList(qrel, docs) == grades;
    NdcgIsOneExactly(d, grades, k);
    IdealIsPositiveExactly(d, grades, k);
    PrefixIsIdealExactly(grades, PrefixLength(|grades|, k));
  }

  /** Two graded documents in the wrong order: the value depends on the grades. */
  lemma GradesMatter(d: nat -> real)
    requires Discounting(d)
    ensures var qrel: Qrel := map["a" := 1, "b" := 3];
            QueryMetric(d, qrel, ["a", "b"], Ndcg(2)) == (d(0) + 3.0 * d(1)) / (3.0 * d(0) + d(1)) < 1.0
  {
    var qrel: Qrel := map["a" := 1, "b" := 3];
    var rels := BuildRelevanceList(qrel, ["a", "b"]);
    assert rels == [1, 3];
    assert SortDesc(rels[1..], Grade) == [3];
    assert Ideal(rels) == Insert(1, [3], Grade) == [3, 1];
    TwoTerms(d, 1, 3);
    TwoTerms(d, 3, 1);
    RatioFacts(d(0) + 3.0 * d(1), 3.0 * d(0) + d(1));
  }

  lemma TwoTerms(d: nat -> real, x: int, y: int)
    ensures Gain(d, [x, y], 2) == x as real * d(0) + y as real * d(1)
  {
    assert Gain(d, [x, y], 0) == 0.0;
  }

  // ---------------------------------------------------------------------------
  // Recall, precision, reciprocal rank, average precision
  // ---------------------------------------------------------------------------

  /** The positions of the relevant documents among the first n. */
  ghost function HitPositions(qrel: Qrel, docs: seq<string>, n: nat): set<nat>
    requires n <= |docs|
  {
    set i: nat | i < n && docs[i] in qrel && qrel[docs[i]] > 0
  }

  lemma {:induction false} HitsArePositions(qrel: Qrel, docs: seq<string>, n: nat)
    requires n <= |docs|
    ensures Hits(BuildRelevanceList(qrel, docs), n) == |HitPositions(qrel, docs, n)|
  {
    if n > 0 {
      HitsArePositions(qrel, docs, n - 1);
      var before := HitPositions(qrel, docs, n - 1);
      if docs[n - 1] in qrel && qrel[docs[n - 1]] > 0 {
        assert HitPositions(qrel, docs, n) == before + {n - 1};
      } else {
        assert HitPositions(qrel, docs, n) == before;
      }
    }
  }

  /** precision@k times k and recall@k times the number of relevant judgements are both the
      number of relevant documents among the first k. */
  lemma PrecisionAndRecallCount(d: nat -> real, qrel: Qrel, docs: seq<string>, k: int)
    requires k > 0
    ensures var hits := |HitPositions(qrel, docs, if k < |docs| then k else |docs|)| as real;
            var relevant := |set id | id in qrel && qrel[id] > 0|;
            && Product(QueryMetric(d, qrel, docs, Precision(k)), k as real) == hits
            && (relevant > 0 ==> Product(QueryMetric(d, qrel, docs, Recall(k)), relevant as real) == hits)
            && (relevant == 0 ==> QueryMetric(d, qrel, docs, Recall(k)) == 0.0)
  {
    var n, rels := if k < |docs| then k else |docs|, BuildRelevanceList(qrel, docs);
    HitsArePositions(qrel, docs, n);
    assert RelevantDocs(qrel) == set id | id in qrel && qrel[id] > 0;
    var relevant := |RelevantDocs(qrel)|;
    hide Hits, HitPositions, Product, BuildRelevanceList, RelevantDocs;
    UndoDivision(PrecisionAtK(rels, k), Hits(rels, n) as real, k as real);
    if relevant > 0 { UndoDivision(RecallAtK(rels, relevant, k), Hits(rels, n) as real, relevant as real); }
  }

  /** mrr@k is the reciprocal rank of the first relevant document among the first k. */
  lemma MrrIsFirstHit(d: nat -> real, qrel: Qrel, docs: seq<string>, k: int)
    requires k > 0
    ensures var n := if k < |docs| then k else |docs|;
            && (forall p :: p in HitPositions(qrel, docs, n)
                            && (forall i :: i in HitPositions(qrel, docs, n) ==> p <= i) ==>
                  QueryMetric(d, qrel, docs, Mrr(k)) == 1.0 / (p + 1) as real)
            && (HitPositions(qrel, docs, n) == {} ==> QueryMetric(d, qrel, docs, Mrr(k)) == 0.0)
  {
    var n, rels := if k < |docs| then k else |docs|, Prefix(BuildRelevanceList(qrel, docs), k);
    assert QueryMetric(d, qrel, docs, Mrr(k)) == ReciprocalRank(rels);
    PrefixHits(qrel, docs, k);
    hide QueryMetric, ReciprocalRank, HitPositions, BuildRelevanceList, Prefix;
    FirstPosition(rels, HitPositions(qrel, docs, n));
  }

  lemma PrefixHits(qrel: Qrel, docs: seq<string>, k: int)
    requires k > 0
    ensures var n, rels := if k < |docs| then k else |docs|, Prefix(BuildRelevanceList(qrel, docs), k);
            forall i: nat :: i in HitPositions(qrel, docs, n) <==> i < |rels| && rels[i] > 0
  {
  }

  lemma FirstPosition(rels: seq<int>, hits: set<nat>)
    requires forall i: nat :: i in hits <==> i < |rels| && rels[i] > 0
    ensures forall p :: p in hits && (forall i :: i in hits ==> p <= i) ==> ReciprocalRank(rels) == 1.0 / (p + 1) as real
    ensures hits == {} ==> ReciprocalRank(rels) == 0.0
  {
    var f := FirstHit(rels);
    if f < |rels| { assert f in hits; }
  }

  /** Average precision by its running sum: a further grade adds precision at its rank to
      the total when it is relevant, and nothing otherwise. */
  lemma AveragePrecisionGrows(rels: seq<int>, grade: int)
    ensures AveragePrecision([]) == 0.0
    ensures var h := Hits(rels, |rels|);
            Product(AveragePrecision(rels + [grade]), (if grade > 0 then h + 1 else h) as real)
            == Product(AveragePrecision(rels), h as real)
               + (if grade > 0 then (h + 1) as real / (|rels| + 1) as real else 0.0)
  {
    var all, h := rels + [grade], Hits(rels, |rels|);
    PrecisionSumOfPrefix(all, rels, |rels|);
    SumStep(all, |rels|);
    assert Hits(all, |all|) == if grade > 0 then h + 1 else h;
    hide AveragePrecision, PrecisionSum, Hits, Product;
    AveragePrecisionTimes(all);
    AveragePrecisionTimes(rels);
    assert (if grade > 0 then h + 1 else h) == Hits(all, |all|);
  }

  lemma UndoDivision(q: real, x: real, y: real)
    requires y != 0.0 && q == x / y
    ensures Product(q, y) == x
  {
  }

  lemma SumStep(rels: seq<int>, n: nat)
    requires n < |rels|
    ensures PrecisionSum(rels, n + 1)
            == PrecisionSum(rels, n) + (if rels[n] > 0 then (Hits(rels, n) + 1) as real / (n + 1) as real else 0.0)
  {
  }

  lemma AveragePrecisionTimes(rels: seq<int>)
    ensures Product(AveragePrecision(rels), Hits(rels, |rels|) as real) == PrecisionSum(rels, |rels|)
  {
    PrecisionSumBound(rels, |rels|);
    var h := Hits(rels, |rels|);
    hide PrecisionSum, Hits;
    if h > 0 { UndoDivision(AveragePrecision(rels), PrecisionSum(rels, |rels|), h as real); }
  }

  lemma {:induction false} PrecisionSumOfPrefix(all: seq<int>, rels: seq<int>, n: nat)
    requires n <= |rels| <= |all| && forall i :: 0 <= i < n ==> all[i] == rels[i]
    ensures PrecisionSum(all, n) == PrecisionSum(rels, n) && Hits(all, n) == Hits(rels, n)
  {
    if n > 0 { PrecisionSumOfPrefix(all, rels, n - 1); }
  }

  // ---------------------------------------------------------------------------
  // Reports
  // ---------------------------------------------------------------------------

  lemma {:induction false} RepeatedTimes(c: nat, v: real)
    ensures Repeated(c, v) == Product(c as real, v)
  {
    if c > 0 { RepeatedTimes(c - 1, v); }
  }

  /** A report times the number of evaluated queries. */
  lemma ReportTimesQueries(d: nat -> real, qids: seq<string>, qrels: map<string, Qrel>,
                           results: map<string, seq<string>>, kValues: seq<int>, key: MetricKey)
    requires forall q :: q in qids ==> q in qrels
    requires EvaluatedCount(qids, qrels, results) > 0
    ensures Product(Aggregate(d, qids, qrels, results, kValues, key), EvaluatedCount(qids, qrels, results) as real)
            == Product((if key.Map? then 1 else Count(kValues, key.k)) as real, MetricSum(d, qids, qrels, results, key))
  {
    var n, sum := EvaluatedCount(qids, qrels, results), MetricSum(d, qids, qrels, results, key);
    var c := if key.Map? then 1 else Count(kValues, key.k);
    RepeatedTimes(c, sum);
    hide MetricSum, EvaluatedCount, Repeated, Count, Product;
    UndoDivision(Aggregate(d, qids, qrels, results, kValues, key), Repeated(c, sum), n as real);
  }

  /** One more query: it is skipped when it has neither results nor judgements; otherwise it
      counts as one, and its metrics are added once per occurrence of their cutoff. A judged
      query without results is worth 0 and counts. */
  lemma OneMoreQuery(d: nat -> real, qids: seq<string>, q: string, qrels: map<string, Qrel>,
                     results: map<string, seq<string>>, kValues: seq<int>, key: MetricKey)
    requires (forall x :: x in qids ==> x in qrels) && q in qrels
    requires EvaluatedCount(qids, qrels, results) > 0
    ensures (forall x :: x in qids + [q] ==> x in qrels) && EvaluatedCount(qids + [q], qrels, results) > 0
    ensures var docs, c := if q in results then results[q] else [], if key.Map? then 1 else Count(kValues, key.k);
            var n, n' := EvaluatedCount(qids, qrels, results), EvaluatedCount(qids + [q], qrels, results);
            var before := Aggregate(d, qids, qrels, results, kValues, key);
            var after := Aggregate(d, qids + [q], qrels, results, kValues, key);
            if docs == [] && qrels[q] == map[] then n' == n && after == before
            else
              && n' == n + 1
              && Product(after, n' as real)
                 == Product(before, n as real) + Product(c as real, QueryMetric(d, qrels[q], docs, key))
              && (docs == [] ==> QueryMetric(d, qrels[q], docs, key) == 0.0)
  {
    var docs := DocsFor(results, q);
    assert docs == if q in results then results[q] else [];
    SumsOfOneMore(d, qids, q, qrels, results, key);
    hide MetricSum, QueryMetric, EvaluatedCount, Count, Product, Repeated;
    if docs != [] || qrels[q] != map[] {
      hide Aggregate;
      NoResults(d, qrels[q], key);
      ReportTimesQueries(d, qids, qrels, results, kValues, key);
      ReportTimesQueries(d, qids + [q], qrels, results, kValues, key);
      Distributes((if key.Map? then 1 else Count(kValues, key.k)) as real, MetricSum(d, qids, qrels, results, key),
                  QueryMetric(d, qrels[q], docs, key));
    }
  }

  lemma SumsOfOneMore(d: nat -> real, qids: seq<string>, q: string, qrels: map<string, Qrel>,
                      results: map<string, seq<string>>, key: MetricKey)
    requires (forall x :: x in qids ==> x in qrels) && q in qrels
    ensures forall x :: x in qids + [q] ==> x in qrels
    ensures var e := DocsFor(results, q) != [] || qrels[q] != map[];
            && EvaluatedCount(qids + [q], qrels, results) == EvaluatedCount(qids, qrels, results) + (if e then 1 else 0)
            && MetricSum(d, qids + [q], qrels, results, key)
               == MetricSum(d, qids, qrels, results, key)
                  + (if e then QueryMetric(d, qrels[q], DocsFor(results, q), key) else 0.0)
  {
    hide QueryMetric;
    assert (qids + [q])[..|qids|] == qids;
  }

  lemma Distributes(c: real, x: real, y: real)
    ensures Product(c, x + y) == Product(c, x) + Product(c, y)
  {
  }

  lemma NoResults(d: nat -> real, qrel: Qrel, key: MetricKey)
    ensures QueryMetric(d, qrel, [], key) == 0.0
  {
    var rels := BuildRelevanceList(qrel, []);
    assert rels == [];
    SortDescCorrect(rels, Grade);
    match key
    case Ndcg(k) => assert IdealDcgAtK(d, rels, k) == 0.0;
    case Recall(k) => assert Hits(rels, 0) == 0;
    case _ =>
  }

  // ---------------------------------------------------------------------------
  // Promotion in a benchmark
  // ---------------------------------------------------------------------------

  function Exchange(docs: seq<string>, i: nat): seq<string>
    requires i + 1 < |docs|
  {
    docs[i := docs[i + 1]][i + 1 := docs[i]]
  }

  /** Exchanging two neighbours within the cutoff raises the ndcg@k of a query exactly when
      the lower one has the larger grade. */
  lemma QueryPromotion(d: nat -> real, qrel: Qrel, docs: seq<string>, i: nat, k: int, grades: seq<int>)
    requires Discounting(d) && NonNegativeGrades(qrel) && Graded(qrel, docs, grades)
    requires i + 1 < |docs| && i < k
    ensures QueryMetric(d, qrel, Exchange(docs, i), Ndcg(k)) > QueryMetric(d, qrel, docs, Ndcg(k))
            <==> grades[i] < grades[i + 1]
  {
    assert BuildRelevanceList(qrel, docs) == grades;
    assert BuildRelevanceList(qrel, Exchange(docs, i)) == Swap(grades, i);
    IdealIsPositiveExactly(d, grades, k);
    if grades[i] <= grades[i + 1] {
      PromotionRaisesNdcg(d, grades, i, k);
    } else {
      assert Swap(Swap(grades, i), i) == grades;
      PromotionRaisesNdcg(d, Swap(grades, i), i, k);
    }
  }

  lemma {:induction false} OtherQueriesStay(d: nat -> real, qids: seq<string>, qrels: map<string, Qrel>,
                                            results: map<string, seq<string>>, q: string, docs: seq<string>,
                                            key: MetricKey)
    requires Distinct(qids) && (forall x :: x in qids ==> x in qrels)
    requires q in results && results[q] != [] && docs != []
    ensures var results' := results[q := docs];
            && EvaluatedCount(qids, qrels, results') == EvaluatedCount(qids, qrels, results)
            && MetricSum(d, qids, qrels, results', key) - MetricSum(d, qids, qrels, results, key)
               == if q in qids then QueryMetric(d, qrels[q], docs, key) - QueryMetric(d, qrels[q], results[q], key) else 0.0
    ensures q in qids ==> EvaluatedCount(qids, qrels, results) > 0
  {
    if qids != [] {
      hide QueryMetric;
      var n := |qids| - 1;
      OtherQueriesStay(d, qids[..n], qrels, results, q, docs, key);
      assert qids == qids[..n] + [qids[n]];
      assert qids[n] !in qids[..n];
    }
  }

  /** In any benchmark, exchanging two neighbouring results of a query within a listed cutoff
      raises the reported ndcg@k exactly when the lower one has the larger grade. */
  lemma PromotionRaisesReport(d: nat -> real, qids: seq<string>, qrels: map<string, Qrel>,
                              results: map<string, seq<string>>, kValues: seq<int>, k: int, q: string, i: nat,
                              grades: seq<int>)
    requires Discounting(d) && Distinct(qids) && (forall x :: x in qids ==> x in qrels) && q in qids
    requires q in results && i + 1 < |results[q]| && i < k && k in kValues
    requires NonNegativeGrades(qrels[q]) && Graded(qrels[q], results[q], grades)
    ensures EvaluatedCount(qids, qrels, results) > 0
    ensures EvaluatedCount(qids, qrels, results[q := Exchange(results[q], i)]) > 0
    ensures Aggregate(d, qids, qrels, results[q := Exchange(results[q], i)], kValues, Ndcg(k))
              > Aggregate(d, qids, qrels, results, kValues, Ndcg(k))
            <==> grades[i] < grades[i + 1]
  {
    var results' := results[q := Exchange(results[q], i)];
    assert Exchange(results[q], i) != [];
    hide MetricSum, QueryMetric, EvaluatedCount, Aggregate, Exchange, Count, Graded, NonNegativeGrades, Distinct, Product;
    OtherQueriesStay(d, qids, qrels, results, q, Exchange(results[q], i), Ndcg(k));
    QueryPromotion(d, qrels[q], results[q], i, k, grades);
    ReportTimesQueries(d, qids, qrels, results, kValues, Ndcg(k));
    ReportTimesQueries(d, qids, qrels, results', kValues, Ndcg(k));
    CountPositive(kValues, k);
    SameSide(Aggregate(d, qids, qrels, results', kValues, Ndcg(k)),
             Aggregate(d, qids, qrels, results, kValues, Ndcg(k)),
             EvaluatedCount(qids, qrels, results) as real, Count(kValues, k) as real,
             MetricSum(d, qids, qrels, results', Ndcg(k)), MetricSum(d, qids, qrels, results, Ndcg(k)));
  }

  lemma SameSide(x: real, y: real, n: real, c: real, s: real, t: real)
    requires n > 0.0 && c > 0.0 && Product(x, n) == Product(c, s) && Product(y, n) == Product(c, t)
    ensures x > y <==> s > t
  {
    assert (x - y) * n == c * s - c * t == (s - t) * c;
    ProductSign(x - y, n);
    ProductSign(s - t, c);
  }
}
