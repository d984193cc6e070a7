/** Averaging the per-query metrics over the queries of a benchmark. */
module MetricAggregation {
  import opened Sequences
  import opened RealFacts
  import opened Metrics

  type Qrel = map<string, int>

  datatype MetricKey = Ndcg(k: int) | Mrr(k: int) | Recall(k: int) | Precision(k: int) | Map

  function BuildRelevanceList(qrel: Qrel, docs: seq<string>): (rels: seq<int>)
    ensures |rels| == |docs|
  {
    seq(|docs|, i requires 0 <= i < |docs| => if docs[i] in qrel then qrel[docs[i]] else 0)
  }

  function RelevantDocs(qrel: Qrel): set<string> {
    set id | id in qrel && qrel[id] > 0
  }

  function QueryMetric(d: nat -> real, qrel: Qrel, docs: seq<string>, key: MetricKey): real {
    var rels := BuildRelevanceList(qrel, docs);
    match key
    case Ndcg(k) => NdcgAtK(d, rels, k)
    case Mrr(k) => ReciprocalRank(Prefix(rels, k))
    case Recall(k) => RecallAtK(rels, |RelevantDocs(qrel)|, k)
    case Precision(k) => PrecisionAtK(rels, k)
    case Map => AveragePrecision(rels)
  }

  function DocsFor(results: map<string, seq<string>>, qid: string): seq<string> {
    if qid in results then results[qid] else []
  }

  /** A query without judgements and without results is skipped. */
  predicate Evaluated(qrels: map<string, Qrel>, results: map<string, seq<string>>, qid: string)
    requires qid in qrels
  {
    DocsFor(results, qid) != [] || qrels[qid] != map[]
  }

  function EvaluatedCount(qids: seq<string>, qrels: map<string, Qrel>, results: map<string, seq<string>>): nat
    requires forall q :: q in qids ==> q in qrels
  {
    if qids == [] then 0
    else
      var n := |qids| - 1;
      EvaluatedCount(qids[..n], qrels, results) + (if Evaluated(qrels, results, qids[n]) then 1 else 0)
  }

  function MetricSum(d: nat -> real, qids: seq<string>, qrels: map<string, Qrel>,
                     results: map<string, seq<string>>, key: MetricKey): real
    requires forall q :: q in qids ==> q in qrels
  {
    if qids == [] then 0.0
    else
      var n := |qids| - 1;
      MetricSum(d, qids[..n], qrels, results, key)
      + (if Evaluated(qrels, results, qids[n])
         then QueryMetric(d, qrels[qids[n]], DocsFor(results, qids[n]), key) else 0.0)
  }

  /** How often the inner loop adds a query's value to the accumulator of a key. */
  function Multiplicity(kValues: seq<int>, key: MetricKey): nat {
    if key.Map? then 1 else Count(kValues, key.k)
  }

  function Repeated(c: nat, v: real): real {
    if c == 0 then 0.0 else Repeated(c - 1, v) + v
  }

  lemma {:induction false} RepeatedSum(c: nat, x: real, y: real)
    ensures Repeated(c, x) + Repeated(c, y) == Repeated(c, x + y)
  {
    if c > 0 { RepeatedSum(c - 1, x, y); }
  }

  /** The value compute_metrics reports under a key. */
  function Aggregate(d: nat -> real, qids: seq<string>, qrels: map<string, Qrel>,
                     results: map<string, seq<string>>, kValues: seq<int>, key: MetricKey): real
    requires forall q :: q in qids ==> q in qrels
    requires EvaluatedCount(qids, qrels, results) > 0
  {
    Repeated(Multiplicity(kValues, key), MetricSum(d, qids, qrels, results, key))
    / EvaluatedCount(qids, qrels, results) as real
  }

  ghost predicate Accumulators(sums: map<MetricKey, real>, kValues: seq<int>) {
    forall key: MetricKey :: key in sums <==> !key.Map? && key.k in kValues
  }

  /** Where the accumulators stand after j cutoffs of the current query: `total` is
      what the earlier queries contributed, `value` what this one contributes. */
  ghost predicate Progress(sums: map<MetricKey, real>, kValues: seq<int>, j: nat,
                           total: MetricKey -> real, value: MetricKey -> real)
    requires j <= |kValues|
  {
    && Accumulators(sums, kValues)
    && forall key :: key in sums ==>
         sums[key] == Repeated(Count(kValues, key.k), total(key)) + Repeated(Count(kValues[..j], key.k), value(key))
  }

  /** One pass of the inner loop body: every accumulator of cutoff k gains its value. */
  function AddCutoff(sums: map<MetricKey, real>, k: int, value: MetricKey -> real): map<MetricKey, real>
    requires forall key: MetricKey :: !key.Map? && key.k == k ==> key in sums
  {
    sums[Ndcg(k) := sums[Ndcg(k)] + value(Ndcg(k))]
        [Mrr(k) := sums[Mrr(k)] + value(Mrr(k))]
        [Recall(k) := sums[Recall(k)] + value(Recall(k))]
        [Precision(k) := sums[Precision(k)] + value(Precision(k))]
  }

  lemma ProgressStep(sums: map<MetricKey, real>, kValues: seq<int>, j: nat,
                     total: MetricKey -> real, value: MetricKey -> real)
    requires j < |kValues| && Progress(sums, kValues, j, total, value)
    ensures Progress(AddCutoff(sums, kValues[j], value), kValues, j + 1, total, value)
  {
    var k := kValues[j];
    var after := AddCutoff(sums, k, value);
    assert kValues[..j + 1][..j] == kValues[..j];
    forall key | key in after
      ensures after[key] == Repeated(Count(kValues, key.k), total(key))
                            + Repeated(Count(kValues[..j + 1], key.k), value(key))
    {
      assert after[key] == sums[key] + (if key.k == k then value(key) else 0.0);
    }
  }

  lemma ProgressEnd(sums: map<MetricKey, real>, kValues: seq<int>, total: MetricKey -> real,
                    value: MetricKey -> real, next: MetricKey -> real, value': MetricKey -> real)
    requires Progress(sums, kValues, |kValues|, total, value)
    requires forall key :: next(key) == total(key) + value(key)
    ensures Progress(sums, kValues, 0, next, value')
  {
    assert kValues[..|kValues|] == kValues && kValues[..0] == [];
    forall key | key in sums
      ensures sums[key] == Repeated(Count(kValues, key.k), next(key))
    {
      RepeatedSum(Count(kValues, key.k), total(key), value(key));
    }
  }

  lemma ProgressRename(sums: map<MetricKey, real>, kValues: seq<int>, total: MetricKey -> real,
                       value: MetricKey -> real, next: MetricKey -> real, value': MetricKey -> real)
    requires Progress(sums, kValues, 0, total, value)
    requires forall key :: next(key) == total(key)
    ensures Progress(sums, kValues, 0, next, value')
  {
    assert kValues[..0] == [];
  }

  ghost function SumsOf(d: nat -> real, qids: seq<string>, qrels: map<string, Qrel>,
                        results: map<string, seq<string>>): MetricKey -> real
    requires forall q :: q in qids ==> q in qrels
  {
    (key: MetricKey) => MetricSum(d, qids, qrels, results, key)
  }

  ghost function ValuesOf(d: nat -> real, qrel: Qrel, docs: seq<string>): MetricKey -> real {
    (key: MetricKey) => QueryMetric(d, qrel, docs, key)
  }

  function KeysOf(kValues: seq<int>): set<MetricKey> {
    (set k | k in kValues :: Ndcg(k)) + (set k | k in kValues :: Mrr(k))
    + (set k | k in kValues :: Recall(k)) + (set k | k in kValues :: Precision(k))
  }

  lemma KeysOfExactly(kValues: seq<int>, key: MetricKey)
    ensures key in KeysOf(kValues) <==> !key.Map? && key.k in kValues
  {
    if !key.Map? && key.k in kValues {
      var k := key.k;
      assert key == Ndcg(k) || key == Mrr(k) || key == Recall(k) || key == Precision(k);
    }
  }

  function InitialSums(kValues: seq<int>): map<MetricKey, real> {
    map key | key in KeysOf(kValues) :: 0.0
  }

  lemma {:induction false} RepeatedZero(c: nat)
    ensures Repeated(c, 0.0) == 0.0
  {
    if c > 0 { RepeatedZero(c - 1); }
  }

  lemma InitialProgress(kValues: seq<int>, total: MetricKey -> real)
    requires forall key :: total(key) == 0.0
    ensures Progress(InitialSums(kValues), kValues, 0, total, total)
  {
    hide KeysOf;
    assert kValues[..0] == [];
    forall key ensures key in KeysOf(kValues) <==> !key.Map? && key.k in kValues {
      KeysOfExactly(kValues, key);
    }
    var sums := InitialSums(kValues);
    forall key | key in sums
      ensures sums[key] == Repeated(Count(kValues, key.k), total(key)) + Repeated(0, total(key))
    {
      RepeatedZero(Count(kValues, key.k));
    }
  }

  ghost predicate Reports(metrics: map<MetricKey, real>, d: nat -> real, qids: seq<string>,
                          qrels: map<string, Qrel>, results: map<string, seq<string>>, kValues: seq<int>)
    requires forall q :: q in qids ==> q in qrels
    requires EvaluatedCount(qids, qrels, results) > 0
  {
    && (forall key: MetricKey :: key in metrics <==> key.Map? || key.k in kValues)
    && forall key :: key in metrics ==> metrics[key] == Aggregate(d, qids, qrels, results, kValues, key)
  }

  lemma FinalProgress(d: nat -> real, qids: seq<string>, qrels: map<string, Qrel>,
                      results: map<string, seq<string>>, kValues: seq<int>, sums: map<MetricKey, real>,
                      metrics: map<MetricKey, real>)
    requires forall q :: q in qids ==> q in qrels
    requires EvaluatedCount(qids, qrels, results) > 0
    requires Progress(sums, kValues, 0, SumsOf(d, qids, qrels, results), SumsOf(d, [], qrels, results))
    requires metrics == (map key | key in sums :: sums[key] / EvaluatedCount(qids, qrels, results) as real)
                        [Map := MetricSum(d, qids, qrels, results, Map) / EvaluatedCount(qids, qrels, results) as real]
    ensures Reports(metrics, d, qids, qrels, results, kValues)
  {
    assert kValues[..0] == [];
    forall key | key in sums
      ensures sums[key] == Repeated(Multiplicity(kValues, key), MetricSum(d, qids, qrels, results, key))
    {
    }
    assert Repeated(1, MetricSum(d, qids, qrels, results, Map)) == MetricSum(d, qids, qrels, results, Map);
  }

  /** The inner loop over the cutoffs. */
  method AccumulateQuery(d: nat -> real, qrel: Qrel, docs: seq<string>, kValues: seq<int>,
                         sums: map<MetricKey, real>, ghost total: MetricKey -> real)
    returns (after: map<MetricKey, real>)
    requires Progress(sums, kValues, 0, total, ValuesOf(d, qrel, docs))
    ensures Progress(after, kValues, |kValues|, total, ValuesOf(d, qrel, docs))
  {
    hide NdcgAtK, RecallAtK, PrecisionAtK, ReciprocalRank, Hits, Repeated, Count;
    var rels := BuildRelevanceList(qrel, docs);
    var totalRel := |RelevantDocs(qrel)|;
    after := sums;
    assert kValues[..0] == [];
    ghost var value := ValuesOf(d, qrel, docs);
    for j := 0 to |kValues|
      invariant Progress(after, kValues, j, total, value)
    {
      var k := kValues[j];
      ProgressStep(after, kValues, j, total, value);
      var rr := ComputeReciprocalRank(Prefix(rels, k));
      ghost var stepped := AddCutoff(after, k, value);
      assert value(Ndcg(k)) == NdcgAtK(d, rels, k) && value(Mrr(k)) == rr;
      assert value(Recall(k)) == RecallAtK(rels, totalRel, k) && value(Precision(k)) == PrecisionAtK(rels, k);
      after := after[Ndcg(k) := after[Ndcg(k)] + NdcgAtK(d, rels, k)]
                    [Mrr(k) := after[Mrr(k)] + rr]
                    [Recall(k) := after[Recall(k)] + RecallAtK(rels, totalRel, k)]
                    [Precision(k) := after[Precision(k)] + PrecisionAtK(rels, k)];
      assert after == stepped;
    }
  }

  /** Each value of the returned dictionary is the mean over the evaluated queries,
      times the number of occurrences of its cutoff in kValues. `qids` is the key
      order of the qrels dictionary; the four accumulator dictionaries are held as one,
      keyed by metric and cutoff. */
  method ComputeMetrics(d: nat -> real, qids: seq<string>, qrels: map<string, Qrel>,
                        results: map<string, seq<string>>, kValues: seq<int>)
    returns (metrics: map<MetricKey, real>)
    requires Distinct(qids) && forall q :: q in qids <==> q in qrels
    ensures EvaluatedCount(qids, qrels, results) == 0 ==> metrics == map[]
    ensures EvaluatedCount(qids, qrels, results) > 0 ==> Reports(metrics, d, qids, qrels, results, kValues)
  {
    hide InitialSums, KeysOf, Progress, BuildRelevanceList, AveragePrecision;
    if |qids| == 0 {
      return map[];
    }
    var sums := InitialSums(kValues);
    InitialProgress(kValues, SumsOf(d, [], qrels, results));
    assert qids[..0] == [];
    var mapSum := 0.0;
    var nEvaluated := 0;
    for i := 0 to |qids|
      invariant nEvaluated == EvaluatedCount(qids[..i], qrels, results)
      invariant mapSum == MetricSum(d, qids[..i], qrels, results, Map)
      invariant Progress(sums, kValues, 0, SumsOf(d, qids[..i], qrels, results), SumsOf(d, [], qrels, results))
    {
      assert qids[..i + 1][..i] == qids[..i];
      var qrel := qrels[qids[i]];
      var docs := DocsFor(results, qids[i]);
      ghost var total, next := SumsOf(d, qids[..i], qrels, results), SumsOf(d, qids[..i + 1], qrels, results);
      ghost var value, idle := ValuesOf(d, qrel, docs), SumsOf(d, [], qrels, results);
      if docs != [] || qrel != map[] {
        ProgressRename(sums, kValues, total, idle, total, value);
        sums := AccumulateQuery(d, qrel, docs, kValues, sums, total);
        ProgressEnd(sums, kValues, total, value, next, idle);
        var ap := ComputeAveragePrecision(BuildRelevanceList(qrel, docs));
        mapSum := mapSum + ap;
        nEvaluated := nEvaluated + 1;
      } else {
        ProgressRename(sums, kValues, total, idle, next, idle);
      }
    }
    assert qids[..|qids|] == qids;
    if nEvaluated == 0 {
      return map[];
    }
    metrics := map key | key in sums :: sums[key] / nEvaluated as real;
    metrics := metrics[Map := mapSum / nEvaluated as real];
    FinalProgress(d, qids, qrels, results, kValues, sums, metrics);
  }

  // ---------------------------------------------------------------------------
  // When the reported values are proportions
  // ---------------------------------------------------------------------------

  /** The relevant ids among the first n results. */
  ghost function Found(qrel: Qrel, docs: seq<string>, n: nat): set<string>
    requires n <= |docs|
  {
    set i | 0 <= i < n && docs[i] in RelevantDocs(qrel) :: docs[i]
  }

  /** Counting: over distinct ids, the hits inject into the judged relevant ids. */
  lemma {:induction false} HitsAreFound(qrel: Qrel, docs: seq<string>, n: nat)
    requires n <= |docs| && Distinct(docs[..n])
    ensures Hits(BuildRelevanceList(qrel, docs), n) == |Found(qrel, docs, n)|
  {
    if n > 0 {
      var before := Found(qrel, docs, n - 1);
      assert docs[..n - 1] == docs[..n][..n - 1];
      HitsAreFound(qrel, docs, n - 1);
      var last := docs[..n][n - 1];
      if last in RelevantDocs(qrel) {
        assert Found(qrel, docs, n) == before + {last};
        forall i | 0 <= i < n - 1 ensures docs[i] != last {
          assert docs[..n][i] == docs[i];
        }
      } else {
        assert Found(qrel, docs, n) == before;
      }
    }
  }

  lemma SubsetSize<T>(a: set<T>, b: set<T>)
    requires a <= b
    ensures |a| <= |b|
  {
    assert b == a + (b - a);
  }

  lemma {:induction false} TwoHits(rels: seq<int>, i: nat, j: nat, n: nat)
    requires i < j < n <= |rels| && rels[i] > 0 && rels[j] > 0
    ensures Hits(rels, n) >= 2
  {
    if j == n - 1 { HitAnywhere(rels, i, n - 1); } else { TwoHits(rels, i, j, n - 1); }
  }

  lemma RecallAtMostOne(qrel: Qrel, docs: seq<string>, k: int)
    requires Distinct(Prefix(docs, k))
    ensures 0.0 <= RecallAtK(BuildRelevanceList(qrel, docs), |RelevantDocs(qrel)|, k) <= 1.0
  {
    var total := |RelevantDocs(qrel)|;
    RecallGrowsWithCutoff(BuildRelevanceList(qrel, docs), total, k, k);
    if k > 0 && total > 0 {
      var n := PrefixLength(|docs|, k);
      HitsAreFound(qrel, docs, n);
      SubsetSize(Found(qrel, docs, n), RelevantDocs(qrel));
      RatioFacts(Hits(BuildRelevanceList(qrel, docs), n) as real, total as real);
    }
  }

  /** recall@k stays within 1 for every set of judgements exactly when the first k
      results are duplicate-free. */
  lemma RecallBoundedExactly(docs: seq<string>, k: int)
    requires k > 0
    ensures (forall qrel: Qrel :: RecallAtK(BuildRelevanceList(qrel, docs), |RelevantDocs(qrel)|, k) <= 1.0)
            <==> Distinct(Prefix(docs, k))
  {
    if Distinct(Prefix(docs, k)) {
      forall qrel: Qrel ensures RecallAtK(BuildRelevanceList(qrel, docs), |RelevantDocs(qrel)|, k) <= 1.0 {
        RecallAtMostOne(qrel, docs, k);
      }
    } else {
      var n := PrefixLength(|docs|, k);
      var i, j :| 0 <= i < j < n && docs[..n][i] == docs[..n][j];
      var qrel: Qrel := map[docs[i] := 1];
      var rels := BuildRelevanceList(qrel, docs);
      assert RelevantDocs(qrel) == {docs[i]};
      TwoHits(rels, i, j, n);
      assert RecallAtK(rels, |RelevantDocs(qrel)|, k) >= 2.0;
    }
  }

  /** Judgements with the documented grades, rankings without repeated ids. */
  ghost predicate WellFormed(qids: seq<string>, qrels: map<string, Qrel>, results: map<string, seq<string>>) {
    && Distinct(qids)
    && (forall q :: q in qids <==> q in qrels)
    && (forall q, id :: q in qrels && id in qrels[q] ==> qrels[q][id] >= 0)
    && (forall q :: q in results ==> Distinct(results[q]))
  }

  lemma QueryMetricInUnitInterval(d: nat -> real, qrel: Qrel, docs: seq<string>, key: MetricKey)
    requires Discounting(d) && Distinct(docs) && forall id :: id in qrel ==> qrel[id] >= 0
    ensures 0.0 <= QueryMetric(d, qrel, docs, key) <= 1.0
  {
    var rels := BuildRelevanceList(qrel, docs);
    match key
    case Ndcg(k) => NdcgInUnitInterval(d, rels, k);
    case Mrr(k) => MrrGrowsWithCutoff(rels, k, k);
    case Recall(k) => RecallAtMostOne(qrel, docs, k);
    case Precision(k) => PrecisionInUnitInterval(rels, k);
    case Map => AveragePrecisionIsOneExactly(rels);
  }

  lemma {:induction false} MetricSumBound(d: nat -> real, qids: seq<string>, qrels: map<string, Qrel>,
                                          results: map<string, seq<string>>, key: MetricKey)
    requires Discounting(d) && forall q :: q in qids ==> q in qrels
    requires forall q, id :: q in qrels && id in qrels[q] ==> qrels[q][id] >= 0
    requires forall q :: q in results ==> Distinct(results[q])
    ensures 0.0 <= MetricSum(d, qids, qrels, results, key) <= EvaluatedCount(qids, qrels, results) as real
    ensures key == Ndcg(0) || key == Mrr(0) || key == Recall(0) || key == Precision(0) ==>
              MetricSum(d, qids, qrels, results, key) == 0.0
  {
    if qids != [] {
      var n := |qids| - 1;
      MetricSumBound(d, qids[..n], qrels, results, key);
      QueryMetricInUnitInterval(d, qrels[qids[n]], DocsFor(results, qids[n]), key);
    }
  }

  /** Every reported value is in [0,1] when no cutoff other than 0 is listed twice. */
  lemma AggregateInUnitInterval(d: nat -> real, qids: seq<string>, qrels: map<string, Qrel>,
                                results: map<string, seq<string>>, kValues: seq<int>, key: MetricKey)
    requires Discounting(d) && WellFormed(qids, qrels, results)
    requires EvaluatedCount(qids, qrels, results) > 0
    requires key.Map? || (key.k in kValues && (key.k != 0 ==> Count(kValues, key.k) == 1))
    ensures 0.0 <= Aggregate(d, qids, qrels, results, kValues, key) <= 1.0
  {
    var sum := MetricSum(d, qids, qrels, results, key);
    MetricSumBound(d, qids, qrels, results, key);
    if !key.Map? && key.k == 0 {
      RepeatedZero(Count(kValues, 0));
    } else {
      assert Repeated(1, sum) == sum;
    }
    RatioFacts(sum, EvaluatedCount(qids, qrels, results) as real);
  }

  /** A ranking whose slice `[:k]` holds exactly one result. */
  function OneResultSlice(k: int): (docs: seq<string>)
    requires k != 0
    ensures |docs| > 0 && Prefix(docs, k) == docs[..1]
    ensures |docs| == if k > 0 then 1 else 1 - k
  {
    if k > 0 then ["a"] else seq(1 - k, i requires 0 <= i < 1 - k => seq(i + 1, _ => 'a'))
  }

  lemma {:induction false} RepeatedGrows(c: nat, v: real)
    requires v >= 0.0 && c >= 2
    ensures Repeated(c, v) >= v + v
  {
    if c > 2 { RepeatedGrows(c - 1, v); } else { assert Repeated(1, v) == v; }
  }

  /** A cutoff listed twice doubles its metrics: one query whose first result is the
      relevant one has mrr@k at least 2. */
  lemma RepeatedCutoffOverflows(d: nat -> real, kValues: seq<int>, k: int)
    requires k != 0 && Count(kValues, k) >= 2
    ensures exists qrels, results :: WellFormed(["q"], qrels, results) && EvaluatedCount(["q"], qrels, results) > 0
              && Aggregate(d, ["q"], qrels, results, kValues, Mrr(k)) >= 2.0
  {
    var docs := OneResultSlice(k);
    forall i, j | 0 <= i < j < |docs| ensures docs[i] != docs[j] {
      assert |docs[i]| != |docs[j]|;
    }
    var qrels: map<string, Qrel> := map["q" := map[docs[0] := 1]];
    var results := map["q" := docs];
    var qids := ["q"];
    assert qids[..0] == [];
    assert EvaluatedCount(qids, qrels, results) == 1;
    var rels := BuildRelevanceList(qrels["q"], docs);
    assert PrefixLength(|docs|, k) == 1;
    assert Prefix(rels, k)[0] == 1;
    assert MetricSum(d, qids, qrels, results, Mrr(k)) == 1.0;
    assert WellFormed(qids, qrels, results);
    RepeatedGrows(Count(kValues, k), 1.0);
    hide MetricSum, EvaluatedCount, WellFormed, Repeated, Count, QueryMetric;
    assert Aggregate(d, qids, qrels, results, kValues, Mrr(k)) == Repeated(Count(kValues, k), 1.0) / 1.0;
  }

  ghost predicate AlwaysProportions(d: nat -> real, kValues: seq<int>) {
    forall qids, qrels, results, key: MetricKey ::
      WellFormed(qids, qrels, results) && EvaluatedCount(qids, qrels, results) > 0
      && (key.Map? || key.k in kValues) ==>
        0.0 <= Aggregate(d, qids, qrels, results, kValues, key) <= 1.0
  }

  /** compute_metrics reports proportions on every well-formed input exactly when no
      cutoff other than 0 is listed twice. */
  lemma ProportionsExactly(d: nat -> real, kValues: seq<int>)
    requires Discounting(d)
    ensures AlwaysProportions(d, kValues) <==> forall k :: k in kValues && k != 0 ==> Count(kValues, k) == 1
  {
    if forall k :: k in kValues && k != 0 ==> Count(kValues, k) == 1 {
      forall qids, qrels, results, key: MetricKey |
        WellFormed(qids, qrels, results) && EvaluatedCount(qids, qrels, results) > 0
        && (key.Map? || key.k in kValues)
        ensures 0.0 <= Aggregate(d, qids, qrels, results, kValues, key) <= 1.0
      {
        AggregateInUnitInterval(d, qids, qrels, results, kValues, key);
      }
    } else {
      var k :| k in kValues && k != 0 && Count(kValues, k) != 1;
      CountPositive(kValues, k);
      RepeatedCutoffOverflows(d, kValues, k);
      var qrels, results :| WellFormed(["q"], qrels, results) && EvaluatedCount(["q"], qrels, results) > 0
        && Aggregate(d, ["q"], qrels, results, kValues, Mrr(k)) >= 2.0;
      assert Mrr(k).k in kValues;
    }
  }

  // ---------------------------------------------------------------------------
  // Growing cutoffs
  // ---------------------------------------------------------------------------

  lemma {:induction false} RepeatedMonotone(c: nat, c': nat, v: real, v': real)
    requires c <= c' && 0.0 <= v <= v'
    ensures 0.0 <= Repeated(c, v) <= Repeated(c', v')
  {
    if c' > 0 { RepeatedMonotone(if c == c' then c - 1 else c, c' - 1, v, v'); }
  }

  /** Whether a reported metric is one that grows with its cutoff, from key to key'. */
  ghost predicate GrowingCutoff(key: MetricKey, key': MetricKey) {
    || (key.Recall? && key'.Recall? && key.k <= key'.k)
    || (key.Mrr? && key'.Mrr? && key.k <= key'.k && (key.k >= 0 || key'.k < 0))
  }

  lemma {:induction false} MetricSumGrows(d: nat -> real, qids: seq<string>, qrels: map<string, Qrel>,
                                          results: map<string, seq<string>>, key: MetricKey, key': MetricKey)
    requires GrowingCutoff(key, key') && forall q :: q in qids ==> q in qrels
    ensures 0.0 <= MetricSum(d, qids, qrels, results, key) <= MetricSum(d, qids, qrels, results, key')
  {
    if qids != [] {
      var n := |qids| - 1;
      MetricSumGrows(d, qids[..n], qrels, results, key, key');
      var qrel, docs := qrels[qids[n]], DocsFor(results, qids[n]);
      var rels := BuildRelevanceList(qrel, docs);
      if key.Recall? {
        RecallGrowsWithCutoff(rels, |RelevantDocs(qrel)|, key.k, key'.k);
      } else {
        MrrGrowsWithCutoff(rels, key.k, key'.k);
      }
    }
  }

  /** The reported recall@k and mrr@k never drop as k grows, over all benchmarks, if the
      larger cutoff is listed at least as often. */
  lemma AggregateGrowsWithCutoff(d: nat -> real, qids: seq<string>, qrels: map<string, Qrel>,
                                 results: map<string, seq<string>>, kValues: seq<int>, key: MetricKey, key': MetricKey)
    requires forall q :: q in qids ==> q in qrels
    requires EvaluatedCount(qids, qrels, results) > 0 && GrowingCutoff(key, key')
    requires Count(kValues, key.k) <= Count(kValues, key'.k)
    ensures 0.0 <= Aggregate(d, qids, qrels, results, kValues, key)
                <= Aggregate(d, qids, qrels, results, kValues, key')
  {
    var n := EvaluatedCount(qids, qrels, results) as real;
    var sum, sum' := MetricSum(d, qids, qrels, results, key), MetricSum(d, qids, qrels, results, key');
    var c, c' := Count(kValues, key.k), Count(kValues, key'.k);
    MetricSumGrows(d, qids, qrels, results, key, key');
    RepeatedMonotone(c, c', sum, sum');
    assert Multiplicity(kValues, key) == c && Multiplicity(kValues, key') == c';
    QuotientsOrdered(Repeated(c, sum), Repeated(c', sum'), n);
    hide MetricSum, Repeated, Count, EvaluatedCount, GrowingCutoff, Multiplicity;
    assert Aggregate(d, qids, qrels, results, kValues, key) == Repeated(c, sum) / n;
    assert Aggregate(d, qids, qrels, results, kValues, key') == Repeated(c', sum') / n;
  }

  /** Whether, over all well-formed benchmarks, the report under key is at most that under
      key'. */
  ghost predicate NeverDrops(d: nat -> real, kValues: seq<int>, key: MetricKey, key': MetricKey) {
    forall qids, qrels, results :: WellFormed(qids, qrels, results) && EvaluatedCount(qids, qrels, results) > 0 ==>
      Aggregate(d, qids, qrels, results, kValues, key) <= Aggregate(d, qids, qrels, results, kValues, key')
  }

  /** For positive cutoffs that condition is exact. */
  lemma NeverDropsExactly(d: nat -> real, kValues: seq<int>, key: MetricKey, key': MetricKey)
    requires GrowingCutoff(key, key') && key.k > 0
    ensures NeverDrops(d, kValues, key, key') <==> Count(kValues, key.k) <= Count(kValues, key'.k)
  {
    if Count(kValues, key.k) <= Count(kValues, key'.k) {
      forall qids, qrels, results | WellFormed(qids, qrels, results) && EvaluatedCount(qids, qrels, results) > 0
        ensures Aggregate(d, qids, qrels, results, kValues, key) <= Aggregate(d, qids, qrels, results, kValues, key')
      {
        AggregateGrowsWithCutoff(d, qids, qrels, results, kValues, key, key');
      }
    } else {
      var qrels: map<string, Qrel> := map["q" := map["a" := 1]];
      var results := map["q" := ["a"]];
      OneHitReports(d, kValues, key, qrels, results);
      OneHitReports(d, kValues, key', qrels, results);
    }
  }

  /** One query whose only result is its only relevant document reports the number of
      occurrences of the cutoff. */
  lemma OneHitReports(d: nat -> real, kValues: seq<int>, key: MetricKey, qrels: map<string, Qrel>,
                      results: map<string, seq<string>>)
    requires (key.Recall? || key.Mrr?) && key.k > 0
    requires qrels == map["q" := map["a" := 1]] && results == map["q" := ["a"]]
    ensures WellFormed(["q"], qrels, results) && EvaluatedCount(["q"], qrels, results) > 0
    ensures Aggregate(d, ["q"], qrels, results, kValues, key) == Count(kValues, key.k) as real
  {
    var qids := ["q"];
    assert qids[..0] == [];
    assert EvaluatedCount(qids, qrels, results) == 1;
    OneHitMetric(d, qrels["q"], key);
    assert MetricSum(d, qids, qrels, results, key) == 1.0;
    RepeatedOne(Count(kValues, key.k));
    hide MetricSum, Repeated, Count, EvaluatedCount, QueryMetric;
    var c := Count(kValues, key.k) as real;
    assert Aggregate(d, qids, qrels, results, kValues, key) == c / 1.0;
  }

  lemma OneHitMetric(d: nat -> real, qrel: Qrel, key: MetricKey)
    requires (key.Recall? || key.Mrr?) && key.k > 0 && qrel == map["a" := 1]
    ensures QueryMetric(d, qrel, ["a"], key) == 1.0
  {
    var rels := BuildRelevanceList(qrel, ["a"]);
    assert rels == [1] && Prefix(rels, key.k) == [1];
    assert Hits([1], 1) == 1 by { assert Hits([1], 0) == 0; }
    assert RelevantDocs(qrel) == {"a"};
  }

  lemma {:induction false} RepeatedOne(c: nat)
    ensures Repeated(c, 1.0) == c as real
  {
    if c > 0 { RepeatedOne(c - 1); }
  }

  lemma QuotientsOrdered(x: real, y: real, n: real)
    requires n > 0.0 && 0.0 <= x <= y
    ensures 0.0 <= x / n <= y / n
  {
    DivideMonotone(0.0, x, n);
    DivideMonotone(x, y, n);
  }
}
