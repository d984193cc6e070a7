/** The figures of a significance test in terms of the scores, the resamples and the seeds. */
module BootstrapValues {
  import opened RealFacts
  import opened Sequences
  import opened Bootstrap

  // ---------------------------------------------------------------------------
  // One test
  // ---------------------------------------------------------------------------

  /** Sum from the front. */
  function Added(s: seq<real>): real {
    if s == [] then 0.0 else s[0] + Added(s[1..])
  }

  function Times(x: real, n: nat): real { x * n as real }

  lemma {:induction false} SumIsAdded(s: seq<real>, t: seq<real>)
    ensures Added(s) == Sum(s)
    ensures Added(s + t) == Added(s) + Added(t)
    decreases |s| + |t|
  {
    if s == [] {
      assert s + t == t;
    } else {
      assert (s + t)[1..] == s[1..] + t;
      SumIsAdded(s[1..], t);
      var n := |s| - 1;
      SumIsAdded(s[..n], []);
      AddedLast(s);
    }
  }

  lemma {:induction false} AddedLast(s: seq<real>)
    requires s != []
    ensures Added(s) == Added(s[..|s| - 1]) + s[|s| - 1]
  {
    if |s| > 1 {
      AddedLast(s[1..]);
      assert s[1..][..|s| - 2] == s[..|s| - 1][1..];
    }
  }

  /** x is the mean of the scores at the given positions. */
  ghost predicate IsMeanAt(scores: seq<real>, row: seq<nat>, x: real)
    requires forall i :: 0 <= i < |row| ==> row[i] < |scores|
  {
    Times(x, |row|) == Added(seq(|row|, i requires 0 <= i < |row| => scores[row[i]]))
  }

  /** x is the quantile q of the ascending values: between its neighbours in proportion to
      where q * (n - 1) lies between their positions. */
  ghost predicate IsQuantile(values: seq<real>, q: real, x: real)
    requires values != [] && 0.0 <= q <= 1.0
  {
    exists f: nat :: f < |values| && f as real <= q * (|values| - 1) as real < (f + 1) as real
      && x == if f == |values| - 1 then values[f]
              else values[f] + (q * (|values| - 1) as real - f as real) * (values[f + 1] - values[f])
  }

  ghost predicate Against(delta: real, x: real) {
    if delta >= 0.0 then x <= 0.0 else x >= 0.0
  }

  /** Number of resamples that contradict the sign of the observed difference. */
  ghost function Contradicting(delta: real, boots: seq<real>): set<nat> {
    set r: nat | r < |boots| && Against(delta, boots[r])
  }

  /** Resampled differences of means, row by row. */
  ghost predicate AreDifferences(a: seq<real>, b: seq<real>, indices: seq<seq<nat>>, boots: seq<real>)
    requires |a| == |b| && Matrix(indices, |a|)
  {
    |boots| == |indices| && forall r :: 0 <= r < |boots| ==> IsDifferenceAt(a, b, indices[r], boots[r])
  }

  ghost predicate IsDifferenceAt(a: seq<real>, b: seq<real>, row: seq<nat>, x: real)
    requires |a| == |b| && Row(row, |a|)
  {
    exists u, v :: IsMeanAt(a, row, u) && IsMeanAt(b, row, v) && x == v - u
  }

  /** The figures of a test, given the resampled differences, also in ascending order. */
  ghost predicate HasFigures(t: TestResult, a: seq<real>, b: seq<real>, alpha: real, boots: seq<real>, ordered: seq<real>)
    requires 0.0 <= alpha <= 2.0
  {
    && Times(t.meanA, |a|) == Added(a) && Times(t.meanB, |b|) == Added(b) && t.delta == t.meanB - t.meanA
    && Times(t.pValue, |boots|) == |Contradicting(t.delta, boots)| as real && (t.significant <==> t.pValue < alpha)
    && multiset(ordered) == multiset(boots) && Ascending(ordered) && ordered != []
    && IsQuantile(ordered, alpha / 2.0, t.lo) && IsQuantile(ordered, 1.0 - alpha / 2.0, t.hi)
  }

  ghost predicate IsTest(t: TestResult, a: seq<real>, b: seq<real>, indices: seq<seq<nat>>, alpha: real)
    requires |a| == |b| && Matrix(indices, |a|) && 0.0 <= alpha <= 2.0
  {
    exists boots, ordered :: AreDifferences(a, b, indices, boots) && HasFigures(t, a, b, alpha, boots, ordered)
  }

  lemma MeanTimes(s: seq<real>)
    requires s != []
    ensures Times(Mean(s), |s|) == Added(s)
  {
    SumIsAdded(s, []);
  }

  lemma RowDifference(a: seq<real>, b: seq<real>, row: seq<nat>)
    requires |a| == |b| > 0 && Row(row, |a|)
    ensures IsDifferenceAt(a, b, row, RowDelta(a, b, row))
  {
    MeanAt(a, row);
    MeanAt(b, row);
  }

  lemma MeanAt(scores: seq<real>, row: seq<nat>)
    requires scores != [] && Row(row, |scores|)
    ensures IsMeanAt(scores, row, Mean(Resample(scores, row)))
  {
    MeanTimes(Resample(scores, row));
    assert Resample(scores, row) == seq(|row|, i requires 0 <= i < |row| => scores[row[i]]);
  }

  lemma PercentileIsQuantile(boots: seq<real>, q: real)
    requires boots != [] && 0.0 <= q <= 1.0
    ensures IsQuantile(SortAsc(boots), q, Percentile(boots, q))
  {
    hide SortAsc;
    var v := Position(|boots|, q);
    assert v == q * (|boots| - 1) as real;
    var f := v.Floor;
    assert f as real <= v < (f + 1) as real;
  }

  lemma {:induction false} TallyIsContradicting(delta: real, boots: seq<real>)
    ensures Tally(boots, if delta >= 0.0 then NonPositive else NonNegative) == |Contradicting(delta, boots)|
  {
    if boots != [] {
      var n := |boots| - 1;
      TallyIsContradicting(delta, boots[..n]);
      var before := Contradicting(delta, boots[..n]);
      assert forall r :: 0 <= r < n ==> boots[..n][r] == boots[r];
      if Against(delta, boots[n]) {
        assert Contradicting(delta, boots) == before + {n};
      } else {
        assert Contradicting(delta, boots) == before;
      }
    }
  }

  lemma PValueTimes(delta: real, boots: seq<real>)
    requires boots != []
    ensures Times(PValue(delta, boots), |boots|) == |Contradicting(delta, boots)| as real
  {
    TallyIsContradicting(delta, boots);
    hide Tally, Contradicting;
  }

  /** The test returns a result exactly for score lists of the same positive length, an alpha
      in [0, 2] and at least one resample, and its figures are: the means and their
      difference, the share of resamples that contradict its sign, and the two interpolated
      quantiles of the resampled differences. */
  lemma TestFigures(a: seq<real>, b: seq<real>, indices: seq<seq<nat>>, alpha: real)
    requires |a| == |b| ==> Matrix(indices, |a|)
    ensures var r := PairedBootstrapTest(a, b, indices, alpha);
            && (r.Ok? <==> |a| == |b| > 0 && 0.0 <= alpha <= 2.0 && indices != [])
            && (r.Ok? ==> IsTest(r.value, a, b, indices, alpha))
  {
    hide IsTest, PValue, Percentile, Mean, Matrix, BootDeltas;
    if |a| == |b| > 0 && 0.0 <= alpha <= 2.0 && indices != [] {
      ResultIsTest(a, b, indices, alpha);
    }
  }

  lemma ResultIsTest(a: seq<real>, b: seq<real>, indices: seq<seq<nat>>, alpha: real)
    requires |a| == |b| > 0 && Matrix(indices, |a|) && 0.0 <= alpha <= 2.0 && indices != []
    ensures var boots := BootDeltas(a, b, indices);
            var delta := Mean(b) - Mean(a);
            var p := PValue(delta, boots);
            IsTest(TestResult(Mean(a), Mean(b), delta, p, Percentile(boots, alpha / 2.0),
                              Percentile(boots, 1.0 - alpha / 2.0), p < alpha), a, b, indices, alpha)
  {
    hide PValue, Percentile, Mean, Matrix, BootDeltas, AreDifferences, HasFigures;
    DifferencesAre(a, b, indices);
    FiguresOf(a, b, BootDeltas(a, b, indices), alpha);
  }

  lemma FiguresOf(a: seq<real>, b: seq<real>, boots: seq<real>, alpha: real)
    requires |a| == |b| > 0 && boots != [] && 0.0 <= alpha <= 2.0
    ensures var delta := Mean(b) - Mean(a);
            var p := PValue(delta, boots);
            HasFigures(TestResult(Mean(a), Mean(b), delta, p, Percentile(boots, alpha / 2.0),
                                  Percentile(boots, 1.0 - alpha / 2.0), p < alpha), a, b, alpha, boots, SortAsc(boots))
  {
    hide PValue, Percentile, Mean, IsQuantile, Contradicting, Ascending, SortAsc, Added, Times;
    MeanTimes(a);
    MeanTimes(b);
    PValueTimes(Mean(b) - Mean(a), boots);
    SortAscCorrect(boots);
    PercentileIsQuantile(boots, alpha / 2.0);
    PercentileIsQuantile(boots, 1.0 - alpha / 2.0);
  }

  lemma DifferencesAre(a: seq<real>, b: seq<real>, indices: seq<seq<nat>>)
    requires |a| == |b| > 0 && Matrix(indices, |a|)
    ensures AreDifferences(a, b, indices, BootDeltas(a, b, indices))
  {
    forall r | 0 <= r < |indices| ensures IsDifferenceAt(a, b, indices[r], BootDeltas(a, b, indices)[r]) {
      RowDifference(a, b, indices[r]);
    }
  }

  // ---------------------------------------------------------------------------
  // One comparison
  // ---------------------------------------------------------------------------

  /** A comparison is the test on the shared queries in sorted order, resampled with the
      given seed. */
  lemma ComparisonFigures(a: Scores, b: Scores, sorted: set<string> -> seq<string>,
                          draw: (int, nat) -> seq<seq<nat>>, seed: int, alpha: real)
    requires Sorts(sorted) && Draws(draw)
    ensures var r, queries := CompareSystems(a, b, sorted, draw, seed, alpha), sorted(set q | q in a && q in b);
            && (forall q :: q in queries <==> q in a && q in b)
            && (r.Ok? <==> queries != [] && 0.0 <= alpha <= 2.0 && draw(seed, |queries|) != [])
            && (r.Ok? ==>
                  && Matrix(draw(seed, |queries|), |queries|)
                  && IsTest(r.value, seq(|queries|, i requires 0 <= i < |queries| => a[queries[i]]),
                            seq(|queries|, i requires 0 <= i < |queries| => b[queries[i]]), draw(seed, |queries|), alpha))
  {
    var shared := set q | q in a && q in b;
    assert Shared(a, b) == shared;
    var queries := sorted(shared);
    assert SortedList(queries, shared);
    assert forall i :: 0 <= i < |queries| ==> queries[i] in queries;
    if queries != [] {
      assert Matrix(draw(seed, |queries|), |queries|);
      assert Column(a, queries) == seq(|queries|, i requires 0 <= i < |queries| => a[queries[i]]);
      assert Column(b, queries) == seq(|queries|, i requires 0 <= i < |queries| => b[queries[i]]);
      hide Column, PairedBootstrapTest, IsTest, Matrix;
      TestFigures(Column(a, queries), Column(b, queries), draw(seed, |queries|), alpha);
    }
  }

  // ---------------------------------------------------------------------------
  // The report
  // ---------------------------------------------------------------------------

  /** The number of the pair (i, j) among all pairs of n systems in lexicographic order. */
  function PairNumber(n: nat, i: nat, j: nat): nat
    requires i < j < n
  {
    if i == 0 then j - 1 else n - 1 + PairNumber(n - 1, i - 1, j - 1)
  }

  lemma {:induction false} PairAt(from: nat, n: nat, i: nat, j: nat)
    requires from <= i < j < n
    ensures var pairs, m := PairsFrom(from, n), PairNumber(n - from, i - from, j - from);
            m < |pairs| && pairs[m] == (i, j)
    decreases n - from
  {
    var first, rest := PairsOf(from, n - 1 - from), PairsFrom(from + 1, n);
    assert PairsFrom(from, n) == first + rest;
    if i > from {
      hide PairsFrom;
      PairAt(from + 1, n, i, j);
    }
  }

  /** The comparison of the pair (i, j) of systems, with its own seed. */
  function PairComparison(s: Study, i: nat, j: nat): Result<TestResult>
    requires WellFormed(s) && i < j < |s.names|
  {
    CompareSystems(s.systems[s.names[i]], s.systems[s.names[j]], s.sorted, s.draw,
                   s.seed + PairNumber(|s.names|, i, j), s.alpha)
  }

  /** The report holds exactly the comparisons of the pairs i < j that do not fail, with the
      seed raised by the number of the pair. */
  lemma ReportHoldsComparisons(s: Study, c: Comparison)
    requires WellFormed(s) && Distinct(s.names)
    ensures c in Report(s) <==>
              exists i: nat, j: nat :: i < j < |s.names| && c.a == s.names[i] && c.b == s.names[j]
                                       && PairComparison(s, i, j) == Ok(c.result)
  {
    EveryPairIsReportedOnce(s);
    var cs := Compared(s, PairsFrom(0, |s.names|));
    assert c in Report(s) <==> c in multiset(Report(s));
    assert c in cs <==> c in multiset(cs);
    hide *;
    if c in Report(s) { var i, j := ComparedPair(s, c); }
    if i: nat, j: nat :| i < j < |s.names| && c.a == s.names[i] && c.b == s.names[j]
                         && PairComparison(s, i, j) == Ok(c.result) {
      PairIsCompared(s, c, i, j);
    }
  }

  lemma ComparedPair(s: Study, c: Comparison) returns (i: nat, j: nat)
    requires WellFormed(s) && Distinct(s.names) && PairsOfNames(s, PairsFrom(0, |s.names|))
    requires c in Compared(s, PairsFrom(0, |s.names|))
    ensures i < j < |s.names| && c.a == s.names[i] && c.b == s.names[j] && PairComparison(s, i, j) == Ok(c.result)
  {
    hide PairsFrom, Compared, WellFormed, CompareSystems, Attempted, Distinct;
    var pairs, n := PairsFrom(0, |s.names|), |s.names|;
    var m := ComparedIsAttempted(s, pairs, c);
    i, j := pairs[m].0, pairs[m].1;
    PairsFromExactly(0, n, pairs[m]);
    PairAt(0, n, i, j);
    PairsFromDistinct(0, n);
    OnePlace(pairs, m, PairNumber(n, i, j));
    AttemptedComparison(s, pairs[m], m, c);
  }

  lemma OnePlace<T>(s: seq<T>, m: nat, n: nat)
    requires Distinct(s) && m < |s| && n < |s| && s[m] == s[n]
    ensures m == n
  {
  }

  lemma AttemptedComparison(s: Study, pair: (nat, nat), m: nat, c: Comparison)
    requires WellFormed(s) && pair.0 < |s.names| && pair.1 < |s.names| && Attempted(s, pair, m) == [c]
    ensures c.a == s.names[pair.0] && c.b == s.names[pair.1]
    ensures CompareSystems(s.systems[c.a], s.systems[c.b], s.sorted, s.draw, s.seed + m, s.alpha) == Ok(c.result)
  {
    hide CompareSystems;
  }

  lemma PairIsCompared(s: Study, c: Comparison, i: nat, j: nat)
    requires WellFormed(s) && PairsOfNames(s, PairsFrom(0, |s.names|))
    requires i < j < |s.names| && c.a == s.names[i] && c.b == s.names[j] && PairComparison(s, i, j) == Ok(c.result)
    ensures c in Compared(s, PairsFrom(0, |s.names|))
  {
    hide PairsFrom, Compared, Report, WellFormed, CompareSystems, Descending;
    PairAt(0, |s.names|, i, j);
    AttemptedIsCompared(s, PairsFrom(0, |s.names|), PairNumber(|s.names|, i, j), c);
  }
}
