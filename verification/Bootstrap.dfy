/** Paired bootstrap significance test over a given resample matrix: symmetry in the two
    systems, bounds of the interval, and how interval and p-value agree. */
module Bootstrap {
  import opened RealFacts
  import opened Sequences

  datatype TestResult = TestResult(meanA: real, meanB: real, delta: real, pValue: real, lo: real, hi: real,
                                   significant: bool)

  function Sum(s: seq<real>): real {
    if s == [] then 0.0 else Sum(s[..|s| - 1]) + s[|s| - 1]
  }

  function Mean(s: seq<real>): real
    requires s != []
  {
    Sum(s) / |s| as real
  }

  /** Every row of the matrix draws n positions below n. */
  ghost predicate Matrix(indices: seq<seq<nat>>, n: nat) {
    forall r :: 0 <= r < |indices| ==> Row(indices[r], n)
  }

  ghost predicate Row(row: seq<nat>, n: nat) {
    |row| == n && forall i :: 0 <= i < n ==> row[i] < n
  }

  function Resample(scores: seq<real>, row: seq<nat>): (r: seq<real>)
    requires forall i :: 0 <= i < |row| ==> row[i] < |scores|
    ensures |r| == |row|
  {
    seq(|row|, i requires 0 <= i < |row| => scores[row[i]])
  }

  function RowDelta(a: seq<real>, b: seq<real>, row: seq<nat>): real
    requires |a| == |b| > 0 && Row(row, |a|)
  {
    Mean(Resample(b, row)) - Mean(Resample(a, row))
  }

  function BootDeltas(a: seq<real>, b: seq<real>, indices: seq<seq<nat>>): (deltas: seq<real>)
    requires |a| == |b| > 0 && Matrix(indices, |a|)
    ensures |deltas| == |indices|
  {
    seq(|indices|, r requires 0 <= r < |indices| => RowDelta(a, b, indices[r]))
  }

  predicate NonPositive(x: real) { x <= 0.0 }

  predicate NonNegative(x: real) { x >= 0.0 }

  function Tally(s: seq<real>, p: real -> bool): (t: nat)
    ensures t <= |s|
  {
    if s == [] then 0 else Tally(s[..|s| - 1], p) + (if p(s[|s| - 1]) then 1 else 0)
  }

  /** The share of resamples against the sign of the observed difference. */
  function PValue(delta: real, boots: seq<real>): real
    requires boots != []
  {
    Tally(boots, if delta >= 0.0 then NonPositive else NonNegative) as real / |boots| as real
  }

  function Opposite(x: real): real { -x }

  function SortAsc(s: seq<real>): (t: seq<real>)
    ensures |t| == |s|
  {
    SortDescCorrect(s, Opposite);
    SortDesc(s, Opposite)
  }

  /** Linear interpolation between neighbouring order statistics at position v. */
  function Interpolate(s: seq<real>, v: real): real
    requires s != [] && 0.0 <= v <= (|s| - 1) as real
  {
    var f := v.Floor;
    if f == |s| - 1 then s[f] else s[f] + (v - f as real) * (s[f + 1] - s[f])
  }

  /** The position of the quantile q among n values. */
  function Position(n: nat, q: real): (v: real)
    requires n > 0 && 0.0 <= q <= 1.0
    ensures 0.0 <= v <= (n - 1) as real
  {
    q * (n - 1) as real
  }

  function Percentile(s: seq<real>, q: real): real
    requires s != [] && 0.0 <= q <= 1.0
  {
    Interpolate(SortAsc(s), Position(|s|, q))
  }

  /** The only error that is not a ValueError: a percentile of no resamples. */
  const NO_RESAMPLES := "index -1 is out of bounds"

  /** The test. Unequal or empty score lists, an alpha whose percentiles leave [0, 100] and
      no resample all raise. */
  function PairedBootstrapTest(a: seq<real>, b: seq<real>, indices: seq<seq<nat>>, alpha: real): Result<TestResult>
    requires |a| == |b| ==> Matrix(indices, |a|)
  {
    if |a| != |b| then Err("scores_a and scores_b must have the same length")
    else if a == [] then Err("Input score lists must not be empty.")
    else if alpha < 0.0 || alpha > 2.0 then Err("Percentiles must be in the range [0, 100]")
    else if indices == [] then Err(NO_RESAMPLES)
    else
      var delta := Mean(b) - Mean(a);
      var boots := BootDeltas(a, b, indices);
      var p := PValue(delta, boots);
      Ok(TestResult(Mean(a), Mean(b), delta, p, Percentile(boots, alpha / 2.0), Percentile(boots, 1.0 - alpha / 2.0),
                    p < alpha))
  }

  // ---------------------------------------------------------------------------
  // Order statistics
  // ---------------------------------------------------------------------------

  ghost predicate Ascending(s: seq<real>) {
    forall i, j :: 0 <= i < j < |s| ==> s[i] <= s[j]
  }

  lemma SortAscCorrect(s: seq<real>)
    ensures Ascending(SortAsc(s))
    ensures multiset(SortAsc(s)) == multiset(s)
  {
    SortDescCorrect(s, Opposite);
    assert forall i, j :: 0 <= i < j < |s| ==> Opposite(SortAsc(s)[i]) >= Opposite(SortAsc(s)[j]);
  }

  lemma Cancel(x: multiset<real>, p: multiset<real>, q: multiset<real>)
    requires x + p == x + q
    ensures p == q
  {
    assert p == x + p - x;
    assert q == x + q - x;
  }

  /** Removing the first value of s from a permutation t of s. */
  lemma RemoveMatch(s: seq<real>, t: seq<real>) returns (i: nat)
    requires s != [] && multiset(s) == multiset(t)
    ensures i < |t| && t[i] == s[0]
    ensures multiset(s[1..]) == multiset(t[..i] + t[i + 1..])
  {
    assert s[0] in multiset(s);
    assert s[0] in t;
    i :| 0 <= i < |t| && t[i] == s[0];
    assert s == [s[0]] + s[1..];
    assert t == t[..i] + [t[i]] + t[i + 1..];
    assert multiset(s) == multiset{s[0]} + multiset(s[1..]);
    assert multiset(t) == multiset{s[0]} + multiset(t[..i] + t[i + 1..]);
    Cancel(multiset{s[0]}, multiset(s[1..]), multiset(t[..i] + t[i + 1..]));
  }

  lemma AscendingUnique(s: seq<real>, t: seq<real>)
    requires Ascending(s) && Ascending(t) && multiset(s) == multiset(t)
    ensures s == t
  {
    assert Descending(s, Opposite) && Descending(t, Opposite);
    DescendingUnique(s, t, Opposite);
  }

  function Negate(s: seq<real>): (t: seq<real>)
    ensures |t| == |s|
  {
    seq(|s|, i requires 0 <= i < |s| => -s[i])
  }

  function Mirror(s: seq<real>): (t: seq<real>)
    ensures |t| == |s|
  {
    seq(|s|, i requires 0 <= i < |s| => -s[|s| - 1 - i])
  }

  lemma {:induction false} MirrorIsNegation(s: seq<real>)
    ensures multiset(Mirror(s)) == multiset(Negate(s))
  {
    if s == [] {
      assert Mirror(s) == Negate(s);
    } else {
      var n := |s| - 1;
      MirrorIsNegation(s[..n]);
      assert Mirror(s) == [-s[n]] + Mirror(s[..n]);
      assert Negate(s) == Negate(s[..n]) + [-s[n]];
    }
  }

  lemma {:induction false} NegateRespectsPermutation(s: seq<real>, t: seq<real>)
    requires multiset(s) == multiset(t)
    ensures multiset(Negate(s)) == multiset(Negate(t))
  {
    SamePermutationLength(s, t);
    if s != [] {
      var i := RemoveMatch(s, t);
      NegateRespectsPermutation(s[1..], t[..i] + t[i + 1..]);
      assert Negate(s) == [-s[0]] + Negate(s[1..]);
      assert Negate(t) == Negate(t[..i]) + [-t[i]] + Negate(t[i + 1..]);
      assert Negate(t[..i] + t[i + 1..]) == Negate(t[..i]) + Negate(t[i + 1..]);
    }
  }

  lemma SortMirrors(s: seq<real>)
    ensures SortAsc(Negate(s)) == Mirror(SortAsc(s))
  {
    SortAscCorrect(s);
    SortAscCorrect(Negate(s));
    NegateRespectsPermutation(s, SortAsc(s));
    MirrorIsNegation(SortAsc(s));
    AscendingUnique(SortAsc(Negate(s)), Mirror(SortAsc(s)));
  }

  lemma InterpolateMirrors(s: seq<real>, v: real)
    requires s != [] && 0.0 <= v <= (|s| - 1) as real
    ensures Interpolate(Mirror(s), (|s| - 1) as real - v) == -Interpolate(s, v)
  {
    var n, f, w := |s|, v.Floor, (|s| - 1) as real - v;
    var t := v - f as real;
    if t == 0.0 {
      assert w.Floor == n - 1 - f;
    } else {
      assert w.Floor == n - 2 - f;
      var d := s[f + 1] - s[f];
      var g, u := w.Floor, 1.0 - t;
      assert Mirror(s)[g] == -s[f + 1] && Mirror(s)[g + 1] - Mirror(s)[g] == d;
      assert w - g as real == u;
      assert Interpolate(Mirror(s), w) == -s[f + 1] + u * d;
      assert Interpolate(s, v) == s[f] + t * d;
      assert u * d == d - t * d;
    }
  }

  /** The quantile 1 - q of the negated values is the negated quantile q. */
  lemma PercentileMirrors(s: seq<real>, q: real)
    requires s != [] && 0.0 <= q <= 1.0
    ensures Percentile(Negate(s), 1.0 - q) == -Percentile(s, q)
  {
    SortMirrors(s);
    InterpolateMirrors(SortAsc(s), Position(|s|, q));
    assert Position(|s|, 1.0 - q) == (|s| - 1) as real - Position(|s|, q);
  }

  lemma InterpolateBetween(s: seq<real>, v: real)
    requires s != [] && 0.0 <= v <= (|s| - 1) as real && Ascending(s)
    ensures s[v.Floor] <= Interpolate(s, v)
    ensures v.Floor + 1 < |s| ==> Interpolate(s, v) <= s[v.Floor + 1]
  {
    var f := v.Floor;
    if f < |s| - 1 {
      var t, d := v - f as real, s[f + 1] - s[f];
      assert 0.0 <= t < 1.0 && d >= 0.0;
      NonNegativeProduct(t, d);
      NonNegativeProduct(1.0 - t, d);
      assert t * d == d - (1.0 - t) * d;
    }
  }

  lemma InterpolateMonotone(s: seq<real>, v: real, w: real)
    requires s != [] && 0.0 <= v <= w <= (|s| - 1) as real && Ascending(s)
    ensures Interpolate(s, v) <= Interpolate(s, w)
  {
    var f, g := v.Floor, w.Floor;
    InterpolateBetween(s, v);
    InterpolateBetween(s, w);
    if f == g && f < |s| - 1 {
      var d, t, u := s[f + 1] - s[f], v - f as real, w - f as real;
      NonNegativeProduct(u - t, d);
      assert (u - t) * d == u * d - t * d;
      assert Interpolate(s, v) == s[f] + t * d;
      assert Interpolate(s, w) == s[f] + u * d;
    } else if f < g {
      assert s[f + 1] <= s[g];
    }
  }

  lemma PositionMonotone(n: nat, q: real, r: real)
    requires n > 0 && 0.0 <= q <= r <= 1.0
    ensures Position(n, q) <= Position(n, r)
  {
    var m := (n - 1) as real;
    NonNegativeProduct(r - q, m);
    assert (r - q) * m == r * m - q * m;
  }

  lemma PercentileMonotone(s: seq<real>, q: real, r: real)
    requires s != [] && 0.0 <= q <= r <= 1.0
    ensures Percentile(s, q) <= Percentile(s, r)
  {
    SortAscCorrect(s);
    PositionMonotone(|s|, q, r);
    hide Position, Interpolate, SortAsc;
    InterpolateMonotone(SortAsc(s), Position(|s|, q), Position(|s|, r));
  }

  lemma PercentileWithin(s: seq<real>, q: real, least: real, greatest: real)
    requires s != [] && 0.0 <= q <= 1.0
    requires forall x :: x in s ==> least <= x <= greatest
    ensures least <= Percentile(s, q) <= greatest
  {
    SortAscCorrect(s);
    var t := SortAsc(s);
    forall i | 0 <= i < |t| ensures least <= t[i] <= greatest {
      assert t[i] in multiset(t);
      assert t[i] in s;
    }
    InterpolateBetween(t, Position(|s|, q));
  }

  // ---------------------------------------------------------------------------
  // Exchanging the two systems
  // ---------------------------------------------------------------------------

  lemma BootDeltasNegate(a: seq<real>, b: seq<real>, indices: seq<seq<nat>>)
    requires |a| == |b| > 0 && Matrix(indices, |a|)
    ensures BootDeltas(b, a, indices) == Negate(BootDeltas(a, b, indices))
  {
  }

  lemma {:induction false} TallyNegate(s: seq<real>)
    ensures Tally(Negate(s), NonPositive) == Tally(s, NonNegative)
    ensures Tally(Negate(s), NonNegative) == Tally(s, NonPositive)
  {
    if s != [] {
      var n := |s| - 1;
      TallyNegate(s[..n]);
      assert Negate(s)[..n] == Negate(s[..n]);
    }
  }

  lemma EndsMirror(s: seq<real>, q: real)
    requires s != [] && 0.0 <= q <= 1.0
    ensures Percentile(Negate(s), q) == -Percentile(s, 1.0 - q)
    ensures Percentile(Negate(s), 1.0 - q) == -Percentile(s, q)
  {
    hide Percentile, Negate;
    PercentileMirrors(s, q);
    PercentileMirrors(s, 1.0 - q);
    assert 1.0 - (1.0 - q) == q;
  }

  /** Exchanging the systems negates the difference and mirrors the interval. The p-value
      stays unless the observed difference is exactly zero and the resamples lean one way. */
  lemma SwapMirrorsTest(a: seq<real>, b: seq<real>, indices: seq<seq<nat>>, alpha: real)
    requires |a| == |b| && Matrix(indices, |a|)
    ensures var ab, ba := PairedBootstrapTest(a, b, indices, alpha), PairedBootstrapTest(b, a, indices, alpha);
            && (ab.Ok? <==> ba.Ok?)
            && (ab.Ok? ==>
                  && ba.value.meanA == ab.value.meanB && ba.value.meanB == ab.value.meanA
                  && ba.value.delta == -ab.value.delta
                  && ba.value.lo == -ab.value.hi && ba.value.hi == -ab.value.lo
                  && (ba.value.pValue == ab.value.pValue <==>
                        || Mean(a) != Mean(b)
                        || Tally(BootDeltas(a, b, indices), NonPositive) == Tally(BootDeltas(a, b, indices), NonNegative)))
  {
    var ab := PairedBootstrapTest(a, b, indices, alpha);
    if ab.Ok? {
      var boots := BootDeltas(a, b, indices);
      BootDeltasNegate(a, b, indices);
      hide Percentile, BootDeltas, Tally, Mean, PValue, Matrix, Negate;
      EndsMirror(boots, alpha / 2.0);
      PValueOfNegated(ab.value.delta, boots);
    }
  }

  lemma PValueOfNegated(delta: real, boots: seq<real>)
    requires boots != []
    ensures PValue(-delta, Negate(boots)) == PValue(delta, boots) <==>
            delta != 0.0 || Tally(boots, NonPositive) == Tally(boots, NonNegative)
  {
    TallyNegate(boots);
    hide Tally;
    SameQuotient(Tally(boots, NonPositive), Tally(boots, NonNegative), |boots|);
  }

  lemma SameQuotient(x: nat, y: nat, n: nat)
    requires n > 0
    ensures x as real / n as real == y as real / n as real <==> x == y
  {
    var p, q := x as real / n as real, y as real / n as real;
    assert p * n as real == x as real && q * n as real == y as real;
  }

  /** Whether the p-value is the same in both orders for every matrix of n rows. */
  ghost predicate SymmetricPValue(a: seq<real>, b: seq<real>, n: nat, alpha: real)
    requires |a| == |b|
  {
    forall indices :: Matrix(indices, |a|) && |indices| == n ==> SamePValue(a, b, indices, alpha)
  }

  predicate SamePValue(a: seq<real>, b: seq<real>, indices: seq<seq<nat>>, alpha: real)
    requires |a| == |b| && Matrix(indices, |a|)
  {
    var ab, ba := PairedBootstrapTest(a, b, indices, alpha), PairedBootstrapTest(b, a, indices, alpha);
    ab.Ok? && ba.Ok? ==> ab.value.pValue == ba.value.pValue
  }

  /** In terms of the scores: the order of the systems never matters to the p-value exactly
      when their means differ or they agree on every query. */
  lemma SymmetricPValueExactly(a: seq<real>, b: seq<real>, n: nat, alpha: real)
    requires |a| == |b| > 0 && n > 0 && 0.0 <= alpha <= 2.0
    ensures SymmetricPValue(a, b, n, alpha) <==> Mean(a) != Mean(b) || a == b
  {
    hide PairedBootstrapTest, Mean, Matrix, Tally, BootDeltas;
    if a == b {
    } else if Mean(a) != Mean(b) {
      forall indices | Matrix(indices, |a|) && |indices| == n ensures SamePValue(a, b, indices, alpha) {
        SwapMirrorsTest(a, b, indices, alpha);
      }
    } else {
      var i := SomewhereBetter(a, b);
      OneQueryMatrix(a, b, i, n, alpha);
    }
  }

  /** With equal means, a difference anywhere means that b is better somewhere. */
  lemma SomewhereBetter(a: seq<real>, b: seq<real>) returns (i: nat)
    requires |a| == |b| > 0 && a != b && Mean(a) == Mean(b)
    ensures i < |a| && b[i] > a[i]
  {
    if forall j :: 0 <= j < |a| ==> b[j] <= a[j] {
      SumsDiffer(a, b);
      DivideMonotone(Sum(b), Sum(a), |a| as real);
      assert false;
    }
    i :| 0 <= i < |a| && b[i] > a[i];
  }

  lemma {:induction false} SumsDiffer(x: seq<real>, y: seq<real>)
    requires |x| == |y| && forall j :: 0 <= j < |x| ==> y[j] <= x[j]
    ensures Sum(y) <= Sum(x) && (x != y ==> Sum(y) < Sum(x))
  {
    if x != [] {
      var n := |x| - 1;
      SumsDiffer(x[..n], y[..n]);
      assert x == x[..n] + [x[n]] && y == y[..n] + [y[n]];
    }
  }

  /** Resampling only query i, where b is better, gives p-value 0 in one order and 1 in the
      other. */
  lemma OneQueryMatrix(a: seq<real>, b: seq<real>, i: nat, n: nat, alpha: real)
    requires |a| == |b| && i < |a| && b[i] > a[i] && Mean(a) == Mean(b) && n > 0 && 0.0 <= alpha <= 2.0
    ensures !SymmetricPValue(a, b, n, alpha)
  {
    var row := seq<nat>(|a|, _ => i);
    var indices := seq<seq<nat>>(n, _ => row);
    assert Row(row, |a|) && Matrix(indices, |a|);
    var boots := BootDeltas(a, b, indices);
    MeansWithin(Resample(a, row), Resample(b, row), b[i] - a[i], b[i] - a[i]);
    assert forall x :: x in boots ==> x > 0.0;
    NoneTallied(boots);
    AllNonNegative(boots);
    hide Mean, Tally, BootDeltas, Matrix;
    SwapMirrorsTest(a, b, indices, alpha);
    assert !SamePValue(a, b, indices, alpha);
  }

  lemma {:induction false} AllNonNegative(s: seq<real>)
    requires forall x :: x in s ==> x >= 0.0
    ensures Tally(s, NonNegative) == |s|
  {
    if s != [] {
      var n := |s| - 1;
      assert s[n] in s;
      assert forall x :: x in s[..n] ==> x in s;
      AllNonNegative(s[..n]);
    }
  }

  /** Two tied systems whose p-value depends on the order of the arguments. */
  lemma TiedSystemsDisagree()
    ensures var a, b, indices := [0.0, 0.0], [1.0, -1.0], [[0, 0]];
            && PairedBootstrapTest(a, b, indices, 0.05).Ok? && PairedBootstrapTest(b, a, indices, 0.05).Ok?
            && PairedBootstrapTest(a, b, indices, 0.05).value.pValue == 0.0
            && PairedBootstrapTest(b, a, indices, 0.05).value.pValue == 1.0
  {
    var a, b, indices: seq<seq<nat>> := [0.0, 0.0], [1.0, -1.0], [[0, 0]];
    TwoMeans(0.0, 0.0);
    TwoMeans(1.0, -1.0);
    TwoMeans(1.0, 1.0);
    assert Resample(a, [0, 0]) == [0.0, 0.0] && Resample(b, [0, 0]) == [1.0, 1.0];
    assert BootDeltas(a, b, indices) == [1.0];
    assert BootDeltas(b, a, indices) == [-1.0];
  }

  lemma TwoMeans(x: real, y: real)
    ensures Mean([x, y]) == (x + y) / 2.0
  {
    assert [x, y][..1] == [x] && [x][..0] == [];
    assert Sum([x]) == x;
  }

  // ---------------------------------------------------------------------------
  // Bounds and order of the interval
  // ---------------------------------------------------------------------------

  lemma {:induction false} SumsWithin(x: seq<real>, y: seq<real>, least: real, greatest: real)
    requires |x| == |y| && forall i :: 0 <= i < |x| ==> least <= y[i] - x[i] <= greatest
    ensures least * |x| as real <= Sum(y) - Sum(x) <= greatest * |x| as real
  {
    if x != [] {
      var n := |x| - 1;
      SumsWithin(x[..n], y[..n], least, greatest);
      assert least * |x| as real == least * n as real + least;
      assert greatest * |x| as real == greatest * n as real + greatest;
    }
  }

  lemma QuotientsWithin(x: real, y: real, n: real, least: real, greatest: real)
    requires n > 0.0 && least * n <= y - x <= greatest * n
    ensures least <= y / n - x / n <= greatest
  {
    var p, q := x / n, y / n;
    assert p * n == x && q * n == y;
    var d := q - p;
    assert d * n == q * n - p * n;
    assert (least - d) * n == least * n - d * n;
    assert (d - greatest) * n == d * n - greatest * n;
    ProductSign(least - d, n);
    ProductSign(d - greatest, n);
  }

  lemma MeansWithin(x: seq<real>, y: seq<real>, least: real, greatest: real)
    requires |x| == |y| > 0 && forall i :: 0 <= i < |x| ==> least <= y[i] - x[i] <= greatest
    ensures least <= Mean(y) - Mean(x) <= greatest
  {
    SumsWithin(x, y, least, greatest);
    QuotientsWithin(Sum(x), Sum(y), |x| as real, least, greatest);
  }

  lemma BootDeltasWithin(a: seq<real>, b: seq<real>, indices: seq<seq<nat>>, least: real, greatest: real)
    requires |a| == |b| > 0 && Matrix(indices, |a|)
    requires forall i :: 0 <= i < |a| ==> least <= b[i] - a[i] <= greatest
    ensures forall x :: x in BootDeltas(a, b, indices) ==> least <= x <= greatest
  {
    forall r | 0 <= r < |indices| ensures least <= BootDeltas(a, b, indices)[r] <= greatest {
      assert Row(indices[r], |a|);
      MeansWithin(Resample(a, indices[r]), Resample(b, indices[r]), least, greatest);
    }
  }

  lemma ShareInUnit(c: nat, n: nat)
    requires n > 0 && c <= n
    ensures 0.0 <= c as real / n as real <= 1.0
  {
    DivideMonotone(0.0, c as real, n as real);
    DivideMonotone(c as real, n as real, n as real);
  }

  lemma PValueInUnit(delta: real, boots: seq<real>)
    requires boots != []
    ensures 0.0 <= PValue(delta, boots) <= 1.0
  {
    ShareInUnit(Tally(boots, NonPositive), |boots|);
    ShareInUnit(Tally(boots, NonNegative), |boots|);
  }

  /** Difference and interval lie within any bounds on the per-query differences, the
      p-value in [0, 1]; the interval is ordered up to alpha = 1 and reversed beyond. */
  lemma IntervalWithinDifferences(a: seq<real>, b: seq<real>, indices: seq<seq<nat>>, alpha: real,
                                  least: real, greatest: real)
    requires |a| == |b| && Matrix(indices, |a|)
    requires forall i :: 0 <= i < |a| ==> least <= b[i] - a[i] <= greatest
    ensures var t := PairedBootstrapTest(a, b, indices, alpha);
            t.Ok? ==>
              && least <= t.value.delta <= greatest && t.value.delta == t.value.meanB - t.value.meanA
              && least <= t.value.lo <= greatest && least <= t.value.hi <= greatest
              && 0.0 <= t.value.pValue <= 1.0
              && (alpha <= 1.0 ==> t.value.lo <= t.value.hi) && (alpha >= 1.0 ==> t.value.hi <= t.value.lo)
  {
    var t := PairedBootstrapTest(a, b, indices, alpha);
    if t.Ok? {
      var boots := BootDeltas(a, b, indices);
      var lower, upper := alpha / 2.0, 1.0 - alpha / 2.0;
      assert |a| > 0 && boots != [] && 0.0 <= lower <= 1.0 && 0.0 <= upper <= 1.0;
      assert t.value.pValue == PValue(t.value.delta, boots) && t.value.delta == Mean(b) - Mean(a);
      assert t.value.meanA == Mean(a) && t.value.meanB == Mean(b);
      assert t.value.lo == Percentile(boots, lower) && t.value.hi == Percentile(boots, upper);
      hide PairedBootstrapTest, BootDeltas, Percentile, Mean, Matrix, PValue;
      MeansWithin(a, b, least, greatest);
      BootDeltasWithin(a, b, indices, least, greatest);
      PercentileWithin(boots, lower, least, greatest);
      PercentileWithin(boots, upper, least, greatest);
      if alpha <= 1.0 { PercentileMonotone(boots, lower, upper); }
      if alpha >= 1.0 { PercentileMonotone(boots, upper, lower); }
      PValueInUnit(t.value.delta, boots);
    }
  }

  // ---------------------------------------------------------------------------
  // Interval and p-value
  // ---------------------------------------------------------------------------

  lemma {:induction false} TallySnoc(s: seq<real>, x: real, p: real -> bool)
    ensures Tally(s + [x], p) == Tally(s, p) + (if p(x) then 1 else 0)
  {
    assert (s + [x])[..|s|] == s;
  }

  lemma {:induction false} TallyConcat(s: seq<real>, t: seq<real>, p: real -> bool)
    ensures Tally(s + t, p) == Tally(s, p) + Tally(t, p)
  {
    if t == [] {
      assert s + t == s;
    } else {
      var n := |t| - 1;
      TallyConcat(s, t[..n], p);
      TallySnoc(s + t[..n], t[n], p);
      assert s + t == s + t[..n] + [t[n]];
    }
  }

  lemma {:induction false} TallyPermutes(s: seq<real>, t: seq<real>, p: real -> bool)
    requires multiset(s) == multiset(t)
    ensures Tally(s, p) == Tally(t, p)
  {
    SamePermutationLength(s, t);
    if s != [] {
      var i := RemoveMatch(s, t);
      TallyPermutes(s[1..], t[..i] + t[i + 1..], p);
      TallyConcat([s[0]], s[1..], p);
      TallyConcat(t[..i], t[i + 1..], p);
      TallyConcat(t[..i] + [t[i]], t[i + 1..], p);
      TallySnoc(t[..i], t[i], p);
      TallySnoc([], s[0], p);
      assert s == [s[0]] + s[1..] && t == t[..i] + [t[i]] + t[i + 1..] && [] + [s[0]] == [s[0]];
    }
  }

  /** In an ascending list the non-positive values are the first ones. */
  lemma {:induction false} TallyAscending(s: seq<real>, i: nat)
    requires Ascending(s) && i < |s|
    ensures s[i] <= 0.0 <==> i < Tally(s, NonPositive)
  {
    var n := |s| - 1;
    if i < n {
      TallyAscending(s[..n], i);
    } else if n > 0 {
      TallyAscending(s[..n], n - 1);
    }
  }

  /** The value at position v of an ascending list with c non-positive ones: positive when
      c is at most v, and only if c is below v + 1. */
  lemma InterpolateAgainstTally(s: seq<real>, v: real)
    requires s != [] && Ascending(s) && 0.0 <= v <= (|s| - 1) as real
    ensures var c := Tally(s, NonPositive) as real;
            && (c <= v ==> Interpolate(s, v) > 0.0)
            && (Interpolate(s, v) > 0.0 ==> c < v + 1.0)
  {
    hide Tally;
    var c, f := Tally(s, NonPositive), v.Floor;
    InterpolateBetween(s, v);
    TallyAscending(s, f);
    if f + 1 < |s| {
      TallyAscending(s, f + 1);
    }
    if v == f as real {
      assert Interpolate(s, v) == s[f];
    }
  }

  /** The lower end against the number of resamples at or below zero, with v the position
      of the lower percentile: at most v of them keep it positive, and a positive one means
      fewer than v + 1. */
  lemma LowerEndAgainstTally(boots: seq<real>, q: real)
    requires boots != [] && 0.0 <= q <= 1.0
    ensures var c, v := Tally(boots, NonPositive) as real, Position(|boots|, q);
            && (c <= v ==> Percentile(boots, q) > 0.0)
            && (Percentile(boots, q) > 0.0 ==> c < v + 1.0)
  {
    hide Tally, Interpolate, Ascending, Position, SortAsc;
    SortAscCorrect(boots);
    TallyPermutes(boots, SortAsc(boots), NonPositive);
    InterpolateAgainstTally(SortAsc(boots), Position(|boots|, q));
  }

  /** One resample out of n weighs less than alpha. */
  predicate Resolves(n: nat, alpha: real) {
    alpha * n as real > 1.0
  }

  /** When B is ahead and alpha exceeds the share of one resample, an interval above zero
      is always reported as significant. */
  lemma IntervalAboveZeroIsSignificant(a: seq<real>, b: seq<real>, indices: seq<seq<nat>>, alpha: real)
    requires |a| == |b| && Matrix(indices, |a|)
    requires Resolves(|indices|, alpha)
    ensures var t := PairedBootstrapTest(a, b, indices, alpha);
            t.Ok? && t.value.delta >= 0.0 && t.value.lo > 0.0 ==> t.value.significant
  {
    var t := PairedBootstrapTest(a, b, indices, alpha);
    if t.Ok? && t.value.delta >= 0.0 && t.value.lo > 0.0 {
      hide BootDeltas, Percentile, Mean, Matrix, PValue, Resolves;
      PositiveEndIsSignificant(t.value.delta, BootDeltas(a, b, indices), alpha);
    }
  }

  lemma PositiveEndIsSignificant(delta: real, boots: seq<real>, alpha: real)
    requires boots != [] && 0.0 <= alpha <= 2.0 && Resolves(|boots|, alpha)
    requires delta >= 0.0 && Percentile(boots, alpha / 2.0) > 0.0
    ensures PValue(delta, boots) < alpha
  {
    hide Percentile, Tally, Resolves, Position;
    LowerEndAgainstTally(boots, alpha / 2.0);
    FewResamples(Tally(boots, NonPositive), |boots|, alpha);
  }

  lemma FewResamples(c: nat, n: nat, alpha: real)
    requires n > 0 && 0.0 <= alpha <= 2.0 && Resolves(n, alpha)
    requires c as real < Position(n, alpha / 2.0) + 1.0
    ensures c as real / n as real < alpha
  {
    var m := alpha * (n - 1) as real;
    assert alpha / 2.0 * (n - 1) as real == m / 2.0;
    assert alpha * n as real == m + alpha;
    var p := c as real / n as real;
    assert p * n as real == c as real;
    assert c as real < m + alpha by {
      if c >= 2 { assert c as real >= 2.0; }
    }
    assert (alpha - p) * n as real == alpha * n as real - p * n as real;
    ProductSign(alpha - p, n as real);
  }

  lemma CoarseDeltas()
    ensures BootDeltas([0.0, 0.0], [-1.0, 9.0], [[0, 0], [1, 1], [1, 1]]) == [-1.0, 9.0, 9.0]
  {
    hide Mean;
    TwoMeans(0.0, 0.0);
    TwoMeans(-1.0, -1.0);
    TwoMeans(9.0, 9.0);
    assert Resample([0.0, 0.0], [0, 0]) == [0.0, 0.0] && Resample([0.0, 0.0], [1, 1]) == [0.0, 0.0];
    assert Resample([-1.0, 9.0], [0, 0]) == [-1.0, -1.0] && Resample([-1.0, 9.0], [1, 1]) == [9.0, 9.0];
  }

  lemma CoarseQuantile(boots: seq<real>)
    requires boots == [-1.0, 9.0, 9.0]
    ensures Percentile(boots, 0.1) == 1.0
  {
    SortAscCorrect(boots);
    AscendingUnique(SortAsc(boots), boots);
    CoarseEnd(boots);
  }

  lemma CoarseEnd(boots: seq<real>)
    requires boots == [-1.0, 9.0, 9.0]
    ensures Interpolate(boots, Position(3, 0.1)) == 1.0
  {
    assert Position(3, 0.1) == 0.2;
  }

  lemma CoarseTally(boots: seq<real>)
    requires boots == [-1.0, 9.0, 9.0]
    ensures Tally(boots, NonPositive) == 1
  {
    assert [-1.0] == [] + [-1.0] && boots == [-1.0] + [9.0] + [9.0];
    TallySnoc([], -1.0, NonPositive);
    TallySnoc([-1.0], 9.0, NonPositive);
    TallySnoc([-1.0] + [9.0], 9.0, NonPositive);
  }

  /** With too few resamples the two disagree: the interval is above zero, the p-value is
      one third and nothing is significant. */
  lemma CoarseBootstrapDisagrees()
    ensures var a, b, indices := [0.0, 0.0], [-1.0, 9.0], [[0, 0], [1, 1], [1, 1]];
            var t := PairedBootstrapTest(a, b, indices, 0.2);
            t.Ok? && t.value.delta > 0.0 && t.value.lo > 0.0 && !t.value.significant
  {
    hide BootDeltas, Percentile, Tally, Mean;
    TwoMeans(0.0, 0.0);
    TwoMeans(-1.0, 9.0);
    CoarseDeltas();
    CoarseQuantile([-1.0, 9.0, 9.0]);
    CoarseTally([-1.0, 9.0, 9.0]);
  }

  /** Whether n resamples at level alpha always report an interval above zero, with B ahead,
      as significant. */
  ghost predicate AlwaysReported(n: nat, alpha: real) {
    forall a, b, indices :: |a| == |b| && Matrix(indices, |a|) && |indices| == n ==>
      Reported(PairedBootstrapTest(a, b, indices, alpha))
  }

  predicate Reported(t: Result<TestResult>) {
    t.Ok? && t.value.delta >= 0.0 && t.value.lo > 0.0 ==> t.value.significant
  }

  /** Where the test can be carried out, interval and p-value agree in this sense exactly
      for a positive alpha that exceeds the weight of one resample, or a single resample. */
  lemma IntervalAboveZeroReportedExactly(n: nat, alpha: real)
    requires n > 0 && 0.0 <= alpha <= 2.0
    ensures AlwaysReported(n, alpha) <==> alpha > 0.0 && (n == 1 || Resolves(n, alpha))
  {
    hide PairedBootstrapTest, Resolves, Matrix;
    if alpha == 0.0 {
      NothingIsSignificantAtZero(n);
    } else if n == 1 || Resolves(n, alpha) {
      forall a, b, indices | |a| == |b| && Matrix(indices, |a|) && |indices| == n
        ensures Reported(PairedBootstrapTest(a, b, indices, alpha))
      {
        if n == 1 {
          OneResampleReports(a, b, indices, alpha);
        } else {
          IntervalAboveZeroIsSignificant(a, b, indices, alpha);
        }
      }
    } else {
      OutlierIsNotReported(n, alpha);
    }
  }

  lemma NothingIsSignificantAtZero(n: nat)
    requires n > 0
    ensures !AlwaysReported(n, 0.0)
  {
    var a, b, indices := [0.0], [1.0], seq<seq<nat>>(n, _ => [0]);
    IntervalWithinDifferences(a, b, indices, 0.0, 1.0, 1.0);
    assert !Reported(PairedBootstrapTest(a, b, indices, 0.0)) by {
      hide BootDeltas, Percentile, Mean, PValue;
    }
  }

  lemma OneResampleReports(a: seq<real>, b: seq<real>, indices: seq<seq<nat>>, alpha: real)
    requires |a| == |b| && Matrix(indices, |a|) && |indices| == 1 && alpha > 0.0
    ensures Reported(PairedBootstrapTest(a, b, indices, alpha))
  {
    var t := PairedBootstrapTest(a, b, indices, alpha);
    if t.Ok? {
      var boots := BootDeltas(a, b, indices);
      hide BootDeltas, Percentile, Mean, Matrix, Tally;
      LowerEndAgainstTally(boots, alpha / 2.0);
      assert Position(1, alpha / 2.0) == 0.0;
    }
  }

  /** One resample below zero and n - 1 far above it. */
  lemma OutlierIsNotReported(n: nat, alpha: real)
    requires n >= 2 && 0.0 < alpha <= 2.0 && !Resolves(n, alpha)
    ensures !AlwaysReported(n, alpha)
  {
    hide Resolves;
    OutlierPosition(n, alpha);
    var x := FarAbove(Position(n, alpha / 2.0));
    var indices: seq<seq<nat>> := [[0, 0]] + seq<seq<nat>>(n - 1, _ => [1, 1]);
    OutlierDeltas(n, x, indices);
    OutlierTest(n, x, indices, alpha);
  }

  /** A value that lifts the interpolated end at position v above zero. */
  lemma FarAbove(v: real) returns (x: real)
    requires v > 0.0
    ensures x > 1.0 && -1.0 + v * (x + 1.0) > 0.0
  {
    var inverse := 1.0 / v;
    assert inverse * v == 1.0;
    ProductSign(inverse, v);
    x := inverse + 1.0;
    assert v * (x + 1.0) == v * inverse + 2.0 * v;
  }

  lemma OutlierTest(n: nat, x: real, indices: seq<seq<nat>>, alpha: real)
    requires n >= 2 && 0.0 < alpha <= 2.0 && !Resolves(n, alpha) && |indices| == n && Matrix(indices, 2)
    requires x > 1.0 && 0.0 < Position(n, alpha / 2.0) < 1.0
    requires -1.0 + Position(n, alpha / 2.0) * (x + 1.0) > 0.0
    requires BootDeltas([0.0, 0.0], [-1.0, x], indices) == [-1.0] + seq<real>(n - 1, _ => x)
    ensures !Reported(PairedBootstrapTest([0.0, 0.0], [-1.0, x], indices, alpha))
  {
    hide BootDeltas, Percentile, Mean, PValue, Position, Resolves, Matrix;
    var boots := [-1.0] + seq<real>(n - 1, _ => x);
    OutlierQuantile(boots, x, alpha / 2.0);
    TwoMeans(0.0, 0.0);
    TwoMeans(-1.0, x);
    OutlierPValue(boots, x, alpha, (x - 1.0) / 2.0);
  }

  lemma OutlierPosition(n: nat, alpha: real)
    requires n >= 2 && 0.0 < alpha <= 2.0 && !Resolves(n, alpha)
    ensures 0.0 < Position(n, alpha / 2.0) < 1.0
  {
    var m := (n - 1) as real;
    ProductSign(alpha / 2.0, m);
    Distribute(alpha, alpha, m);
    Distribute(m, 1.0, alpha);
    assert alpha * n as real <= 1.0;
    assert Position(n, alpha / 2.0) == alpha * m / 2.0;
    assert alpha * n as real == (m + 1.0) * alpha;
    assert m * alpha == alpha * m;
  }

  lemma OutlierDeltas(n: nat, x: real, indices: seq<seq<nat>>)
    requires n >= 2 && indices == [[0, 0]] + seq<seq<nat>>(n - 1, _ => [1, 1])
    ensures Matrix(indices, 2)
    ensures BootDeltas([0.0, 0.0], [-1.0, x], indices) == [-1.0] + seq<real>(n - 1, _ => x)
  {
    hide Mean;
    TwoMeans(0.0, 0.0);
    TwoMeans(-1.0, -1.0);
    TwoMeans(x, x);
    assert Resample([0.0, 0.0], [0, 0]) == [0.0, 0.0] && Resample([0.0, 0.0], [1, 1]) == [0.0, 0.0];
    assert Resample([-1.0, x], [0, 0]) == [-1.0, -1.0] && Resample([-1.0, x], [1, 1]) == [x, x];
  }

  lemma OutlierQuantile(boots: seq<real>, x: real, q: real)
    requires |boots| >= 2 && x > 0.0 && boots == [-1.0] + seq<real>(|boots| - 1, _ => x)
    requires 0.0 <= q <= 1.0 && 0.0 < Position(|boots|, q) < 1.0
    ensures Percentile(boots, q) == -1.0 + Position(|boots|, q) * (x + 1.0)
  {
    hide Position;
    SortAscCorrect(boots);
    AscendingUnique(SortAsc(boots), boots);
    assert Position(|boots|, q).Floor == 0;
  }

  lemma OutlierPValue(boots: seq<real>, x: real, alpha: real, delta: real)
    requires |boots| >= 2 && x > 0.0 && boots == [-1.0] + seq<real>(|boots| - 1, _ => x)
    requires !Resolves(|boots|, alpha) && delta >= 0.0
    ensures PValue(delta, boots) >= alpha
  {
    OutlierTally(boots, x);
    hide Tally;
    var n := |boots| as real;
    var p := 1.0 / n;
    assert p * n == 1.0;
    Distribute(alpha, p, n);
    assert alpha * |boots| as real <= 1.0;
    ProductSign(alpha - p, n);
    assert PValue(delta, boots) == p;
  }

  lemma OutlierTally(boots: seq<real>, x: real)
    requires |boots| >= 2 && x > 0.0 && boots == [-1.0] + seq<real>(|boots| - 1, _ => x)
    ensures Tally(boots, NonPositive) == 1
  {
    var rest := seq<real>(|boots| - 1, _ => x);
    TallyConcat([-1.0], rest, NonPositive);
    TallySnoc([], -1.0, NonPositive);
    assert [] + [-1.0] == [-1.0];
    NoneTallied(rest);
  }

  /** If B is better on every query, no resample speaks against it and the interval is
      above zero. */
  lemma UniformlyBetter(a: seq<real>, b: seq<real>, indices: seq<seq<nat>>, alpha: real, least: real, greatest: real)
    requires |a| == |b| && Matrix(indices, |a|)
    requires least > 0.0 && forall i :: 0 <= i < |a| ==> least <= b[i] - a[i] <= greatest
    ensures var t := PairedBootstrapTest(a, b, indices, alpha);
            t.Ok? ==> t.value.pValue == 0.0 && t.value.lo > 0.0 && (t.value.significant <==> alpha > 0.0)
  {
    var t := PairedBootstrapTest(a, b, indices, alpha);
    if t.Ok? {
      var boots := BootDeltas(a, b, indices);
      assert |a| > 0 && boots != [] && alpha >= 0.0;
      assert t.value.pValue == PValue(t.value.delta, boots) && (t.value.significant <==> t.value.pValue < alpha);
      hide PairedBootstrapTest, PValue, Percentile, BootDeltas, Mean, Matrix;
      IntervalWithinDifferences(a, b, indices, alpha, least, greatest);
      BootDeltasWithin(a, b, indices, least, greatest);
      AllPositive(t.value.delta, boots);
    }
  }

  lemma AllPositive(delta: real, s: seq<real>)
    requires delta > 0.0 && s != [] && forall x :: x in s ==> x > 0.0
    ensures PValue(delta, s) == 0.0
  {
    NoneTallied(s);
  }

  lemma {:induction false} NoneTallied(s: seq<real>)
    requires forall x :: x in s ==> x > 0.0
    ensures Tally(s, NonPositive) == 0
  {
    if s != [] {
      var n := |s| - 1;
      assert s[n] in s;
      assert forall x :: x in s[..n] ==> x in s;
      NoneTallied(s[..n]);
    }
  }

  // ---------------------------------------------------------------------------
  // Comparing two systems by query
  // ---------------------------------------------------------------------------

  type Scores = map<string, real>

  /** The generator's resample matrix for a seed and a number of queries. */
  ghost predicate Draws(draw: (int, nat) -> seq<seq<nat>>) {
    forall seed, n: nat :: n > 0 ==> Matrix(draw(seed, n), n)
  }

  /** `sorted` on a set: its members, each once, in an order the set alone decides. */
  ghost predicate Sorts(sorted: set<string> -> seq<string>) {
    forall ids :: SortedList(sorted(ids), ids)
  }

  ghost predicate SortedList(list: seq<string>, ids: set<string>) {
    Distinct(list) && |list| == |ids| && forall id :: id in list <==> id in ids
  }

  function Shared(a: Scores, b: Scores): set<string> { a.Keys * b.Keys }

  function Column(scores: Scores, queries: seq<string>): (column: seq<real>)
    requires forall q :: q in queries ==> q in scores
    ensures |column| == |queries|
  {
    seq(|queries|, i requires 0 <= i < |queries| => scores[queries[i]])
  }

  function CompareSystems(a: Scores, b: Scores, sorted: set<string> -> seq<string>,
                          draw: (int, nat) -> seq<seq<nat>>, seed: int, alpha: real): Result<TestResult>
    requires Sorts(sorted) && Draws(draw)
  {
    var queries := sorted(Shared(a, b));
    assert SortedList(queries, Shared(a, b));
    if queries == [] then Err("No common queries")
    else PairedBootstrapTest(Column(a, queries), Column(b, queries), draw(seed, |queries|), alpha)
  }

  /** Queries only one system answered do not matter, and the comparison fails exactly when
      no query is shared, no resample drawn or alpha out of range. */
  lemma SharedQueriesDecide(a: Scores, b: Scores, sorted: set<string> -> seq<string>,
                            draw: (int, nat) -> seq<seq<nat>>, seed: int, alpha: real)
    requires Sorts(sorted) && Draws(draw)
    ensures var r := CompareSystems(a, b, sorted, draw, seed, alpha);
            && r == CompareSystems(map q | q in a && q in b :: a[q], map q | q in a && q in b :: b[q],
                                   sorted, draw, seed, alpha)
            && (r.Ok? <==> Shared(a, b) != {} && draw(seed, |Shared(a, b)|) != [] && 0.0 <= alpha <= 2.0)
            && (r == Err(NO_RESAMPLES) <==>
                  Shared(a, b) != {} && draw(seed, |Shared(a, b)|) == [] && 0.0 <= alpha <= 2.0)
  {
    var sharedA, sharedB := map q | q in a && q in b :: a[q], map q | q in a && q in b :: b[q];
    assert Shared(sharedA, sharedB) == Shared(a, b);
    var queries := sorted(Shared(a, b));
    assert SortedList(queries, Shared(a, b));
    assert Column(a, queries) == Column(sharedA, queries) && Column(b, queries) == Column(sharedB, queries);
    if Shared(a, b) != {} {
      var q :| q in Shared(a, b);
      assert q in queries;
    }
  }

  /** A system against itself: no difference, a degenerate interval and p-value one. */
  lemma SelfComparison(a: Scores, sorted: set<string> -> seq<string>, draw: (int, nat) -> seq<seq<nat>>,
                       seed: int, alpha: real)
    requires Sorts(sorted) && Draws(draw)
    ensures var r := CompareSystems(a, a, sorted, draw, seed, alpha);
            r.Ok? ==> r.value.delta == 0.0 && r.value.lo == 0.0 && r.value.hi == 0.0 && r.value.pValue == 1.0
  {
    var r := CompareSystems(a, a, sorted, draw, seed, alpha);
    if r.Ok? {
      var queries := sorted(Shared(a, a));
      assert SortedList(queries, Shared(a, a));
      var column, indices := Column(a, queries), draw(seed, |queries|);
      hide Column, PairedBootstrapTest;
      assert Matrix(indices, |queries|);
      EqualScores(column, indices, alpha);
    }
  }

  lemma EqualScores(a: seq<real>, indices: seq<seq<nat>>, alpha: real)
    requires Matrix(indices, |a|)
    ensures var t := PairedBootstrapTest(a, a, indices, alpha);
            t.Ok? ==> t.value.delta == 0.0 && t.value.lo == 0.0 && t.value.hi == 0.0 && t.value.pValue == 1.0
  {
    hide Percentile, BootDeltas, Mean, Matrix, PValue;
    IntervalWithinDifferences(a, a, indices, alpha, 0.0, 0.0);
    if PairedBootstrapTest(a, a, indices, alpha).Ok? {
      BootDeltasWithin(a, a, indices, 0.0, 0.0);
      PValueWithoutDifference(BootDeltas(a, a, indices));
    }
  }

  lemma PValueWithoutDifference(boots: seq<real>)
    requires boots != [] && forall x :: x in boots ==> x <= 0.0
    ensures PValue(0.0, boots) == 1.0
  {
    AllTallied(boots);
    hide Tally;
    RatioFacts(|boots| as real, |boots| as real);
  }

  lemma {:induction false} AllTallied(s: seq<real>)
    requires forall x :: x in s ==> x <= 0.0
    ensures Tally(s, NonPositive) == |s|
  {
    if s != [] {
      var n := |s| - 1;
      assert s[n] in s;
      assert forall x :: x in s[..n] ==> x in s;
      AllTallied(s[..n]);
    }
  }

  /** The comparison goes from a to b: its difference and interval lie within any bounds on
      b's advantage over the shared queries. */
  lemma ComparisonWithinDifferences(a: Scores, b: Scores, sorted: set<string> -> seq<string>,
                                    draw: (int, nat) -> seq<seq<nat>>, seed: int, alpha: real,
                                    least: real, greatest: real)
    requires Sorts(sorted) && Draws(draw)
    requires forall q :: q in a && q in b ==> least <= b[q] - a[q] <= greatest
    ensures var r := CompareSystems(a, b, sorted, draw, seed, alpha);
            r.Ok? ==> least <= r.value.delta <= greatest
                      && least <= r.value.lo <= greatest && least <= r.value.hi <= greatest
  {
    var queries := sorted(Shared(a, b));
    assert SortedList(queries, Shared(a, b));
    if queries != [] {
      var columnA, columnB, indices := Column(a, queries), Column(b, queries), draw(seed, |queries|);
      assert Matrix(indices, |queries|);
      hide PairedBootstrapTest, Matrix;
      forall i | 0 <= i < |queries| ensures least <= columnB[i] - columnA[i] <= greatest {
        assert queries[i] in queries;
      }
      IntervalWithinDifferences(columnA, columnB, indices, alpha, least, greatest);
    }
  }

  // ---------------------------------------------------------------------------
  // All pairs of systems
  // ---------------------------------------------------------------------------

  datatype Comparison = Comparison(a: string, b: string, result: TestResult)

  function AbsDelta(c: Comparison): real {
    if c.result.delta < 0.0 then -c.result.delta else c.result.delta
  }

  function PairsOf(i: nat, count: nat): (pairs: seq<(nat, nat)>)
    ensures |pairs| == count
  {
    seq(count, m requires 0 <= m < count => (i, i + 1 + m))
  }

  /** itertools.combinations of n names from the i-th on, in its order. */
  function PairsFrom(i: nat, n: nat): seq<(nat, nat)>
    requires i <= n
    decreases n - i
  {
    if i == n then [] else PairsOf(i, n - 1 - i) + PairsFrom(i + 1, n)
  }

  /** The systems by name with the inputs of every comparison. */
  datatype Study = Study(names: seq<string>, systems: map<string, Scores>, sorted: set<string> -> seq<string>,
                         draw: (int, nat) -> seq<seq<nat>>, seed: int, alpha: real)

  ghost predicate WellFormed(s: Study) {
    Sorts(s.sorted) && Draws(s.draw) && forall name :: name in s.names ==> name in s.systems
  }

  ghost predicate PairsOfNames(s: Study, pairs: seq<(nat, nat)>) {
    forall m :: 0 <= m < |pairs| ==> pairs[m].0 < |s.names| && pairs[m].1 < |s.names|
  }

  /** Pair number m, compared with its own seed. */
  function ComparePair(s: Study, pair: (nat, nat), m: nat): (r: Result<Comparison>)
    requires WellFormed(s) && pair.0 < |s.names| && pair.1 < |s.names|
    ensures r.Ok? ==> r.value.a == s.names[pair.0] && r.value.b == s.names[pair.1]
  {
    var a, b := s.names[pair.0], s.names[pair.1];
    match CompareSystems(s.systems[a], s.systems[b], s.sorted, s.draw, s.seed + m, s.alpha)
    case Ok(result) => Ok(Comparison(a, b, result))
    case Err(error) => Err(error)
  }

  /** What pair number m adds to the results: nothing when the two share no query or alpha is
      out of range. */
  function Attempted(s: Study, pair: (nat, nat), m: nat): (cs: seq<Comparison>)
    requires WellFormed(s) && pair.0 < |s.names| && pair.1 < |s.names|
    ensures |cs| <= 1
    ensures forall c :: c in cs ==> c.a == s.names[pair.0] && c.b == s.names[pair.1]
  {
    var r := ComparePair(s, pair, m);
    if r.Ok? then [r.value] else []
  }

  function Compared(s: Study, pairs: seq<(nat, nat)>): seq<Comparison>
    requires WellFormed(s) && PairsOfNames(s, pairs)
  {
    if pairs == [] then []
    else
      var m := |pairs| - 1;
      Compared(s, pairs[..m]) + Attempted(s, pairs[m], m)
  }

  lemma {:induction false} PairsFromExactly(i: nat, n: nat, pair: (nat, nat))
    requires i <= n
    ensures pair in PairsFrom(i, n) <==> i <= pair.0 < pair.1 < n
    decreases n - i
  {
    if i < n {
      PairsFromExactly(i + 1, n, pair);
      var first, rest := PairsOf(i, n - 1 - i), PairsFrom(i + 1, n);
      if i == pair.0 < pair.1 < n { assert first[pair.1 - i - 1] == pair; }
      assert pair in first + rest <==> pair in first || pair in rest;
    }
  }

  lemma {:induction false} PairsFromDistinct(i: nat, n: nat)
    requires i <= n
    ensures Distinct(PairsFrom(i, n))
    decreases n - i
  {
    if i < n {
      PairsFromDistinct(i + 1, n);
      var first, rest := PairsOf(i, n - 1 - i), PairsFrom(i + 1, n);
      forall y | 0 <= y < |rest| ensures rest[y].0 > i { PairsFromExactly(i + 1, n, rest[y]); }
      hide PairsFrom;
      DistinctConcat(first, rest, i);
    }
  }

  lemma DistinctConcat(first: seq<(nat, nat)>, rest: seq<(nat, nat)>, i: nat)
    requires Distinct(first) && Distinct(rest)
    requires (forall x :: 0 <= x < |first| ==> first[x].0 == i) && forall y :: 0 <= y < |rest| ==> rest[y].0 > i
    ensures Distinct(first + rest)
  {
  }

  lemma PairsAreOfNames(s: Study)
    ensures PairsOfNames(s, PairsFrom(0, |s.names|))
  {
    var pairs := PairsFrom(0, |s.names|);
    forall m | 0 <= m < |pairs| ensures pairs[m].0 < |s.names| && pairs[m].1 < |s.names| {
      PairsFromExactly(0, |s.names|, pairs[m]);
    }
  }

  function Report(s: Study): seq<Comparison>
    requires WellFormed(s)
  {
    PairsAreOfNames(s);
    SortDesc(Compared(s, PairsFrom(0, |s.names|)), AbsDelta)
  }

  /** Pair number m fails with an error the loop does not catch. */
  ghost predicate Escapes(s: Study, pairs: seq<(nat, nat)>, m: nat)
    requires WellFormed(s) && PairsOfNames(s, pairs) && m < |pairs|
  {
    ComparePair(s, pairs[m], m) == Err(NO_RESAMPLES)
  }

  /** Every pair of systems in one loop, each with the next seed, sorted by descending
      effect. A ValueError skips its pair, any other error ends the call. */
  method CompareAllSystems(s: Study) returns (r: Result<seq<Comparison>>)
    requires WellFormed(s)
    ensures PairsOfNames(s, PairsFrom(0, |s.names|))
    ensures r.Err? <==> exists m :: 0 <= m < |PairsFrom(0, |s.names|)| && Escapes(s, PairsFrom(0, |s.names|), m)
    ensures r.Ok? ==> r.value == Report(s)
  {
    hide ComparePair, PairsFrom, WellFormed;
    var pairs := PairsFrom(0, |s.names|);
    PairsAreOfNames(s);
    if |s.names| < 2 {
      FewSystems(|s.names|);
      return Ok([]);
    }
    var results: seq<Comparison> := [];
    for m := 0 to |pairs|
      invariant results == Compared(s, pairs[..m])
      invariant forall i :: 0 <= i < m ==> !Escapes(s, pairs, i)
    {
      var c := ComparePair(s, pairs[m], m);
      if c == Err(NO_RESAMPLES) {
        assert Escapes(s, pairs, m);
        return Err(NO_RESAMPLES);
      }
      if c.Ok? {
        results := results + [c.value];
      }
      assert pairs[..m + 1][..m] == pairs[..m];
    }
    assert pairs[..|pairs|] == pairs;
    return Ok(SortDesc(results, AbsDelta));
  }

  lemma FewSystems(n: nat)
    requires n < 2
    ensures PairsFrom(0, n) == []
  {
    if n == 1 { assert PairsFrom(1, 1) == []; }
  }

  lemma {:induction false} AttemptedIsCompared(s: Study, pairs: seq<(nat, nat)>, m: nat, c: Comparison)
    requires WellFormed(s) && PairsOfNames(s, pairs) && m < |pairs|
    requires Attempted(s, pairs[m], m) == [c]
    ensures c in Compared(s, pairs)
  {
    hide Attempted, WellFormed;
    var n := |pairs| - 1;
    if m < n {
      AttemptedIsCompared(s, pairs[..n], m, c);
    }
  }

  lemma {:induction false} ComparedIsAttempted(s: Study, pairs: seq<(nat, nat)>, c: Comparison) returns (m: nat)
    requires WellFormed(s) && PairsOfNames(s, pairs) && c in Compared(s, pairs)
    ensures m < |pairs| && Attempted(s, pairs[m], m) == [c]
  {
    hide Attempted, WellFormed;
    var n := |pairs| - 1;
    if c in Attempted(s, pairs[n], n) {
      m := n;
    } else {
      m := ComparedIsAttempted(s, pairs[..n], c);
    }
  }

  /** No pair of names is reported twice. */
  lemma {:induction false} ComparedOnce(s: Study, pairs: seq<(nat, nat)>, x: nat, y: nat)
    requires WellFormed(s) && PairsOfNames(s, pairs) && Distinct(s.names) && Distinct(pairs)
    requires x < y < |Compared(s, pairs)|
    ensures Compared(s, pairs)[x].a != Compared(s, pairs)[y].a || Compared(s, pairs)[x].b != Compared(s, pairs)[y].b
  {
    hide Attempted, WellFormed;
    var n := |pairs| - 1;
    var before := Compared(s, pairs[..n]);
    if y < |before| {
      ComparedOnce(s, pairs[..n], x, y);
    } else {
      var m := ComparedIsAttempted(s, pairs[..n], before[x]);
      assert before[x] in Attempted(s, pairs[m], m);
      assert Compared(s, pairs)[y] in Attempted(s, pairs[n], n);
      assert pairs[m] != pairs[n];
    }
  }

  /** The report: largest effect first, and exactly one comparison for every pair of
      systems that can be compared. */
  lemma EveryPairIsReportedOnce(s: Study)
    requires WellFormed(s) && Distinct(s.names)
    ensures var pairs := PairsFrom(0, |s.names|);
            && (forall pair: (nat, nat) :: pair in pairs <==> pair.0 < pair.1 < |s.names|)
            && Distinct(pairs) && PairsOfNames(s, pairs)
            && Descending(Report(s), AbsDelta) && multiset(Report(s)) == multiset(Compared(s, pairs))
            && (forall c :: c in Compared(s, pairs) <==>
                  exists m :: 0 <= m < |pairs| && Attempted(s, pairs[m], m) == [c])
            && (forall x, y :: 0 <= x < y < |Compared(s, pairs)| ==>
                  Compared(s, pairs)[x].a != Compared(s, pairs)[y].a || Compared(s, pairs)[x].b != Compared(s, pairs)[y].b)
  {
    hide PairsFrom, Compared, Attempted, WellFormed;
    var pairs := PairsFrom(0, |s.names|);
    PairsAreOfNames(s);
    forall pair: (nat, nat) ensures pair in pairs <==> pair.0 < pair.1 < |s.names| {
      PairsFromExactly(0, |s.names|, pair);
    }
    PairsFromDistinct(0, |s.names|);
    var cs := Compared(s, pairs);
    SortDescCorrect(cs, AbsDelta);
    forall c ensures c in cs <==> exists m :: 0 <= m < |pairs| && Attempted(s, pairs[m], m) == [c] {
      if c in cs { var m := ComparedIsAttempted(s, pairs, c); }
      if m :| 0 <= m < |pairs| && Attempted(s, pairs[m], m) == [c] { AttemptedIsCompared(s, pairs, m, c); }
    }
    forall x, y | 0 <= x < y < |cs| ensures cs[x].a != cs[y].a || cs[x].b != cs[y].b {
      ComparedOnce(s, pairs, x, y);
    }
  }
}
