/** Ranking metrics: DCG, NDCG, average precision, reciprocal rank, recall and
    precision, over exact reals. The logarithmic discount 1/log2(i+2) is any
    positive strictly decreasing weight sequence. */
module Metrics {
  import opened Sequences
  import opened RealFacts

  ghost predicate Discounting(d: nat -> real) {
    && (forall i: nat :: d(i) > 0.0)
    && (forall i: nat, j: nat :: i < j ==> d(i) > d(j))
  }

  function Grade(rel: int): real { rel as real }

  /** The labels in the best possible order. */
  function Ideal(rels: seq<int>): seq<int> { SortDesc(rels, Grade) }

  function Term(rel: int, weight: real): real { rel as real * weight }

  /** Sum of rels[i] * d(i) over the first n positions. */
  function Gain(d: nat -> real, rels: seq<int>, n: nat): real
    requires n <= |rels|
  {
    if n == 0 then 0.0 else Gain(d, rels, n - 1) + Term(rels[n - 1], d(n - 1))
  }

  function DcgAtK(d: nat -> real, rels: seq<int>, k: int): real {
    if k <= 0 then 0.0 else Gain(d, rels, PrefixLength(|rels|, k))
  }

  function IdealDcgAtK(d: nat -> real, rels: seq<int>, k: int): real {
    DcgAtK(d, Ideal(rels), k)
  }

  function NdcgAtK(d: nat -> real, rels: seq<int>, k: int): real {
    if k <= 0 then 0.0
    else
      var ideal := IdealDcgAtK(d, rels, k);
      if ideal == 0.0 then 0.0
      else
        var ratio := DcgAtK(d, rels, k) / ideal;
        if ratio < 1.0 then ratio else 1.0
  }

  /** Number of relevant labels among the first n. */
  function Hits(rels: seq<int>, n: nat): (h: nat)
    requires n <= |rels|
    ensures h <= n
  {
    if n == 0 then 0 else Hits(rels, n - 1) + (if rels[n - 1] > 0 then 1 else 0)
  }

  function RecallAtK(rels: seq<int>, totalRelevant: int, k: int): real {
    if totalRelevant <= 0 || k <= 0 then 0.0
    else Hits(rels, PrefixLength(|rels|, k)) as real / totalRelevant as real
  }

  function PrecisionAtK(rels: seq<int>, k: int): real {
    if k <= 0 then 0.0 else Hits(rels, PrefixLength(|rels|, k)) as real / k as real
  }

  /** Position of the first relevant label; the length of the list when there is none. */
  function FirstHit(rels: seq<int>): (p: nat)
    ensures p <= |rels| && (forall j :: 0 <= j < p ==> rels[j] <= 0)
    ensures p < |rels| ==> rels[p] > 0
  {
    if rels == [] || rels[0] > 0 then 0 else 1 + FirstHit(rels[1..])
  }

  function ReciprocalRank(rels: seq<int>): real {
    if FirstHit(rels) == |rels| then 0.0 else 1.0 / (FirstHit(rels) + 1) as real
  }

  /** Sum of precision@(i+1) over the relevant positions i < n. */
  function PrecisionSum(rels: seq<int>, n: nat): real
    requires n <= |rels|
  {
    if n == 0 then 0.0
    else PrecisionSum(rels, n - 1) + (if rels[n - 1] > 0 then PrecisionAtK(rels, n) else 0.0)
  }

  /** Average precision: the mean of precision@rank over the ranks of the hits. */
  function AveragePrecision(rels: seq<int>): real {
    var hits := Hits(rels, |rels|);
    if hits == 0 then 0.0 else PrecisionSum(rels, |rels|) / hits as real
  }

  function SumOf(xs: seq<real>): real {
    if xs == [] then 0.0 else SumOf(xs[..|xs| - 1]) + xs[|xs| - 1]
  }

  lemma {:induction false} HitsOfBinary(rels: seq<int>, binary: seq<int>, n: nat)
    requires n <= |rels| == |binary|
    requires forall i :: 0 <= i < |rels| ==> binary[i] == if rels[i] > 0 then 1 else 0
    ensures Hits(binary, n) == Hits(rels, n)
  {
    if n > 0 { HitsOfBinary(rels, binary, n - 1); }
  }

  /** The loop with its running hit count computes the mean of precision@rank. */
  method ComputeAveragePrecision(rels: seq<int>) returns (ap: real)
    ensures ap == AveragePrecision(rels)
  {
    var relArray := seq(|rels|, i requires 0 <= i < |rels| => if rels[i] > 0 then 1 else 0);
    HitsOfBinary(rels, relArray, |rels|);
    if Hits(relArray, |relArray|) == 0 {
      return 0.0;
    }
    var precisions: seq<real> := [];
    var runningHits := 0.0;
    for i := 0 to |relArray|
      invariant runningHits == Hits(rels, i) as real
      invariant |precisions| == Hits(rels, i)
      invariant SumOf(precisions) == PrecisionSum(rels, i)
    {
      if relArray[i] > 0 {
        runningHits := runningHits + 1.0;
        var p := runningHits / (i + 1) as real;
        assert p == PrecisionAtK(rels, i + 1);
        assert (precisions + [p])[..|precisions|] == precisions;
        precisions := precisions + [p];
      }
    }
    ap := if precisions == [] then 0.0 else SumOf(precisions) / |precisions| as real;
  }

  method ComputeReciprocalRank(rels: seq<int>) returns (rr: real)
    ensures rr == ReciprocalRank(rels)
  {
    for i := 0 to |rels|
      invariant forall j :: 0 <= j < i ==> rels[j] <= 0
    {
      if rels[i] > 0 {
        return 1.0 / (i + 1) as real;
      }
    }
    return 0.0;
  }

  // ---------------------------------------------------------------------------
  // The truncated rearrangement inequality behind NDCG
  // ---------------------------------------------------------------------------

  /** Sum of the first n labels. */
  function Total(rels: seq<int>, n: nat): int
    requires n <= |rels|
  {
    if n == 0 then 0 else Total(rels, n - 1) + rels[n - 1]
  }

  lemma {:induction false} TotalCons(x: int, s: seq<int>, n: nat)
    requires n <= |s|
    ensures Total([x] + s, n + 1) == x + Total(s, n)
  {
    if n > 0 { TotalCons(x, s, n - 1); }
  }

  /** Inserting x keeps up with putting x in front. */
  lemma {:induction false} InsertDominates(x: int, s: seq<int>, n: nat)
    requires n <= |s| && |Insert(x, s, Grade)| == |s| + 1
    requires Descending(s, Grade)
    ensures Total(Insert(x, s, Grade), n + 1) >= x + Total(s, n)
  {
    if s == [] || Grade(x) >= Grade(s[0]) {
      TotalCons(x, s, n);
    } else {
      assert s == [s[0]] + s[1..];
      TotalCons(s[0], Insert(x, s[1..], Grade), n);
      if n > 0 {
        InsertDominates(x, s[1..], n - 1);
        TotalCons(s[0], s[1..], n - 1);
      }
    }
  }

  lemma IdealStep(rels: seq<int>)
    requires rels != []
    ensures Ideal(rels) == Insert(rels[0], Ideal(rels[1..]), Grade)
    ensures Descending(Ideal(rels[1..]), Grade) && |Ideal(rels[1..])| == |rels| - 1
  {
    SortDescCorrect(rels[1..], Grade);
  }

  /** No order of the labels has a larger prefix sum than the ideal order. */
  lemma {:induction false} IdealDominates(rels: seq<int>, n: nat)
    requires n <= |rels| == |Ideal(rels)|
    ensures Total(rels, n) <= Total(Ideal(rels), n)
  {
    if n > 0 {
      var rest := rels[1..];
      IdealStep(rels);
      hide Ideal, Insert, Total;
      IdealDominates(rest, n - 1);
      InsertDominates(rels[0], Ideal(rest), n - 1);
      assert rels == [rels[0]] + rest;
      TotalCons(rels[0], rest, n - 1);
    }
  }

  ghost predicate Dominates(s: seq<int>, r: seq<int>) {
    |s| == |r| && forall n :: 0 <= n <= |r| ==> Total(r, n) <= Total(s, n)
  }

  lemma IdealDominatesAll(rels: seq<int>)
    ensures Dominates(Ideal(rels), rels)
  {
    SortDescCorrect(rels, Grade);
    forall n | 0 <= n <= |rels| ensures Total(rels, n) <= Total(Ideal(rels), n) {
      IdealDominates(rels, n);
    }
  }

  lemma ScaleDown(p: int, w: real, v: real)
    requires p >= 0 && w >= v
    ensures Term(p, w) >= Term(p, v)
    ensures v == 0.0 ==> Term(p, v) == 0.0
  {
  }

  lemma TermSum(p: int, x: int, y: int, w: real)
    ensures Term(p, w) + Term(x, w) - Term(y, w) == Term(p + x - y, w)
    ensures Term(x, w) - Term(y, w) == Term(x - y, w)
  {
    assert (p + x - y) as real == p as real + x as real - y as real;
    assert (x - y) as real == x as real - y as real;
  }

  /** Abel summation: the discounted surplus is at least the last weight times the
      undiscounted surplus. */
  lemma {:induction false} AbelBound(d: nat -> real, s: seq<int>, r: seq<int>, n: nat)
    requires Discounting(d) && Dominates(s, r) && 1 <= n <= |r|
    ensures Gain(d, s, n) - Gain(d, r, n) >= Term(Total(s, n) - Total(r, n), d(n - 1))
  {
    hide Term;
    var before := Total(s, n - 1) - Total(r, n - 1);
    TermSum(before, s[n - 1], r[n - 1], d(n - 1));
    if n > 1 {
      AbelBound(d, s, r, n - 1);
      ScaleDown(before, d(n - 2), d(n - 1));
    }
  }

  lemma ZeroFactor(p: int, w: real)
    requires p >= 0 && w > 0.0 && Term(p, w) <= 0.0
    ensures p == 0
  {
    ProductSign(p as real, w);
  }

  lemma TermDifference(p: int, w: real, v: real)
    ensures Term(p, w) - Term(p, v) == Term(p, w - v)
  {
  }

  /** Equal discounted sums leave no room for a different label. */
  lemma {:induction false} AbelEquality(d: nat -> real, s: seq<int>, r: seq<int>, n: nat)
    requires Discounting(d) && Dominates(s, r) && n <= |r|
    requires Gain(d, s, n) == Gain(d, r, n)
    ensures Total(s, n) == Total(r, n) && s[..n] == r[..n]
  {
    if n > 0 {
      hide Term;
      AbelBound(d, s, r, n);
      ZeroFactor(Total(s, n) - Total(r, n), d(n - 1));
      if n > 1 {
        AbelBound(d, s, r, n - 1);
        var before := Total(s, n - 1) - Total(r, n - 1);
        TermSum(0, s[n - 1], r[n - 1], d(n - 1));
        TermSum(before, s[n - 1], r[n - 1], d(n - 1));
        TermZero(d(n - 1));
        TermDifference(before, d(n - 2), d(n - 1));
        ZeroFactor(before, d(n - 2) - d(n - 1));
      }
      AbelEquality(d, s, r, n - 1);
      assert s[..n] == s[..n - 1] + [s[n - 1]];
      assert r[..n] == r[..n - 1] + [r[n - 1]];
    }
  }

  lemma TermZero(w: real)
    ensures Term(0, w) == 0.0
  {
  }

  lemma {:induction false} GainOfSamePrefix(d: nat -> real, s: seq<int>, r: seq<int>, n: nat)
    requires n <= |r| == |s| && s[..n] == r[..n]
    ensures Gain(d, s, n) == Gain(d, r, n)
  {
    if n > 0 {
      assert s[..n][n - 1] == r[..n][n - 1];
      assert s[..n - 1] == s[..n][..n - 1] == r[..n - 1];
      GainOfSamePrefix(d, s, r, n - 1);
    }
  }

  /** DCG@k never exceeds the DCG@k of the ideal order, and it reaches it exactly
      when the ranking already starts like the ideal order. No sign condition on
      the grades is needed. */
  lemma DcgAtMostIdeal(d: nat -> real, rels: seq<int>, k: int)
    requires Discounting(d)
    ensures DcgAtK(d, rels, k) <= IdealDcgAtK(d, rels, k)
    ensures k > 0 ==>
              (DcgAtK(d, rels, k) == IdealDcgAtK(d, rels, k)
               <==> Prefix(rels, k) == Prefix(Ideal(rels), k))
  {
    IdealDominatesAll(rels);
    var n := PrefixLength(|rels|, k);
    if k > 0 && n > 0 {
      AbelBound(d, Ideal(rels), rels, n);
      ScaleDown(Total(Ideal(rels), n) - Total(rels, n), d(n - 1), 0.0);
      if Gain(d, Ideal(rels), n) == Gain(d, rels, n) {
        AbelEquality(d, Ideal(rels), rels, n);
      }
      if rels[..n] == Ideal(rels)[..n] {
        GainOfSamePrefix(d, Ideal(rels), rels, n);
      }
    }
  }

  /** NDCG@k is 1 exactly for a ranking that starts like the ideal order, or when
      only negative grades fill the ideal prefix. */
  lemma NdcgIsOneExactly(d: nat -> real, rels: seq<int>, k: int)
    requires Discounting(d)
    ensures NdcgAtK(d, rels, k) <= 1.0
    ensures NdcgAtK(d, rels, k) == 1.0 <==>
              k > 0 && (IdealDcgAtK(d, rels, k) < 0.0
                        || (IdealDcgAtK(d, rels, k) > 0.0 && Prefix(rels, k) == Prefix(Ideal(rels), k)))
  {
    DcgAtMostIdeal(d, rels, k);
    if k > 0 && IdealDcgAtK(d, rels, k) != 0.0 {
      RatioFacts(DcgAtK(d, rels, k), IdealDcgAtK(d, rels, k));
    }
  }

  /** The clamp `min(ratio, 1.0)` changes a value exactly when the ideal DCG is
      negative and the ranking does not start like the ideal order. */
  lemma ClampActsExactly(d: nat -> real, rels: seq<int>, k: int)
    requires Discounting(d) && k > 0 && IdealDcgAtK(d, rels, k) != 0.0
    ensures NdcgAtK(d, rels, k) != DcgAtK(d, rels, k) / IdealDcgAtK(d, rels, k) <==>
              IdealDcgAtK(d, rels, k) < 0.0 && Prefix(rels, k) != Prefix(Ideal(rels), k)
  {
    DcgAtMostIdeal(d, rels, k);
    RatioFacts(DcgAtK(d, rels, k), IdealDcgAtK(d, rels, k));
  }

  /** Two negative grades in the wrong order: the ratio 2 is reported as a perfect 1. */
  lemma ClampHidesNegativeGrades(d: nat -> real)
    requires Discounting(d)
    ensures IdealDcgAtK(d, [-2, -1], 1) < 0.0
    ensures DcgAtK(d, [-2, -1], 1) / IdealDcgAtK(d, [-2, -1], 1) == 2.0 && NdcgAtK(d, [-2, -1], 1) == 1.0
  {
    var rels := [-2, -1];
    assert SortDesc(rels[1..], Grade) == [-1];
    assert Ideal(rels) == Insert(-2, [-1], Grade) == [-1, -2];
    assert Gain(d, rels, 1) == Term(-2, d(0)) && Gain(d, Ideal(rels), 1) == Term(-1, d(0));
    var ideal := -d(0);
    assert Gain(d, rels, 1) == 2.0 * ideal && Gain(d, Ideal(rels), 1) == ideal;
  }

  ghost predicate NonNegative(rels: seq<int>) {
    forall i :: 0 <= i < |rels| ==> rels[i] >= 0
  }

  lemma {:induction false} GainNonNegative(d: nat -> real, rels: seq<int>, n: nat)
    requires Discounting(d) && NonNegative(rels) && n <= |rels|
    ensures Gain(d, rels, n) >= 0.0
  {
    if n > 0 {
      GainNonNegative(d, rels, n - 1);
      ScaleDown(rels[n - 1], d(n - 1), 0.0);
    }
  }

  lemma IdealNonNegative(rels: seq<int>)
    requires NonNegative(rels)
    ensures NonNegative(Ideal(rels)) && |Ideal(rels)| == |rels|
  {
    SortDescCorrect(rels, Grade);
    forall i | 0 <= i < |Ideal(rels)| ensures Ideal(rels)[i] >= 0 {
      InSorted(rels, Grade, Ideal(rels)[i]);
    }
  }

  /** With the documented non-negative grades NDCG@k is in [0,1] and is the exact
      ratio: the clamp is idle. */
  lemma NdcgInUnitInterval(d: nat -> real, rels: seq<int>, k: int)
    requires Discounting(d) && NonNegative(rels)
    ensures 0.0 <= NdcgAtK(d, rels, k) <= 1.0
    ensures k > 0 && IdealDcgAtK(d, rels, k) != 0.0 ==>
              NdcgAtK(d, rels, k) == DcgAtK(d, rels, k) / IdealDcgAtK(d, rels, k)
  {
    NdcgIsOneExactly(d, rels, k);
    IdealNonNegative(rels);
    GainNonNegative(d, rels, PrefixLength(|rels|, k));
    GainNonNegative(d, Ideal(rels), PrefixLength(|rels|, k));
    if k > 0 && IdealDcgAtK(d, rels, k) != 0.0 {
      ClampActsExactly(d, rels, k);
      RatioFacts(DcgAtK(d, rels, k), IdealDcgAtK(d, rels, k));
    }
  }

  // ---------------------------------------------------------------------------
  // Promotion: moving a more relevant neighbour up
  // ---------------------------------------------------------------------------

  function Swap(rels: seq<int>, i: nat): seq<int>
    requires i + 1 < |rels|
  {
    rels[i := rels[i + 1]][i + 1 := rels[i]]
  }

  lemma {:induction false} GainOfAgreeing(d: nat -> real, s: seq<int>, r: seq<int>, m: nat, n: nat)
    requires m <= n <= |r| == |s| && forall j :: m <= j < n ==> s[j] == r[j]
    ensures Gain(d, s, n) - Gain(d, r, n) == Gain(d, s, m) - Gain(d, r, m)
  {
    hide Term;
    if m < n { GainOfAgreeing(d, s, r, m, n - 1); }
  }

  lemma SwapTwoTerms(x: int, y: int, u: real, v: real)
    ensures Term(y, u) + Term(x, v) - (Term(x, u) + Term(y, v)) == Term(y - x, u - v)
    ensures Term(y, u) - Term(x, u) == Term(y - x, u)
  {
    assert (y - x) as real == y as real - x as real;
  }

  /** How much discounted gain a swap moves: the rise times the discount of the upper
      slot, less the discount of the lower slot once that is within the prefix. */
  lemma {:induction false} GainAfterSwap(d: nat -> real, rels: seq<int>, i: nat, n: nat)
    requires i + 1 < |rels| && n <= |rels|
    ensures Gain(d, Swap(rels, i), n) - Gain(d, rels, n)
              == if n <= i then 0.0
                 else if n == i + 1 then Term(rels[i + 1] - rels[i], d(i))
                 else Term(rels[i + 1] - rels[i], d(i) - d(i + 1))
  {
    hide Term;
    var t := Swap(rels, i);
    if n <= i {
      GainOfAgreeing(d, t, rels, 0, n);
    } else {
      GainOfAgreeing(d, t, rels, 0, i);
      SwapTwoTerms(rels[i], rels[i + 1], d(i), d(i + 1));
      if n >= i + 2 {
        GainOfAgreeing(d, t, rels, i + 2, n);
        assert Gain(d, t, i + 2) == Gain(d, t, i) + Term(t[i], d(i)) + Term(t[i + 1], d(i + 1));
        assert Gain(d, rels, i + 2) == Gain(d, rels, i) + Term(rels[i], d(i)) + Term(rels[i + 1], d(i + 1));
      }
    }
  }

  /** Promotion never lowers DCG@k, and raises it strictly exactly when the pair
      differs and the upper slot is within the cutoff. */
  lemma PromotionRaisesDcg(d: nat -> real, rels: seq<int>, i: nat, k: int)
    requires Discounting(d) && i + 1 < |rels| && rels[i] <= rels[i + 1]
    ensures DcgAtK(d, Swap(rels, i), k) >= DcgAtK(d, rels, k)
    ensures DcgAtK(d, Swap(rels, i), k) > DcgAtK(d, rels, k) <==> i < k && rels[i] < rels[i + 1]
  {
    GainAfterSwap(d, rels, i, PrefixLength(|rels|, k));
    ProductSign((rels[i + 1] - rels[i]) as real, d(i));
    ProductSign((rels[i + 1] - rels[i]) as real, d(i) - d(i + 1));
  }

  /** Promotion never lowers NDCG@k, and raises it strictly exactly when it raises DCG@k and
      the ideal DCG is positive; grades may be negative. */
  lemma PromotionRaisesNdcg(d: nat -> real, rels: seq<int>, i: nat, k: int)
    requires Discounting(d) && i + 1 < |rels| && rels[i] <= rels[i + 1]
    ensures NdcgAtK(d, Swap(rels, i), k) >= NdcgAtK(d, rels, k)
    ensures NdcgAtK(d, Swap(rels, i), k) > NdcgAtK(d, rels, k) <==>
              i < k && rels[i] < rels[i + 1] && IdealDcgAtK(d, rels, k) > 0.0
  {
    SortIgnoresSwap(rels, i, Grade);
    PromotionRaisesDcg(d, rels, i, k);
    DcgAtMostIdeal(d, rels, k);
    DcgAtMostIdeal(d, Swap(rels, i), k);
    NdcgIsOneExactly(d, rels, k);
    NdcgIsOneExactly(d, Swap(rels, i), k);
    hide DcgAtK, Ideal, Swap;
    if k > 0 && IdealDcgAtK(d, rels, k) > 0.0 {
      RatioFacts(DcgAtK(d, rels, k), IdealDcgAtK(d, rels, k));
      RatioFacts(DcgAtK(d, Swap(rels, i), k), IdealDcgAtK(d, rels, k));
      DivideMonotone(DcgAtK(d, rels, k), DcgAtK(d, Swap(rels, i), k), IdealDcgAtK(d, rels, k));
    }
  }

  lemma {:induction false} HitsAfterSwap(rels: seq<int>, i: nat, n: nat)
    requires i + 1 < |rels| && n <= |rels| && n != i + 1
    ensures Hits(Swap(rels, i), n) == Hits(rels, n)
  {
    if n == i + 2 {
      HitsAfterSwap(rels, i, i);
    } else if n > 0 {
      HitsAfterSwap(rels, i, n - 1);
    }
  }

  /** A hit one place higher has a larger precision at its rank. */
  lemma HitMovesUp(rels: seq<int>, i: nat)
    requires i + 1 < |rels| && rels[i] <= 0 < rels[i + 1]
    ensures PrecisionAtK(Swap(rels, i), i + 1) > PrecisionAtK(rels, i + 2)
  {
    var t := Swap(rels, i);
    HitsAfterSwap(rels, i, i);
    assert Hits(t, i + 1) == Hits(rels, i) + 1 && Hits(rels, i + 2) == Hits(rels, i) + 1;
    QuotientDrops((Hits(rels, i) + 1) as real, (i + 1) as real, (i + 2) as real);
  }

  lemma PrecisionAfterSwap(rels: seq<int>, i: nat, n: nat)
    requires i + 1 < |rels| && 0 < n <= |rels| && n != i + 1
    ensures PrecisionAtK(Swap(rels, i), n) == PrecisionAtK(rels, n)
  {
    HitsAfterSwap(rels, i, n);
  }

  lemma PrecisionSumOfPair(rels: seq<int>, i: nat)
    requires i + 1 < |rels|
    ensures PrecisionSum(rels, i + 2) == PrecisionSum(rels, i)
              + (if rels[i] > 0 then PrecisionAtK(rels, i + 1) else 0.0)
              + (if rels[i + 1] > 0 then PrecisionAtK(rels, i + 2) else 0.0)
  {
  }

  lemma {:induction false} PrecisionSumAfterSwap(rels: seq<int>, i: nat, n: nat)
    requires i + 1 < |rels| && n <= |rels| && n != i + 1
    requires rels[i] > 0 ==> rels[i + 1] > 0
    ensures PrecisionSum(Swap(rels, i), n) >= PrecisionSum(rels, n)
    ensures n >= i + 2 && rels[i] <= 0 < rels[i + 1] ==> PrecisionSum(Swap(rels, i), n) > PrecisionSum(rels, n)
    ensures n <= i || !(rels[i] <= 0 < rels[i + 1]) ==> PrecisionSum(Swap(rels, i), n) == PrecisionSum(rels, n)
  {
    if n == i + 2 {
      hide PrecisionAtK;
      PrecisionSumAfterSwap(rels, i, i);
      PrecisionSumOfPair(rels, i);
      PrecisionSumOfPair(Swap(rels, i), i);
      if rels[i] <= 0 < rels[i + 1] {
        HitMovesUp(rels, i);
      } else if rels[i] > 0 {
        PrecisionAfterSwap(rels, i, i + 2);
        SameHitsBefore(rels, i);
      }
    } else if n > 0 {
      hide PrecisionAtK;
      PrecisionSumAfterSwap(rels, i, n - 1);
      PrecisionAfterSwap(rels, i, n);
    }
  }

  lemma SameHitsBefore(rels: seq<int>, i: nat)
    requires i + 1 < |rels| && rels[i] > 0 && rels[i + 1] > 0
    ensures PrecisionAtK(Swap(rels, i), i + 1) == PrecisionAtK(rels, i + 1)
  {
    HitsAfterSwap(rels, i, i);
  }

  /** Promotion never lowers average precision, and raises it strictly exactly
      when a hit passes a non-hit. */
  lemma PromotionRaisesAveragePrecision(rels: seq<int>, i: nat)
    requires i + 1 < |rels| && rels[i] <= rels[i + 1]
    ensures AveragePrecision(Swap(rels, i)) >= AveragePrecision(rels)
    ensures AveragePrecision(Swap(rels, i)) > AveragePrecision(rels) <==> rels[i] <= 0 < rels[i + 1]
  {
    PrecisionSumAfterSwap(rels, i, |rels|);
    HitsAfterSwap(rels, i, |rels|);
    var hits := Hits(rels, |rels|);
    if hits > 0 {
      DivideMonotone(PrecisionSum(rels, |rels|), PrecisionSum(Swap(rels, i), |rels|), hits as real);
    } else if rels[i] <= 0 < rels[i + 1] {
      HitAnywhere(rels, i + 1, |rels|);
    }
  }

  lemma {:induction false} HitAnywhere(rels: seq<int>, i: nat, n: nat)
    requires i < n <= |rels| && rels[i] > 0
    ensures Hits(rels, n) > 0
  {
    if i < n - 1 { HitAnywhere(rels, i, n - 1); }
  }

  /** Reciprocal ranks compare like first hits, no hit being last. */
  lemma ReciprocalRankOrder(r: seq<int>, s: seq<int>)
    requires FirstHit(s) < |s| && (FirstHit(r) < |r| ==> FirstHit(s) <= FirstHit(r))
    ensures ReciprocalRank(s) >= ReciprocalRank(r)
    ensures ReciprocalRank(s) > ReciprocalRank(r) <==> FirstHit(r) == |r| || FirstHit(s) < FirstHit(r)
  {
    hide FirstHit;
    var p := FirstHit(s) + 1;
    ReciprocalOrder(p, p);
    if FirstHit(r) < |r| && p < FirstHit(r) + 1 {
      QuotientDrops(1.0, p as real, (FirstHit(r) + 1) as real);
    }
  }

  /** Promotion never lowers the reciprocal rank, and raises it strictly exactly when the
      promoted label is the first hit. */
  lemma PromotionRaisesReciprocalRank(rels: seq<int>, i: nat)
    requires i + 1 < |rels| && rels[i] <= rels[i + 1]
    ensures ReciprocalRank(Swap(rels, i)) >= ReciprocalRank(rels)
    ensures ReciprocalRank(Swap(rels, i)) > ReciprocalRank(rels) <==> FirstHit(rels) == i + 1
  {
    FirstHitAfterSwap(rels, i);
    hide FirstHit, Swap;
    if FirstHit(rels) < |rels| { ReciprocalRankOrder(rels, Swap(rels, i)); }
  }

  /** Promotion moves the first hit up when it is the promoted label, and otherwise leaves it
      where it is. */
  lemma FirstHitAfterSwap(rels: seq<int>, i: nat)
    requires i + 1 < |rels| && rels[i] <= rels[i + 1]
    ensures FirstHit(Swap(rels, i)) == if FirstHit(rels) == i + 1 then i else FirstHit(rels)
  {
    hide FirstHit;
    var t, p := Swap(rels, i), FirstHit(rels);
    if p == i + 1 {
      FirstHitIs(t, i);
    } else if p < |rels| {
      FirstHitIs(t, p);
    }
  }

  lemma FirstHitIs(rels: seq<int>, p: nat)
    requires p < |rels| && rels[p] > 0 && forall j :: 0 <= j < p ==> rels[j] <= 0
    ensures FirstHit(rels) == p
  {
  }

  ghost predicate HitsFirst(rels: seq<int>, n: nat)
    requires n <= |rels|
  {
    forall i, j :: 0 <= i < j < n && rels[j] > 0 ==> rels[i] > 0
  }

  lemma {:induction false} AllHits(rels: seq<int>, n: nat)
    requires n <= |rels|
    ensures Hits(rels, n) == n <==> forall i :: 0 <= i < n ==> rels[i] > 0
  {
    if n > 0 { AllHits(rels, n - 1); }
  }

  lemma PrecisionAtHit(rels: seq<int>, n: nat)
    requires 0 < n <= |rels| && rels[n - 1] > 0
    ensures 0.0 < PrecisionAtK(rels, n) <= 1.0
    ensures PrecisionAtK(rels, n) == 1.0 <==> forall i :: 0 <= i < n ==> rels[i] > 0
  {
    AllHits(rels, n);
    HitAnywhere(rels, n - 1, n);
    ShareOfTotal(Hits(rels, n), n);
  }

  lemma ShareOfTotal(h: nat, n: nat)
    requires 0 < h <= n
    ensures 0.0 < h as real / n as real <= 1.0
    ensures h as real / n as real == 1.0 <==> h == n
  {
    RatioFacts(h as real, n as real);
  }

  lemma {:induction false} PrecisionSumBound(rels: seq<int>, n: nat)
    requires n <= |rels|
    ensures 0.0 <= PrecisionSum(rels, n) <= Hits(rels, n) as real
    ensures PrecisionSum(rels, n) == Hits(rels, n) as real <==> HitsFirst(rels, n)
    ensures Hits(rels, n) > 0 ==> PrecisionSum(rels, n) > 0.0
  {
    hide PrecisionAtK;
    if n > 0 {
      PrecisionSumBound(rels, n - 1);
      assert HitsFirst(rels, n) ==> HitsFirst(rels, n - 1);
      if rels[n - 1] > 0 {
        PrecisionAtHit(rels, n);
        assert HitsFirst(rels, n) <==> forall i :: 0 <= i < n ==> rels[i] > 0;
      } else {
        assert HitsFirst(rels, n - 1) ==> HitsFirst(rels, n);
      }
    }
  }

  /** Average precision is in [0,1]; it is 0 exactly without a hit and 1 exactly when
      there is a hit and every hit precedes every non-hit. */
  lemma AveragePrecisionIsOneExactly(rels: seq<int>)
    ensures 0.0 <= AveragePrecision(rels) <= 1.0
    ensures AveragePrecision(rels) == 1.0 <==> Hits(rels, |rels|) > 0 && HitsFirst(rels, |rels|)
    ensures AveragePrecision(rels) == 0.0 <==> Hits(rels, |rels|) == 0
  {
    PrecisionSumBound(rels, |rels|);
    if Hits(rels, |rels|) > 0 {
      RatioFacts(PrecisionSum(rels, |rels|), Hits(rels, |rels|) as real);
      DivideMonotone(0.0, PrecisionSum(rels, |rels|), Hits(rels, |rels|) as real);
    }
  }

  // ---------------------------------------------------------------------------
  // Cutoffs
  // ---------------------------------------------------------------------------

  /** The reciprocal rank of the slice `rels[:k]` is in [0,1] and never drops when the
      slice grows. */
  lemma {:induction false} MrrGrowsWithCutoff(rels: seq<int>, k: int, k': int)
    requires PrefixLength(|rels|, k) <= PrefixLength(|rels|, k')
    ensures 0.0 <= ReciprocalRank(Prefix(rels, k)) <= ReciprocalRank(Prefix(rels, k')) <= 1.0
  {
    var r, s := Prefix(rels, k), Prefix(rels, k');
    if FirstHit(r) < |r| {
      assert s[FirstHit(r)] == r[FirstHit(r)];
      ReciprocalRankOrder(r, s);
      ReciprocalOrder(FirstHit(r) + 1, FirstHit(r) + 1);
    }
    if FirstHit(s) < |s| {
      ReciprocalOrder(FirstHit(s) + 1, FirstHit(s) + 1);
    }
  }

  /** For cutoffs k <= m the slice grows, and with it the reciprocal rank, in every list
      exactly unless k counts from the end and m from the start. */
  lemma CutoffsOrderMrrExactly(k: int, m: int)
    requires k <= m
    ensures (forall rels: seq<int> :: ReciprocalRank(Prefix(rels, k)) <= ReciprocalRank(Prefix(rels, m)))
            <==> k >= 0 || m < 0
  {
    if k >= 0 || m < 0 {
      forall rels: seq<int> ensures ReciprocalRank(Prefix(rels, k)) <= ReciprocalRank(Prefix(rels, m)) {
        MrrGrowsWithCutoff(rels, k, m);
      }
    } else {
      var rels: seq<int> := seq(m + 1 - k, i => if i == m then 1 else 0);
      FirstHitIs(Prefix(rels, k), m);
      assert FirstHit(Prefix(rels, m)) == m;
      ReciprocalOrder(m + 1, m + 1);
      assert ReciprocalRank(Prefix(rels, k)) > ReciprocalRank(Prefix(rels, m));
    }
  }

  lemma {:induction false} HitsMonotone(rels: seq<int>, m: nat, n: nat)
    requires m <= n <= |rels|
    ensures Hits(rels, m) <= Hits(rels, n)
  {
    if m < n { HitsMonotone(rels, m, n - 1); }
  }

  /** recall@k never drops as the cutoff grows. */
  lemma RecallGrowsWithCutoff(rels: seq<int>, total: int, k: int, k': int)
    requires k <= k'
    ensures 0.0 <= RecallAtK(rels, total, k) <= RecallAtK(rels, total, k')
  {
    var m, n := PrefixLength(|rels|, k), PrefixLength(|rels|, k');
    if total > 0 && k' > 0 {
      DivideMonotone(0.0, Hits(rels, n) as real, total as real);
      if k > 0 {
        HitsMonotone(rels, m, n);
        DivideMonotone(0.0, Hits(rels, m) as real, total as real);
        DivideMonotone(Hits(rels, m) as real, Hits(rels, n) as real, total as real);
      }
    }
  }

  lemma {:induction false} PrecisionInUnitInterval(rels: seq<int>, k: int)
    ensures 0.0 <= PrecisionAtK(rels, k) <= 1.0
  {
    if k > 0 {
      RatioFacts(Hits(rels, PrefixLength(|rels|, k)) as real, k as real);
    }
  }

}
