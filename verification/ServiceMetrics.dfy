/** The second metric implementation, inside the evaluation service, and how its
    values relate to those of the evaluation pipeline. */
module ServiceMetrics {
  import opened Sequences
  import opened RealFacts
  import opened Metrics

  function Pow2(n: nat): (p: int)
    ensures p >= 1
  {
    if n == 0 then 1 else 2 * Pow2(n - 1)
  }

  /** The exponential gain 2^r - 1 of each label. */
  function Gains(rels: seq<int>): (g: seq<int>)
    requires NonNegative(rels)
    ensures |g| == |rels|
  {
    seq(|rels|, i requires 0 <= i < |rels| => Pow2(rels[i]) - 1)
  }

  /** The service truncates first, so its ideal order only knows the truncated labels. */
  function ServiceNdcgAtK(d: nat -> real, rels: seq<int>, k: int): real
    requires NonNegative(rels)
  {
    var cut := Prefix(rels, k);
    IdealNonNegative(cut);
    var dcg := Gain(d, Gains(cut), |cut|);
    var idcg := Gain(d, Gains(Ideal(cut)), |cut|);
    if idcg > 0.0 then dcg / idcg else 0.0
  }

  /** The average precision of the service divides by all relevant documents, not only
      the retrieved ones. */
  function ServiceAp(rels: seq<int>, totalRelevant: int): real {
    if totalRelevant == 0 then 0.0 else PrecisionSum(rels, |rels|) / totalRelevant as real
  }

  method ComputeServiceAp(rels: seq<int>, totalRelevant: int) returns (score: real)
    ensures score == ServiceAp(rels, totalRelevant)
  {
    if totalRelevant == 0 {
      return 0.0;
    }
    var numRelevant := 0;
    var sumPrecision := 0.0;
    for i := 0 to |rels|
      invariant numRelevant == Hits(rels, i)
      invariant sumPrecision == PrecisionSum(rels, i)
    {
      if rels[i] > 0 {
        numRelevant := numRelevant + 1;
        assert PrecisionAtK(rels, i + 1) == numRelevant as real / (i + 1) as real;
        sumPrecision := sumPrecision + numRelevant as real / (i + 1) as real;
      }
    }
    score := sumPrecision / totalRelevant as real;
  }

  /** The same positive amount shared among more is a smaller share. */
  lemma ShareShrinks(p: real, h: real, q: real, t: real, sum: real)
    requires p * h == sum && q * t == sum && t >= h > 0.0 && sum > 0.0
    ensures 0.0 < q <= p
    ensures q == p <==> t == h
  {
    ProductSign(p, h);
    ProductSign(q, t);
    if t == h {
      assert (p - q) * h == 0.0;
      ProductSign(p - q, h);
    } else {
      assert (p - q) * h == q * (t - h);
      ProductSign(q, t - h);
      ProductSign(p - q, h);
    }
  }

  lemma QuotientTimes(q: real, x: real, y: real)
    requires y != 0.0 && q == x / y
    ensures q * y == x
  {
  }

  lemma AveragePrecisionTimesHits(rels: seq<int>)
    ensures AveragePrecision(rels) * Hits(rels, |rels|) as real == PrecisionSum(rels, |rels|)
  {
    hide PrecisionSum, Hits, PrecisionAtK;
    PrecisionSumBound(rels, |rels|);
    if Hits(rels, |rels|) > 0 { QuotientTimes(AveragePrecision(rels), PrecisionSum(rels, |rels|), Hits(rels, |rels|) as real); }
  }

  /** Service AP counts every relevant document, pipeline AP only the retrieved ones:
      the two agree after weighing each by its own denominator, and for a true total
      (no smaller than the hits) they are equal exactly when every relevant document
      was retrieved. */
  lemma AveragePrecisionsAgree(rels: seq<int>, totalRelevant: int)
    requires totalRelevant != 0
    ensures ServiceAp(rels, totalRelevant) * totalRelevant as real
            == AveragePrecision(rels) * Hits(rels, |rels|) as real
    ensures totalRelevant >= Hits(rels, |rels|) > 0 ==>
              0.0 < ServiceAp(rels, totalRelevant) <= AveragePrecision(rels)
              && (ServiceAp(rels, totalRelevant) == AveragePrecision(rels) <==> totalRelevant == Hits(rels, |rels|))
  {
    hide PrecisionSum, Hits, AveragePrecision;
    PrecisionSumBound(rels, |rels|);
    AveragePrecisionTimesHits(rels);
    QuotientTimes(ServiceAp(rels, totalRelevant), PrecisionSum(rels, |rels|), totalRelevant as real);
    var hits := Hits(rels, |rels|);
    if totalRelevant >= hits > 0 {
      ShareShrinks(AveragePrecision(rels), hits as real, ServiceAp(rels, totalRelevant), totalRelevant as real,
                   PrecisionSum(rels, |rels|));
    }
  }

  // ---------------------------------------------------------------------------
  // NDCG over binary labels
  // ---------------------------------------------------------------------------

  ghost predicate Binary(rels: seq<int>) {
    forall i :: 0 <= i < |rels| ==> 0 <= rels[i] <= 1
  }

  lemma BinaryGains(rels: seq<int>)
    requires Binary(rels)
    ensures NonNegative(rels) && Gains(rels) == rels
  {
    assert Pow2(1) == 2;
  }

  /** A descending binary list is ones then zeros. */
  lemma {:induction false} DescendingBinary(s: seq<int>, n: nat)
    requires Binary(s) && Descending(s, Grade) && n <= |s|
    ensures Total(s, n) == if n <= Hits(s, |s|) then n else Hits(s, |s|)
  {
    BinaryTotal(s, |s|);
    if n > 0 {
      DescendingBinary(s, n - 1);
      if s[n - 1] == 0 {
        ZeroTail(s, n - 1, |s|);
        BinaryTotal(s, n - 1);
      } else {
        AllOnes(s, n);
        HitsMonotone(s, n, |s|);
      }
    }
  }

  lemma {:induction false} BinaryTotal(s: seq<int>, n: nat)
    requires Binary(s) && n <= |s|
    ensures Total(s, n) == Hits(s, n)
  {
    if n > 0 { BinaryTotal(s, n - 1); }
  }

  lemma {:induction false} ZeroTail(s: seq<int>, m: nat, n: nat)
    requires Binary(s) && Descending(s, Grade) && m <= n <= |s|
    requires m < |s| ==> s[m] == 0
    ensures Hits(s, n) == Hits(s, m)
  {
    if m < n {
      ZeroTail(s, m, n - 1);
      if m < n - 1 { assert s[m] as real >= s[n - 1] as real; }
    }
  }

  lemma {:induction false} AllOnes(s: seq<int>, n: nat)
    requires Binary(s) && Descending(s, Grade) && 0 < n <= |s| && s[n - 1] == 1
    ensures Hits(s, n) == n
  {
    if n > 1 {
      assert s[n - 2] as real >= s[n - 1] as real;
      AllOnes(s, n - 1);
    }
  }

  lemma IdealBinary(rels: seq<int>)
    requires Binary(rels)
    ensures Binary(Ideal(rels)) && Descending(Ideal(rels), Grade) && |Ideal(rels)| == |rels|
    ensures Hits(Ideal(rels), |rels|) == Hits(rels, |rels|)
  {
    SortDescCorrect(rels, Grade);
    forall i | 0 <= i < |rels| ensures 0 <= Ideal(rels)[i] <= 1 {
      InSorted(rels, Grade, Ideal(rels)[i]);
    }
    IdealTotal(rels);
    BinaryTotal(rels, |rels|);
    BinaryTotal(Ideal(rels), |rels|);
  }

  lemma {:induction false} InsertTotal(x: int, s: seq<int>)
    ensures |Insert(x, s, Grade)| == |s| + 1
    ensures Total(Insert(x, s, Grade), |s| + 1) == x + Total(s, |s|)
  {
    InsertPermutes(x, s, Grade);
    if s == [] || Grade(x) >= Grade(s[0]) {
      TotalCons(x, s, |s|);
    } else {
      InsertTotal(x, s[1..]);
      TotalCons(s[0], Insert(x, s[1..], Grade), |s|);
      assert s == [s[0]] + s[1..];
      TotalCons(s[0], s[1..], |s| - 1);
    }
  }

  lemma {:induction false} IdealTotal(rels: seq<int>)
    ensures |Ideal(rels)| == |rels| && Total(Ideal(rels), |rels|) == Total(rels, |rels|)
  {
    SortDescCorrect(rels, Grade);
    if rels != [] {
      IdealTotal(rels[1..]);
      InsertTotal(rels[0], Ideal(rels[1..]));
      assert rels == [rels[0]] + rels[1..];
      TotalCons(rels[0], rels[1..], |rels| - 1);
    }
  }

  /** The first n labels of the ideal order of a binary list are min(n, hits) ones and
      then zeros. */
  lemma IdealPrefix(rels: seq<int>, n: nat)
    requires Binary(rels) && n <= |rels|
    ensures |Ideal(rels)| == |rels|
    ensures forall i :: 0 <= i < n ==> Ideal(rels)[i] == if i < Hits(rels, |rels|) then 1 else 0
  {
    hide Ideal, Hits;
    IdealBinary(rels);
    forall i | 0 <= i < n ensures Ideal(rels)[i] == if i < Hits(rels, |rels|) then 1 else 0 {
      DescendingBinary(Ideal(rels), i);
      DescendingBinary(Ideal(rels), i + 1);
    }
  }

  lemma {:induction false} GainOfCut(d: nat -> real, rels: seq<int>, m: nat, n: nat)
    requires n <= m <= |rels|
    ensures Gain(d, rels[..m], n) == Gain(d, rels, n)
    ensures Hits(rels[..m], n) == Hits(rels, n)
  {
    if n > 0 { GainOfCut(d, rels, m, n - 1); }
  }

  /** The two ideal DCGs of a ranking, for grades of any sign: that of the truncated list is
      at most that of the full list, and equal exactly when the cut keeps the best labels. */
  lemma IdealsCompared(d: nat -> real, rels: seq<int>, n: nat)
    requires Discounting(d) && n <= |rels|
    ensures |Ideal(rels[..n])| == n && |Ideal(rels)| == |rels|
    ensures Gain(d, Ideal(rels[..n]), n) <= Gain(d, Ideal(rels), n)
    ensures Gain(d, Ideal(rels[..n]), n) == Gain(d, Ideal(rels), n) <==> Ideal(rels[..n]) == Ideal(rels)[..n]
  {
    var best := Ideal(rels[..n]);
    var mixed := best + rels[n..];
    MixedIdeal(rels, n);
    hide Gain, Ideal;
    assert mixed[..n] == best;
    DcgAtMostIdeal(d, mixed, n);
    GainOfCut(d, mixed, n, n);
  }

  /** Sorting the first n labels only does not change the ideal order. */
  lemma MixedIdeal(rels: seq<int>, n: nat)
    requires n <= |rels|
    ensures |Ideal(rels[..n])| == n && |Ideal(rels)| == |rels|
    ensures Ideal(Ideal(rels[..n]) + rels[n..]) == Ideal(rels)
  {
    SortDescCorrect(rels[..n], Grade);
    SortDescCorrect(rels, Grade);
    assert rels == rels[..n] + rels[n..];
    SameIdeal(Ideal(rels[..n]) + rels[n..], rels);
  }

  lemma SameIdeal(r: seq<int>, s: seq<int>)
    requires multiset(r) == multiset(s)
    ensures Ideal(r) == Ideal(s)
  {
    SortDescCorrect(r, Grade);
    SortDescCorrect(s, Grade);
    DescendingUnique(Ideal(r), Ideal(s), Grade);
  }

  /** The two ideal DCGs of a binary ranking: that of the truncated list is at most that
      of the full list, and equal exactly when the cut keeps as many hits as it can. */
  lemma BinaryIdealsCompared(d: nat -> real, rels: seq<int>, n: nat)
    requires Discounting(d) && Binary(rels) && n <= |rels|
    ensures |Ideal(rels[..n])| == n && |Ideal(rels)| == |rels|
    ensures Gain(d, Ideal(rels[..n]), n) <= Gain(d, Ideal(rels), n)
    ensures Gain(d, Ideal(rels[..n]), n) == Gain(d, Ideal(rels), n)
            <==> Hits(rels, n) == n || Hits(rels, n) == Hits(rels, |rels|)
    ensures Gain(d, Ideal(rels[..n]), n) > 0.0 <==> Hits(rels, n) > 0
  {
    var cut := rels[..n];
    GainOfCut(d, rels, n, n);
    HitsMonotone(rels, n, |rels|);
    IdealPrefix(cut, n);
    IdealPrefix(rels, n);
    var kept, hits := Hits(rels, n), Hits(rels, |rels|);
    var best := if hits <= n then hits else n;
    OnesThenZeros(d, Ideal(cut), kept, n);
    OnesThenZeros(d, Ideal(rels), best, n);
    WeightGrows(d, kept, best);
    WeightGrows(d, 0, kept);
  }

  /** Sum of the first n discounts. */
  function Weight(d: nat -> real, n: nat): real {
    if n == 0 then 0.0 else Weight(d, n - 1) + d(n - 1)
  }

  lemma {:induction false} WeightGrows(d: nat -> real, m: nat, n: nat)
    requires Discounting(d) && m <= n
    ensures Weight(d, m) <= Weight(d, n)
    ensures m < n ==> Weight(d, m) < Weight(d, n)
  {
    if m < n { WeightGrows(d, m, n - 1); }
  }

  lemma {:induction false} OnesThenZeros(d: nat -> real, s: seq<int>, ones: nat, n: nat)
    requires n <= |s| && forall i :: 0 <= i < n ==> s[i] == if i < ones then 1 else 0
    ensures Gain(d, s, n) == Weight(d, if n <= ones then n else ones)
  {
    if n > 0 { OnesThenZeros(d, s, ones, n - 1); }
  }

  lemma ServiceNdcgValue(d: nat -> real, rels: seq<int>, k: int, n: nat)
    requires n == PrefixLength(|rels|, k) && Discounting(d) && Binary(rels)
    ensures |Ideal(rels[..n])| == n && NonNegative(rels)
            && (if Hits(rels, n) > 0
                then ServiceNdcgAtK(d, rels, k) * Gain(d, Ideal(rels[..n]), n) == Gain(d, rels, n)
                else ServiceNdcgAtK(d, rels, k) == 0.0)
  {
    hide Gain, Hits, PrefixLength;
    var cut := Prefix(rels, k);
    IdealBinary(cut);
    BinaryGains(cut);
    BinaryGains(Ideal(cut));
    GainOfCut(d, rels, n, n);
    BinaryIdealsCompared(d, rels, n);
    if Hits(rels, n) > 0 { QuotientTimes(ServiceNdcgAtK(d, rels, k), Gain(d, rels, n), Gain(d, Ideal(rels[..n]), n)); }
  }

  lemma PipelineNdcgValue(d: nat -> real, rels: seq<int>, k: int, n: nat)
    requires n == PrefixLength(|rels|, k) && Discounting(d) && Binary(rels) && k > 0
    ensures |Ideal(rels)| == |rels|
            && (if Hits(rels, n) > 0
                then NdcgAtK(d, rels, k) * Gain(d, Ideal(rels), n) == Gain(d, rels, n)
                else NdcgAtK(d, rels, k) == 0.0)
  {
    hide Gain, Hits;
    IdealBinary(rels);
    BinaryIdealsCompared(d, rels, n);
    NdcgInUnitInterval(d, rels, k);
    BinaryGain(d, rels, n);
    if IdealDcgAtK(d, rels, k) != 0.0 {
      QuotientTimes(NdcgAtK(d, rels, k), Gain(d, rels, n), Gain(d, Ideal(rels), n));
      RatioFacts(0.0, IdealDcgAtK(d, rels, k));
    }
  }

  /** For binary labels the service NDCG@k is never below the pipeline NDCG@k. For a
      positive cutoff they agree exactly when the cut loses no hit it had room for, or
      has no hit at all; in particular whenever the list has at most k entries. */
  lemma ServiceNdcgDominates(d: nat -> real, rels: seq<int>, k: int)
    requires Discounting(d) && Binary(rels)
    ensures NonNegative(rels)
    ensures ServiceNdcgAtK(d, rels, k) >= NdcgAtK(d, rels, k)
    ensures var n := PrefixLength(|rels|, k);
            k > 0 ==> (ServiceNdcgAtK(d, rels, k) == NdcgAtK(d, rels, k)
                       <==> Hits(rels, n) == 0 || Hits(rels, n) == n || Hits(rels, n) == Hits(rels, |rels|))
  {
    hide Gain, Hits, ServiceNdcgAtK, IdealDcgAtK, DcgAtK;
    var n := PrefixLength(|rels|, k);
    ServiceNdcgValue(d, rels, k, n);
    BinaryIdealsCompared(d, rels, n);
    BinaryGain(d, rels, n);
    if k > 0 { PipelineNdcgValue(d, rels, k, n); }
    CompareNdcg(ServiceNdcgAtK(d, rels, k), NdcgAtK(d, rels, k), Gain(d, Ideal(rels[..n]), n),
                Gain(d, Ideal(rels), n), Gain(d, rels, n), Hits(rels, n) > 0, k > 0);
  }

  lemma CompareNdcg(service: real, pipeline: real, idcg: real, ideal: real, dcg: real, hit: bool, positive: bool)
    requires dcg >= 0.0 && (hit ==> ideal >= idcg > 0.0 && dcg > 0.0)
    requires if hit then service * idcg == dcg else service == 0.0
    requires if positive then (if hit then pipeline * ideal == dcg else pipeline == 0.0) else pipeline == 0.0
    ensures service >= pipeline
    ensures positive ==> (service == pipeline <==> !hit || idcg == ideal)
  {
    if hit {
      ProductSign(service, idcg);
      if positive { ShareShrinks(service, idcg, pipeline, ideal, dcg); }
    }
  }

  /** A binary ranking gains nothing exactly when it has no hit. */
  lemma {:induction false} BinaryGain(d: nat -> real, rels: seq<int>, n: nat)
    requires Discounting(d) && Binary(rels) && n <= |rels|
    ensures Gain(d, rels, n) >= 0.0
    ensures Gain(d, rels, n) > 0.0 <==> Hits(rels, n) > 0
  {
    if n > 0 {
      BinaryGain(d, rels, n - 1);
      if rels[n - 1] == 1 { assert rels[n - 1] as real * d(n - 1) == d(n - 1) > 0.0; }
    }
  }

  // ---------------------------------------------------------------------------
  // Reciprocal rank, recall and precision
  // ---------------------------------------------------------------------------

  /** The service's MRR loop computes the pipeline's reciprocal rank of the slice. */
  method ComputeServiceMrr(rels: seq<int>, k: int) returns (rr: real)
    ensures rr == ReciprocalRank(Prefix(rels, k))
  {
    var top := Prefix(rels, k);
    for i := 0 to |top|
      invariant forall j :: 0 <= j < i ==> top[j] <= 0
    {
      if top[i] > 0 {
        return 1.0 / (i + 1) as real;
      }
    }
    return 0.0;
  }

  function ServiceRecallAtK(rels: seq<int>, totalRelevant: int, k: int): real {
    if totalRelevant == 0 then 0.0
    else Hits(rels, PrefixLength(|rels|, k)) as real / totalRelevant as real
  }

  /** The denominator is min(k, n), so a cutoff of 0 divides by zero. */
  function ServicePrecisionAtK(rels: seq<int>, k: int): Result<real> {
    if rels == [] then Ok(0.0)
    else
      var denominator := if k < |rels| then k else |rels|;
      if denominator == 0 then Err("division by zero")
      else Ok(Hits(rels, PrefixLength(|rels|, k)) as real / denominator as real)
  }

  /** The two recalls agree exactly when the cutoff is positive or the slice a
      non-positive cutoff takes holds no hit; the pipeline has no such slice. */
  lemma ServiceRecallAgrees(rels: seq<int>, totalRelevant: nat, k: int)
    ensures ServiceRecallAtK(rels, totalRelevant, k) == RecallAtK(rels, totalRelevant, k)
            <==> k > 0 || totalRelevant == 0 || Hits(rels, PrefixLength(|rels|, k)) == 0
  {
    if totalRelevant > 0 {
      RatioFacts(Hits(rels, PrefixLength(|rels|, k)) as real, totalRelevant as real);
      PositiveShare(Hits(rels, PrefixLength(|rels|, k)), totalRelevant);
    }
  }

  lemma PositiveShare(h: nat, n: nat)
    requires n > 0
    ensures h as real / n as real == 0.0 <==> h == 0
  {
    var q := h as real / n as real;
    assert q * n as real == h as real;
    ProductSign(q, n as real);
  }

  /** For a positive cutoff the service precision is in [0,1] and at least the pipeline
      precision, and equal exactly when the list fills the cutoff or has no hit. A negative
      cutoff divides by a negative number. */
  lemma ServicePrecisionDominates(rels: seq<int>, k: int)
    ensures ServicePrecisionAtK(rels, k).Err? <==> rels != [] && k == 0
    ensures k > 0 ==>
              var service := ServicePrecisionAtK(rels, k).value;
              && PrecisionAtK(rels, k) <= service <= 1.0
              && (service == PrecisionAtK(rels, k) <==> |rels| >= k || Hits(rels, |rels|) == 0)
    ensures k < 0 ==>
              var service := ServicePrecisionAtK(rels, k).value;
              service <= 0.0 && (service == 0.0 <==> Hits(rels, PrefixLength(|rels|, k)) == 0)
  {
    if k > 0 && rels != [] {
      var n := PrefixLength(|rels|, k);
      var h := Hits(rels, n) as real;
      RatioFacts(h, n as real);
      DivideMonotone(h, n as real, n as real);
      if n < k && Hits(rels, n) > 0 {
        QuotientDrops(h, n as real, k as real);
      }
    } else if rels == [] {
      assert Hits(rels, 0) == 0;
    } else if k < 0 {
      NegativeShare(Hits(rels, PrefixLength(|rels|, k)), k);
    }
  }

  lemma NegativeShare(h: nat, k: int)
    requires k < 0
    ensures h as real / k as real <= 0.0 && (h as real / k as real == 0.0 <==> h == 0)
  {
    var q := h as real / k as real;
    assert q * k as real == h as real;
    ProductSign(-q, -(k as real));
  }

  // ---------------------------------------------------------------------------
  // Graded labels
  // ---------------------------------------------------------------------------

  lemma {:induction false} Pow2Grows(m: nat, n: nat)
    requires m < n
    ensures Pow2(m) < Pow2(n)
  {
    if m < n - 1 { Pow2Grows(m, n - 1); }
  }

  lemma GainOrder(x: nat, y: nat)
    ensures Pow2(x) >= Pow2(y) <==> x >= y
    ensures Pow2(x) - 1 > 0 <==> x > 0
  {
    if x < y { Pow2Grows(x, y); }
    if y < x { Pow2Grows(y, x); }
    if 0 < x { Pow2Grows(0, x); }
  }

  lemma {:induction false} InsertGain(x: nat, s: seq<int>)
    requires NonNegative(s)
    ensures NonNegative(Insert(x, s, Grade))
    ensures Insert(Pow2(x) - 1, Gains(s), Grade) == Gains(Insert(x, s, Grade))
  {
    hide Pow2;
    if s != [] {
      GainOrder(x, s[0]);
      InsertGain(x, s[1..]);
      GainsCons(s);
      GainsCons(Insert(x, s, Grade));
    }
    GainsCons([x] + s);
  }

  lemma GainsCons(s: seq<int>)
    requires NonNegative(s) && s != []
    ensures Gains(s) == [Pow2(s[0]) - 1] + Gains(s[1..])
  {
  }

  /** Sorting by label and sorting by gain give the same gains. */
  lemma {:induction false} IdealOfGains(rels: seq<int>)
    requires NonNegative(rels)
    ensures NonNegative(Ideal(rels)) && Ideal(Gains(rels)) == Gains(Ideal(rels))
  {
    if rels != [] {
      IdealOfGains(rels[1..]);
      assert Gains(rels) == [Pow2(rels[0]) - 1] + Gains(rels[1..]);
      InsertGain(rels[0], Ideal(rels[1..]));
    }
  }

  lemma {:induction false} GainOfGrades(d: nat -> real, rels: seq<int>, n: nat)
    requires Discounting(d) && NonNegative(rels) && n <= |rels|
    ensures Gain(d, Gains(rels), n) >= 0.0
    ensures Gain(d, Gains(rels), n) > 0.0 <==> Hits(rels, n) > 0
  {
    if n > 0 {
      GainOfGrades(d, rels, n - 1);
      GainOrder(rels[n - 1], 0);
      TermSign(Gains(rels)[n - 1], d(n - 1));
    }
  }

  lemma TermSign(g: int, w: real)
    requires g >= 0 && w > 0.0
    ensures Term(g, w) >= 0.0 && (Term(g, w) > 0.0 <==> g > 0)
  {
    ProductSign(g as real, w);
  }

  lemma GainsInjective(r: seq<int>, s: seq<int>)
    requires NonNegative(r) && NonNegative(s) && |r| == |s|
    ensures Gains(r) == Gains(s) <==> r == s
  {
    if Gains(r) == Gains(s) {
      forall i | 0 <= i < |r| ensures r[i] == s[i] {
        assert Gains(r)[i] == Gains(s)[i];
        GainOrder(r[i], s[i]);
        GainOrder(s[i], r[i]);
      }
    }
  }

  /** For graded labels too the service NDCG@k is in [0,1]; it is 0 exactly when the cut list
      has no hit, and 1 exactly when it has one and is in ideal order. */
  lemma ServiceNdcgInUnitInterval(d: nat -> real, rels: seq<int>, k: int)
    requires Discounting(d) && NonNegative(rels)
    ensures 0.0 <= ServiceNdcgAtK(d, rels, k) <= 1.0
    ensures var cut := Prefix(rels, k);
            && (ServiceNdcgAtK(d, rels, k) == 0.0 <==> Hits(cut, |cut|) == 0)
            && (ServiceNdcgAtK(d, rels, k) == 1.0 <==> Hits(cut, |cut|) > 0 && cut == Ideal(cut))
  {
    hide Gain, Hits, Gains;
    var cut := Prefix(rels, k);
    var n := |cut|;
    IdealNonNegative(cut);
    IdealOfGains(cut);
    GainOfGrades(d, cut, n);
    GainsInjective(cut, Ideal(cut));
    DcgAtMostIdeal(d, Gains(cut), n);
    SortDescCorrect(Gains(cut), Grade);
    if n > 0 {
      assert Prefix(Gains(cut), n) == Gains(cut) && Prefix(Ideal(Gains(cut)), n) == Ideal(Gains(cut));
      RatioOfIdeal(Gain(d, Gains(cut), n), Gain(d, Gains(Ideal(cut)), n));
    } else {
      NoLabels(d, cut);
    }
  }

  lemma NoLabels(d: nat -> real, cut: seq<int>)
    requires cut == []
    ensures Hits(cut, 0) == 0 && Ideal(cut) == [] && Gain(d, Gains(cut), 0) == Gain(d, Gains([]), 0) == 0.0
  {
  }

  lemma RatioOfIdeal(dcg: real, idcg: real)
    requires 0.0 <= dcg <= idcg
    ensures var v := if idcg > 0.0 then dcg / idcg else 0.0;
            0.0 <= v <= 1.0 && (v == 0.0 <==> dcg == 0.0) && (v == 1.0 <==> dcg == idcg > 0.0)
  {
    if idcg > 0.0 {
      RatioFacts(dcg, idcg);
      var v := dcg / idcg;
      assert v * idcg == dcg;
      ProductSign(v, idcg);
    }
  }

  /** Graded labels 1, 2: the service gains 2^r - 1, the pipeline r, so the values differ and
      the order known from binary labels is reversed. */
  lemma GradedNdcgsDiffer(d: nat -> real)
    requires Discounting(d)
    ensures ServiceNdcgAtK(d, [1, 2], 2) == (d(0) + 3.0 * d(1)) / (3.0 * d(0) + d(1))
    ensures NdcgAtK(d, [1, 2], 2) == (d(0) + 2.0 * d(1)) / (2.0 * d(0) + d(1))
    ensures ServiceNdcgAtK(d, [1, 2], 2) < NdcgAtK(d, [1, 2], 2)
  {
    var rels, x, y := [1, 2], d(0), d(1);
    IdealOfOneTwo();
    assert Pow2(1) == 2 && Pow2(2) == 4;
    assert Gains(rels) == [1, 3] && Gains([2, 1]) == [3, 1];
    GainOfTwo(d, 1, 3);
    GainOfTwo(d, 3, 1);
    GainOfTwo(d, 1, 2);
    GainOfTwo(d, 2, 1);
    hide Gain, Gains, Ideal;
    NdcgInUnitInterval(d, rels, 2);
    GradedRatios(x, y);
  }

  lemma IdealOfOneTwo()
    ensures Ideal([1, 2]) == [2, 1]
  {
    assert [1, 2][1..] == [2] && SortDesc([2], Grade) == [2];
    assert Insert(1, [2], Grade) == [2, 1];
  }

  lemma GainOfTwo(d: nat -> real, a: int, b: int)
    ensures Gain(d, [a, b], 2) == a as real * d(0) + b as real * d(1)
  {
    assert Gain(d, [a, b], 0) == 0.0;
  }

  lemma GradedRatios(x: real, y: real)
    requires x > y > 0.0
    ensures (x + 3.0 * y) / (3.0 * x + y) < (x + 2.0 * y) / (2.0 * x + y)
  {
    var p, q := (x + 3.0 * y) / (3.0 * x + y), (x + 2.0 * y) / (2.0 * x + y);
    var s, t := 3.0 * x + y, 2.0 * x + y;
    RatioFacts(x + 3.0 * y, s);
    RatioFacts(x + 2.0 * y, t);
    assert p * s == x + 3.0 * y && q * t == x + 2.0 * y;
    // 1 - p and 1 - q are 2 (x - y) / s and (x - y) / t
    assert (1.0 - p) * s == 2.0 * (x - y);
    assert (1.0 - q) * t == x - y;
    SmallerShortfall(1.0 - p, 1.0 - q, s, t, x - y);
  }

  lemma SmallerShortfall(p: real, q: real, s: real, t: real, g: real)
    requires s > 0.0 && t > 0.0 && g > 0.0 && p * s == 2.0 * g && q * t == g && s < 2.0 * t
    ensures p > q
  {
    ProductSign(q, t);
    ProductSign(2.0 * t - s, q);
    assert (2.0 * t - s) * q == 2.0 * g - q * s;
    assert (p - q) * s == 2.0 * g - q * s;
    ProductSign(p - q, s);
  }
}
