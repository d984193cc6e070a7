/** Lists as the repository's Python code uses them: option and result values,
    prefix slices, multiplicities and the stable descending sort. */
module Sequences {

  datatype Option<+T> = None | Some(value: T)

  datatype Result<+T> = Ok(value: T) | Err(error: string)

  /** How many elements the slice `s[:k]` of a list of length n keeps; a negative
      k counts from the end. */
  function PrefixLength(n: nat, k: int): (m: nat)
    ensures m <= n
  {
    if k >= n then n
    else if k >= 0 then k
    else if n + k >= 0 then n + k
    else 0
  }

  /** The slice `s[:k]`. */
  function Prefix<T>(s: seq<T>, k: int): seq<T> {
    s[..PrefixLength(|s|, k)]
  }

  ghost predicate Distinct<T>(s: seq<T>) {
    forall i, j :: 0 <= i < j < |s| ==> s[i] != s[j]
  }

  function Count<T(==)>(s: seq<T>, x: T): nat {
    if s == [] then 0 else Count(s[..|s| - 1], x) + (if s[|s| - 1] == x then 1 else 0)
  }

  lemma {:induction false} CountPositive<T>(s: seq<T>, x: T)
    ensures Count(s, x) > 0 <==> x in s
  {
    if s != [] {
      CountPositive(s[..|s| - 1], x);
      assert s == s[..|s| - 1] + [s[|s| - 1]];
    }
  }

  lemma {:induction false} CountDistinct<T>(s: seq<T>, x: T)
    requires Distinct(s) && x in s
    ensures Count(s, x) == 1
  {
    var n := |s| - 1;
    if s[n] == x {
      CountPositive(s[..n], x);
    } else {
      CountDistinct(s[..n], x);
    }
  }

  lemma {:induction false} CountTwice<T>(s: seq<T>, i: nat, j: nat)
    requires i < j < |s| && s[i] == s[j]
    ensures Count(s, s[i]) >= 2
  {
    var n := |s| - 1;
    if j == n {
      assert s[..n][i] == s[i];
      CountPositive(s[..n], s[i]);
    } else {
      CountTwice(s[..n], i, j);
    }
  }

  // Stable descending sort: what list.sort(key=..., reverse=True) computes.

  /** Inserts x before the first element whose key does not exceed x's. */
  function Insert<T>(x: T, s: seq<T>, key: T -> real): seq<T> {
    if s == [] || key(x) >= key(s[0]) then [x] + s else [s[0]] + Insert(x, s[1..], key)
  }

  function SortDesc<T>(s: seq<T>, key: T -> real): seq<T> {
    if s == [] then [] else Insert(s[0], SortDesc(s[1..], key), key)
  }

  ghost predicate Descending<T>(s: seq<T>, key: T -> real) {
    forall i, j :: 0 <= i < j < |s| ==> key(s[i]) >= key(s[j])
  }

  lemma {:induction false} InsertPermutes<T>(x: T, s: seq<T>, key: T -> real)
    ensures multiset(Insert(x, s, key)) == multiset(s) + multiset{x}
    ensures |Insert(x, s, key)| == |s| + 1
  {
    if s != [] && key(x) < key(s[0]) {
      InsertPermutes(x, s[1..], key);
      assert s == [s[0]] + s[1..];
    }
  }

  lemma {:induction false} InsertKeepsOrder<T>(x: T, s: seq<T>, key: T -> real)
    requires Descending(s, key)
    ensures Descending(Insert(x, s, key), key)
  {
    if s != [] && key(x) < key(s[0]) {
      var t := Insert(x, s[1..], key);
      assert Insert(x, s, key) == [s[0]] + t;
      forall y | y in s[1..] ensures key(s[0]) >= key(y) {
        var j :| 0 <= j < |s[1..]| && s[1..][j] == y;
        assert s[j + 1] == y;
      }
      InsertKeepsOrder(x, s[1..], key);
      InsertPermutes(x, s[1..], key);
      hide Insert, Descending;
      forall y | y in t ensures key(s[0]) >= key(y) {
        assert y in multiset(t);
      }
      GreatestInFront(s[0], t, key);
    } else {
      GreatestInFront(x, s, key);
    }
  }

  lemma GreatestInFront<T>(x: T, s: seq<T>, key: T -> real)
    requires Descending(s, key) && forall y :: y in s ==> key(x) >= key(y)
    ensures Descending([x] + s, key)
  {
  }

  /** The sort returns a descending permutation of its input. */
  lemma {:induction false} SortDescCorrect<T>(s: seq<T>, key: T -> real)
    ensures Descending(SortDesc(s, key), key)
    ensures multiset(SortDesc(s, key)) == multiset(s)
    ensures |SortDesc(s, key)| == |s|
  {
    if s != [] {
      var rest := SortDesc(s[1..], key);
      assert SortDesc(s, key) == Insert(s[0], rest, key);
      assert s == [s[0]] + s[1..];
      hide Insert, Descending, SortDesc;
      SortDescCorrect(s[1..], key);
      InsertPermutes(s[0], rest, key);
      InsertKeepsOrder(s[0], rest, key);
    } else {
      assert SortDesc(s, key) == [];
    }
  }

  lemma InSorted<T>(s: seq<T>, key: T -> real, x: T)
    ensures x in SortDesc(s, key) <==> x in s
  {
    SortDescCorrect(s, key);
    assert x in SortDesc(s, key) <==> x in multiset(SortDesc(s, key));
    assert x in s <==> x in multiset(s);
  }

  lemma CancelHead<T>(s: seq<T>, t: seq<T>)
    requires s != [] && t != [] && s[0] == t[0] && multiset(s) == multiset(t)
    ensures multiset(s[1..]) == multiset(t[1..])
  {
    assert s == [s[0]] + s[1..] && t == [t[0]] + t[1..];
    assert multiset(s[1..]) == multiset(s) - multiset{s[0]};
    assert multiset(t[1..]) == multiset(t) - multiset{s[0]};
  }

  lemma SamePermutationLength<T>(s: seq<T>, t: seq<T>)
    requires multiset(s) == multiset(t)
    ensures |s| == |t|
  {
    assert |multiset(s)| == |s| && |multiset(t)| == |t|;
  }

  lemma GreatestFirst<T>(s: seq<T>, t: seq<T>, key: T -> real)
    requires s != [] && Descending(s, key) && multiset(s) == multiset(t)
    ensures t != [] && t[0] in s && key(s[0]) >= key(t[0])
  {
    SamePermutationLength(s, t);
    assert t[0] in multiset(s);
    var i :| 0 <= i < |s| && s[i] == t[0];
  }

  /** Equal keys mean equal elements. */
  ghost predicate KeyIdentifies<T>(s: seq<T>, key: T -> real) {
    forall x, y :: x in s && y in s && key(x) == key(y) ==> x == y
  }

  lemma TailKeeps<T>(s: seq<T>, key: T -> real)
    requires s != [] && Descending(s, key)
    ensures Descending(s[1..], key) && s == [s[0]] + s[1..]
    ensures KeyIdentifies(s, key) ==> KeyIdentifies(s[1..], key)
  {
    assert forall x :: x in s[1..] ==> x in s;
  }

  lemma SameHead<T>(s: seq<T>, t: seq<T>, key: T -> real)
    requires s != [] && Descending(s, key) && Descending(t, key) && multiset(s) == multiset(t) && KeyIdentifies(s, key)
    ensures t != [] && s[0] == t[0]
  {
    GreatestFirst(s, t, key);
    GreatestFirst(t, s, key);
  }

  /** A list whose keys identify its elements has one descending order. */
  lemma {:induction false} DescendingUnique<T>(s: seq<T>, t: seq<T>, key: T -> real)
    requires Descending(s, key) && Descending(t, key) && multiset(s) == multiset(t) && KeyIdentifies(s, key)
    ensures s == t
  {
    SamePermutationLength(s, t);
    if s != [] {
      hide Descending, KeyIdentifies;
      SameHead(s, t, key);
      CancelHead(s, t);
      TailKeeps(s, key);
      TailKeeps(t, key);
      DescendingUnique(s[1..], t[1..], key);
    }
  }

  lemma {:induction false} InsertCommutes<T>(x: T, y: T, s: seq<T>, key: T -> real)
    requires key(x) == key(y) ==> x == y
    ensures Insert(x, Insert(y, s, key), key) == Insert(y, Insert(x, s, key), key)
  {
    if s != [] {
      InsertCommutes(x, y, s[1..], key);
    }
  }

  /** Exchanging two neighbours does not change the sorted list when equal keys
      mean equal elements. */
  lemma {:induction false} SortIgnoresSwap<T>(s: seq<T>, i: nat, key: T -> real)
    requires i + 1 < |s|
    requires key(s[i]) == key(s[i + 1]) ==> s[i] == s[i + 1]
    ensures SortDesc(s[i := s[i + 1]][i + 1 := s[i]], key) == SortDesc(s, key)
  {
    var t := s[i := s[i + 1]][i + 1 := s[i]];
    if i == 0 {
      assert t[1..][1..] == s[1..][1..];
      InsertCommutes(s[0], s[1], SortDesc(s[1..][1..], key), key);
    } else {
      SortIgnoresSwap(s[1..], i - 1, key);
      assert t[1..] == s[1..][i - 1 := s[1..][i]][i - 1 + 1 := s[1..][i - 1]];
    }
  }

  /** Where Insert puts an element: behind those with a larger key, before all others. */
  lemma {:induction false} InsertPosition<T>(x: T, s: seq<T>, key: T -> real) returns (p: nat)
    ensures p <= |s| && Insert(x, s, key) == s[..p] + [x] + s[p..]
    ensures forall i :: 0 <= i < p ==> key(s[i]) > key(x)
    ensures p < |s| ==> key(x) >= key(s[p])
  {
    p := 0;
    if s != [] && key(x) < key(s[0]) {
      p := InsertPosition(x, s[1..], key);
      p := p + 1;
      assert s[..p] == [s[0]] + s[1..][..p - 1] && s[p..] == s[1..][p - 1..];
    }
  }

  /** The element at i of t stands before that at j in s. */
  ghost predicate InOrderIn<T>(s: seq<T>, t: seq<T>, i: nat, j: nat) {
    i < |t| && j < |t| && exists p, q :: 0 <= p < q < |s| && s[p] == t[i] && s[q] == t[j]
  }

  lemma InOrderInTail<T>(s: seq<T>, t: seq<T>, i: nat, j: nat, t': seq<T>, i': nat, j': nat)
    requires s != [] && InOrderIn(s[1..], t, i, j) && i' < |t'| && j' < |t'| && t'[i'] == t[i] && t'[j'] == t[j]
    ensures InOrderIn(s, t', i', j')
  {
    var p, q :| 0 <= p < q < |s[1..]| && s[1..][p] == t[i] && s[1..][q] == t[j];
    assert s[p + 1] == t'[i'] && s[q + 1] == t'[j'];
  }

  /** The sort is stable: elements with equal keys keep their order. */
  lemma {:induction false} SortIsStable<T>(s: seq<T>, key: T -> real, i: nat, j: nat)
    requires i < j < |SortDesc(s, key)| && key(SortDesc(s, key)[i]) == key(SortDesc(s, key)[j])
    ensures InOrderIn(s, SortDesc(s, key), i, j)
  {
    var rest, sorted := SortDesc(s[1..], key), SortDesc(s, key);
    var p := InsertPosition(s[0], rest, key);
    hide Insert, SortDesc, InOrderIn;
    AroundInserted(s[0], rest, p, sorted, i);
    AroundInserted(s[0], rest, p, sorted, j);
    if i == p {
      InSorted(s[1..], key, sorted[j]);
      HeadFirst(s, sorted, i, j);
    } else if j == p {
      assert false;
    } else {
      var i', j' := if i < p then i else i - 1, if j < p then j else j - 1;
      SortIsStable(s[1..], key, i', j');
      InOrderInTail(s, rest, i', j', sorted, i, j);
    }
  }

  lemma AroundInserted<T>(x: T, s: seq<T>, p: nat, t: seq<T>, i: nat)
    requires p <= |s| && t == s[..p] + [x] + s[p..] && i < |t|
    ensures |t| == |s| + 1
    ensures t[i] == if i < p then s[i] else if i == p then x else s[i - 1]
  {
  }

  lemma HeadFirst<T>(s: seq<T>, t: seq<T>, i: nat, j: nat)
    requires s != [] && i < |t| && j < |t| && t[i] == s[0] && t[j] in s[1..]
    ensures InOrderIn(s, t, i, j)
  {
    var q :| 0 <= q < |s[1..]| && s[1..][q] == t[j];
    assert s[q + 1] == t[j];
  }
}
