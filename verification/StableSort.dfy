/**
 Stable sorting with a comparator of texts that need not tell all texts apart: what the
 order of the input can change, and what it cannot.
 */
module StableSort {
  import opened Ordering
  import opened JsonText

  type Comparator = (Text, Text) -> int

  function Insert<T>(cmp: Comparator, key: T -> Text, sorted: seq<T>, x: T): (r: seq<T>)
    ensures multiset(r) == multiset(sorted) + multiset{x}
  {
    if |sorted| == 0 then [x]
    else
      var n := |sorted| - 1;
      assert sorted == sorted[..n] + [sorted[n]];
      if cmp(key(sorted[n]), key(x)) <= 0 then sorted + [x] else Insert(cmp, key, sorted[..n], x) + [sorted[n]]
  }

  /** Elements that compare as equal keep their order. */
  function SortBy<T>(cmp: Comparator, key: T -> Text, xs: seq<T>): (r: seq<T>)
    ensures multiset(r) == multiset(xs)
  {
    if |xs| == 0 then []
    else
      var n := |xs| - 1;
      assert xs == xs[..n] + [xs[n]];
      Insert(cmp, key, SortBy(cmp, key, xs[..n]), xs[n])
  }

  lemma {:induction false} SamePermutation<T>(xs: seq<T>, ys: seq<T>)
    requires multiset(xs) == multiset(ys)
    ensures |xs| == |ys|
    ensures forall x :: x in xs ==> x in ys
    ensures forall x :: x in ys ==> x in xs
  {
    assert |multiset(xs)| == |xs| && |multiset(ys)| == |ys|;
    forall x ensures x in xs <==> x in ys {
      assert x in xs <==> x in multiset(xs);
      assert x in ys <==> x in multiset(ys);
    }
  }

  /** What a sort requires of its comparator: a total preorder. */
  ghost predicate Consistent(cmp: Comparator) {
    && (forall a: Text :: cmp(a, a) == 0)
    && (forall a: Text, b: Text :: cmp(a, b) < 0 <==> cmp(b, a) > 0)
    && (forall a: Text, b: Text, c: Text :: cmp(a, b) <= 0 && cmp(b, c) <= 0 ==> cmp(a, c) <= 0)
  }

  function By(cmp: Comparator): (Text, Text) -> bool {
    (a, b) => cmp(a, b) < 0
  }

  lemma {:induction false} ConsistentOrder(cmp: Comparator)
    requires Consistent(cmp)
    ensures PartialOrder(By(cmp))
  {
    var less := By(cmp);
    forall a: Text, b: Text, c: Text | less(a, b) && less(b, c) ensures less(a, c) {
      assert cmp(a, c) <= 0 && (cmp(c, a) <= 0 ==> cmp(b, a) <= 0);
    }
  }

  // ----- sorted sequences -----

  ghost predicate SortedBy<T>(cmp: Comparator, key: T -> Text, xs: seq<T>) {
    forall i, j :: 0 <= i < j < |xs| ==> cmp(key(xs[i]), key(xs[j])) <= 0
  }

  ghost predicate AllUpTo<T>(cmp: Comparator, key: T -> Text, xs: seq<T>, x: T) {
    forall y :: y in xs ==> cmp(key(y), key(x)) <= 0
  }

  lemma {:induction false} SortedSnoc<T>(cmp: Comparator, key: T -> Text, xs: seq<T>, x: T)
    ensures SortedBy(cmp, key, xs + [x]) <==> SortedBy(cmp, key, xs) && AllUpTo(cmp, key, xs, x)
  {
    var ys := xs + [x];
    assert forall i :: 0 <= i < |xs| ==> ys[i] == xs[i] && xs[i] in xs;
    assert ys[|xs|] == x;
    if SortedBy(cmp, key, ys) {
      forall y | y in xs ensures cmp(key(y), key(x)) <= 0 {
        var i :| 0 <= i < |xs| && xs[i] == y;
        assert cmp(key(ys[i]), key(ys[|xs|])) <= 0;
      }
      forall i, j | 0 <= i < j < |xs| ensures cmp(key(xs[i]), key(xs[j])) <= 0 {
        assert cmp(key(ys[i]), key(ys[j])) <= 0;
      }
    }
  }

  lemma {:induction false} InsertSorted<T>(cmp: Comparator, key: T -> Text, sorted: seq<T>, x: T)
    requires Consistent(cmp) && SortedBy(cmp, key, sorted)
    ensures SortedBy(cmp, key, Insert(cmp, key, sorted, x))
    decreases |sorted|
  {
    hide SortedBy;
    if |sorted| == 0 {
      SortedSnoc(cmp, key, sorted, x);
      assert sorted + [x] == [x];
    } else {
      var n := |sorted| - 1;
      var last := sorted[n];
      assert sorted == sorted[..n] + [last];
      SortedSnoc(cmp, key, sorted[..n], last);
      if cmp(key(last), key(x)) > 0 {
        InsertSorted(cmp, key, sorted[..n], x);
        var s := Insert(cmp, key, sorted[..n], x);
        SamePermutation(s, sorted[..n] + [x]);
        SortedSnoc(cmp, key, s, last);
      } else {
        SortedSnoc(cmp, key, sorted, x);
      }
    }
  }

  lemma {:induction false} SortSorted<T>(cmp: Comparator, key: T -> Text, xs: seq<T>)
    requires Consistent(cmp)
    ensures SortedBy(cmp, key, SortBy(cmp, key, xs))
    decreases |xs|
  {
    hide Insert, Consistent, SortedBy;
    if |xs| > 0 {
      SortSorted(cmp, key, xs[..|xs| - 1]);
      InsertSorted(cmp, key, SortBy(cmp, key, xs[..|xs| - 1]), xs[|xs| - 1]);
    } else {
      NothingSorted(cmp, key);
    }
  }

  lemma {:induction false} NothingSorted<T>(cmp: Comparator, key: T -> Text)
    ensures SortedBy(cmp, key, [])
  {
  }

  /** Two different elements never compare as equal. */
  ghost predicate TieFree<T(!new)>(cmp: Comparator, key: T -> Text, xs: seq<T>) {
    forall x, y :: x in xs && y in xs && cmp(key(x), key(y)) == 0 ==> x == y
  }

  lemma {:induction false} TailSorted<T>(cmp: Comparator, key: T -> Text, xs: seq<T>)
    requires Consistent(cmp) && |xs| > 0 && SortedBy(cmp, key, xs)
    ensures SortedBy(cmp, key, xs[1..])
    ensures forall y :: y in xs ==> cmp(key(xs[0]), key(y)) <= 0
  {
  }

  lemma {:induction false} TailBag<T>(xs: seq<T>)
    requires |xs| > 0
    ensures multiset(xs[1..]) == multiset(xs) - multiset{xs[0]}
    ensures forall y :: y in xs[1..] ==> y in xs
  {
    assert xs == [xs[0]] + xs[1..];
  }

  /** Without ties, there is only one way to sort. */
  lemma {:induction false} SortedUnique<T(!new)>(cmp: Comparator, key: T -> Text, xs: seq<T>, ys: seq<T>)
    requires Consistent(cmp) && TieFree(cmp, key, xs) && multiset(xs) == multiset(ys)
    requires SortedBy(cmp, key, xs) && SortedBy(cmp, key, ys)
    ensures xs == ys
    decreases |xs|
  {
    hide SortedBy;
    SamePermutation(xs, ys);
    if |xs| > 0 {
      TailSorted(cmp, key, xs);
      TailSorted(cmp, key, ys);
      assert xs[0] in ys && ys[0] in xs;
      assert cmp(key(xs[0]), key(ys[0])) == 0;
      TailBag(xs);
      TailBag(ys);
      SortedUnique(cmp, key, xs[1..], ys[1..]);
    }
  }

  // ----- stability -----

  /** The elements that compare as equal to `k`, in order. */
  function Class<T>(cmp: Comparator, key: T -> Text, xs: seq<T>, k: Text): seq<T> {
    if |xs| == 0 then []
    else
      var n := |xs| - 1;
      Class(cmp, key, xs[..n], k) + if cmp(key(xs[n]), k) == 0 then [xs[n]] else []
  }

  lemma {:induction false} ClassSnoc<T>(cmp: Comparator, key: T -> Text, xs: seq<T>, x: T, k: Text)
    ensures Class(cmp, key, xs + [x], k) == Class(cmp, key, xs, k) + if cmp(key(x), k) == 0 then [x] else []
  {
    assert (xs + [x])[..|xs|] == xs;
  }

  lemma {:induction false} InsertClass<T>(cmp: Comparator, key: T -> Text, sorted: seq<T>, x: T, k: Text)
    requires Consistent(cmp)
    ensures Class(cmp, key, Insert(cmp, key, sorted, x), k)
         == Class(cmp, key, sorted, k) + if cmp(key(x), k) == 0 then [x] else []
    decreases |sorted|
  {
    hide Class;
    if |sorted| == 0 {
      ClassSnoc(cmp, key, sorted, x, k);
      assert sorted + [x] == [x];
    } else {
      var n := |sorted| - 1;
      var last := sorted[n];
      assert sorted == sorted[..n] + [last];
      if cmp(key(last), key(x)) <= 0 {
        ClassSnoc(cmp, key, sorted, x, k);
      } else {
        InsertClass(cmp, key, sorted[..n], x, k);
        ClassSnoc(cmp, key, Insert(cmp, key, sorted[..n], x), last, k);
        ClassSnoc(cmp, key, sorted[..n], last, k);
        NotBoth(cmp, key(last), key(x), k);
      }
    }
  }

  lemma {:induction false} NotBoth(cmp: Comparator, a: Text, b: Text, k: Text)
    requires Consistent(cmp) && cmp(a, b) > 0
    ensures !(cmp(a, k) == 0 && cmp(b, k) == 0)
  {
    assert cmp(a, k) <= 0 && cmp(k, b) <= 0 ==> cmp(a, b) <= 0;
  }

  /** Stability: sorting leaves elements that compare as equal in their order. */
  lemma {:induction false} SortStable<T>(cmp: Comparator, key: T -> Text, xs: seq<T>, k: Text)
    requires Consistent(cmp)
    ensures Class(cmp, key, SortBy(cmp, key, xs), k) == Class(cmp, key, xs, k)
    decreases |xs|
  {
    hide Consistent;
    if |xs| > 0 {
      var n := |xs| - 1;
      SortStable(cmp, key, xs[..n], k);
      InsertClass(cmp, key, SortBy(cmp, key, xs[..n]), xs[n], k);
    }
  }

  lemma {:induction false} ClassFirst<T>(cmp: Comparator, key: T -> Text, xs: seq<T>, k: Text)
    requires |xs| > 0 && cmp(key(xs[0]), k) == 0
    ensures |Class(cmp, key, xs, k)| > 0 && Class(cmp, key, xs, k)[0] == xs[0]
    decreases |xs|
  {
    if |xs| > 1 {
      ClassFirst(cmp, key, xs[..|xs| - 1], k);
    } else {
      assert Class(cmp, key, xs[..0], k) == [];
    }
  }

  // ----- when the order of the input does not matter -----

  ghost predicate OrderFree<T(!new)>(cmp: Comparator, key: T -> Text, xs: seq<T>) {
    forall ys: seq<T> :: multiset(ys) == multiset(xs) ==> SortBy(cmp, key, ys) == SortBy(cmp, key, xs)
  }

  lemma {:induction false} TieFreeSorts<T(!new)>(cmp: Comparator, key: T -> Text, xs: seq<T>, ys: seq<T>)
    requires Consistent(cmp) && TieFree(cmp, key, xs) && multiset(xs) == multiset(ys)
    ensures SortBy(cmp, key, xs) == SortBy(cmp, key, ys)
  {
    hide SortBy, SortedBy, Consistent;
    SortSorted(cmp, key, xs);
    SortSorted(cmp, key, ys);
    SamePermutation(SortBy(cmp, key, xs), xs);
    SortedUnique(cmp, key, SortBy(cmp, key, xs), SortBy(cmp, key, ys));
  }

  lemma {:induction false} TakeOut<T>(xs: seq<T>, x: T) returns (rest: seq<T>)
    requires x in xs
    ensures multiset(xs) == multiset(rest) + multiset{x}
  {
    var i :| 0 <= i < |xs| && xs[i] == x;
    rest := xs[..i] + xs[i + 1..];
    assert xs == xs[..i] + [x] + xs[i + 1..];
  }

  /** Two orders of the same elements that differ in which of a tied pair comes first. */
  lemma {:induction false} TwoOrders<T>(xs: seq<T>, x: T, y: T) returns (rest: seq<T>)
    requires x in xs && y in xs && x != y
    ensures multiset([x, y] + rest) == multiset(xs) && multiset([y, x] + rest) == multiset(xs)
  {
    var ys := TakeOut(xs, x);
    assert y in multiset(xs) && y in multiset(ys);
    rest := TakeOut(ys, y);
  }

  /** Whichever of two tied elements comes first in the input comes first after any number of sorts. */
  lemma {:induction false} TiedOrderKept<T>(cmp: Comparator, key: T -> Text, x: T, y: T, rest: seq<T>,
                                            s: seq<T>, t: seq<T>)
    requires Consistent(cmp) && cmp(key(x), key(y)) == 0 && x != y
    requires Class(cmp, key, s, key(x)) == Class(cmp, key, [x, y] + rest, key(x))
    requires Class(cmp, key, t, key(x)) == Class(cmp, key, [y, x] + rest, key(x))
    ensures Class(cmp, key, s, key(x)) != Class(cmp, key, t, key(x)) && s != t
    ensures |Class(cmp, key, s, key(x))| > 0 && Class(cmp, key, s, key(x))[0] == x
    ensures |Class(cmp, key, t, key(x))| > 0 && Class(cmp, key, t, key(x))[0] == y
  {
    hide Class;
    assert cmp(key(x), key(x)) == 0 && cmp(key(y), key(x)) == 0;
    ClassFirst(cmp, key, [x, y] + rest, key(x));
    ClassFirst(cmp, key, [y, x] + rest, key(x));
  }

  /** The order of the input does not matter exactly when no two different elements tie. */
  lemma {:induction false} OrderFreeIff<T(!new)>(cmp: Comparator, key: T -> Text, xs: seq<T>)
    requires Consistent(cmp)
    ensures OrderFree(cmp, key, xs) <==> TieFree(cmp, key, xs)
  {
    hide SortBy, Consistent, Class;
    if TieFree(cmp, key, xs) {
      forall ys: seq<T> | multiset(ys) == multiset(xs) ensures SortBy(cmp, key, ys) == SortBy(cmp, key, xs) {
        TieFreeSorts(cmp, key, xs, ys);
      }
    } else {
      var x, y :| x in xs && y in xs && cmp(key(x), key(y)) == 0 && x != y;
      var rest := TwoOrders(xs, x, y);
      SortStable(cmp, key, [x, y] + rest, key(x));
      SortStable(cmp, key, [y, x] + rest, key(x));
      TiedOrderKept(cmp, key, x, y, rest, SortBy(cmp, key, [x, y] + rest), SortBy(cmp, key, [y, x] + rest));
    }
  }

  // ----- keys -----

  function Keys<T>(key: T -> Text, xs: seq<T>): (r: seq<Text>)
    ensures |r| == |xs| && forall i :: 0 <= i < |r| ==> r[i] == key(xs[i])
  {
    seq(|xs|, i requires 0 <= i < |xs| => key(xs[i]))
  }

  ghost predicate KeysDistinct<T>(key: T -> Text, xs: seq<T>) {
    forall i, j :: 0 <= i < j < |xs| ==> key(xs[i]) != key(xs[j])
  }

  /** Whether some key occurs twice does not depend on the order. */
  lemma {:induction false} DistinctPermutation<T>(key: T -> Text, xs: seq<T>, ys: seq<T>)
    requires multiset(xs) == multiset(ys) && KeysDistinct(key, xs)
    ensures KeysDistinct(key, ys)
  {
    forall i, j | 0 <= i < j < |ys| ensures key(ys[i]) != key(ys[j]) {
      if ys[i] == ys[j] {
        TwiceInBoth(ys, i, j);
        OnceInDistinct(key, xs, ys[i]);
        assert false;
      } else {
        SamePermutation(xs, ys);
        assert ys[i] in xs && ys[j] in xs;
        var k :| 0 <= k < |xs| && xs[k] == ys[i];
        var l :| 0 <= l < |xs| && xs[l] == ys[j];
        assert k != l;
      }
    }
  }

  lemma {:induction false} TwiceInBoth<T>(ys: seq<T>, i: nat, j: nat)
    requires i < j < |ys| && ys[i] == ys[j]
    ensures multiset(ys)[ys[i]] >= 2
  {
    assert ys == ys[..j] + ys[j..];
    assert ys[i] == ys[..j][i] && ys[i] in ys[..j] && ys[j] == ys[j..][0] && ys[j] in ys[j..];
  }

  lemma {:induction false} OnceInDistinct<T>(key: T -> Text, xs: seq<T>, x: T)
    requires KeysDistinct(key, xs)
    ensures multiset(xs)[x] <= 1
    decreases |xs|
  {
    if |xs| > 0 {
      var n := |xs| - 1;
      assert xs == xs[..n] + [xs[n]];
      OnceInDistinct(key, xs[..n], x);
      if x == xs[n] {
        assert forall i :: 0 <= i < n ==> xs[..n][i] != x;
        assert x !in multiset(xs[..n]);
      }
    }
  }

  /** Without ties, distinct keys come out strictly increasing. */
  lemma {:induction false} SortIncreasing<T(!new)>(cmp: Comparator, key: T -> Text, xs: seq<T>)
    requires Consistent(cmp) && TieFree(cmp, key, xs) && KeysDistinct(key, xs)
    ensures Increasing(By(cmp), Keys(key, SortBy(cmp, key, xs)))
  {
    hide SortBy, Consistent;
    var s := SortBy(cmp, key, xs);
    SortSorted(cmp, key, xs);
    DistinctPermutation(key, xs, s);
    SamePermutation(s, xs);
    forall i, j | 0 <= i < j < |s| ensures cmp(key(s[i]), key(s[j])) < 0 {
      assert s[i] in xs && s[j] in xs;
    }
  }

  // ----- sorting what elements are mapped to -----

  function Map<S, T>(f: S -> T, xs: seq<S>): (r: seq<T>)
    ensures |r| == |xs| && forall i :: 0 <= i < |r| ==> r[i] == f(xs[i])
  {
    seq(|xs|, i requires 0 <= i < |xs| => f(xs[i]))
  }

  ghost predicate KeepsKeys<S, T>(f: S -> T, key: S -> Text, key': T -> Text, xs: seq<S>) {
    forall x :: x in xs ==> key'(f(x)) == key(x)
  }

  lemma {:induction false} MapSnoc<S, T>(f: S -> T, xs: seq<S>, x: S)
    ensures Map(f, xs + [x]) == Map(f, xs) + [f(x)]
  {
  }

  lemma {:induction false} InsertSnoc<T>(cmp: Comparator, key: T -> Text, ys: seq<T>, y: T, x: T)
    ensures Insert(cmp, key, ys + [y], x)
         == if cmp(key(y), key(x)) <= 0 then ys + [y] + [x] else Insert(cmp, key, ys, x) + [y]
  {
    assert (ys + [y])[..|ys|] == ys;
  }

  lemma {:induction false} InsertNone<T>(cmp: Comparator, key: T -> Text, x: T)
    ensures Insert(cmp, key, [], x) == [x]
  {
  }

  lemma {:induction false} InsertMapped<S, T>(cmp: Comparator, f: S -> T, key: S -> Text, key': T -> Text,
                                              sorted: seq<S>, x: S)
    requires KeepsKeys(f, key, key', sorted) && key'(f(x)) == key(x)
    ensures Insert(cmp, key', Map(f, sorted), f(x)) == Map(f, Insert(cmp, key, sorted, x))
    decreases |sorted|
  {
    hide Insert;
    if |sorted| == 0 {
      InsertNone(cmp, key, x);
      InsertNone(cmp, key', f(x));
      assert sorted == [] && Map(f, sorted) == [] && Map(f, [x]) == [f(x)];
    } else {
      hide Map;
      var n := |sorted| - 1;
      var ys, y := sorted[..n], sorted[n];
      assert sorted == ys + [y] && y in sorted;
      assert forall z :: z in ys ==> z in sorted;
      MapSnoc(f, ys, y);
      InsertSnoc(cmp, key, ys, y, x);
      InsertSnoc(cmp, key', Map(f, ys), f(y), f(x));
      if cmp(key(y), key(x)) <= 0 {
        MapSnoc(f, sorted, x);
      } else {
        InsertMapped(cmp, f, key, key', ys, x);
        MapSnoc(f, Insert(cmp, key, ys, x), y);
      }
    }
  }

  lemma {:induction false} SortStep<T>(cmp: Comparator, key: T -> Text, xs: seq<T>, x: T)
    ensures SortBy(cmp, key, xs + [x]) == Insert(cmp, key, SortBy(cmp, key, xs), x)
  {
    hide Insert;
    assert (xs + [x])[..|xs|] == xs;
  }

  /** A map that keeps keys may be applied before or after sorting. */
  lemma {:induction false} SortMapped<S, T>(cmp: Comparator, f: S -> T, key: S -> Text, key': T -> Text, xs: seq<S>)
    requires KeepsKeys(f, key, key', xs)
    ensures SortBy(cmp, key', Map(f, xs)) == Map(f, SortBy(cmp, key, xs))
    decreases |xs|
  {
    hide Insert, SortBy;
    if |xs| == 0 {
      NothingToSort(cmp, key);
      NothingToSort(cmp, key');
      assert xs == [] && Map(f, xs) == [];
    } else {
      var n := |xs| - 1;
      var ys, x := xs[..n], xs[n];
      assert xs == ys + [x];
      assert Map(f, xs) == Map(f, ys) + [f(x)];
      SortMapped(cmp, f, key, key', ys);
      SamePermutation(SortBy(cmp, key, ys), ys);
      InsertMapped(cmp, f, key, key', SortBy(cmp, key, ys), x);
      SortStep(cmp, key, ys, x);
      SortStep(cmp, key', Map(f, ys), f(x));
    }
  }

  lemma {:induction false} NothingToSort<T>(cmp: Comparator, key: T -> Text)
    ensures SortBy(cmp, key, []) == []
  {
  }
}
