/** Strict total orders, strictly increasing sequences and the byte order of texts. */
module Ordering {
  ghost predicate PartialOrder<T(!new)>(less: (T, T) -> bool) {
    && (forall x :: !less(x, x))
    && (forall x, y, z :: less(x, y) && less(y, z) ==> less(x, z))
  }

  ghost predicate StrictOrder<T(!new)>(less: (T, T) -> bool) {
    PartialOrder(less) && forall x, y :: less(x, y) || x == y || less(y, x)
  }

  predicate Increasing<T>(less: (T, T) -> bool, xs: seq<T>) {
    forall i, j :: 0 <= i < j < |xs| ==> less(xs[i], xs[j])
  }

  function Elements<T>(xs: seq<T>): set<T> {
    set x | x in xs
  }

  lemma FirstIsElement<T>(xs: seq<T>)
    ensures |xs| > 0 ==> xs[0] in Elements(xs)
    ensures |xs| == 0 <==> Elements(xs) == {}
  {
    assert |xs| > 0 ==> xs[0] in xs;
  }

  /** An increasing sequence is determined by its elements. */
  lemma {:induction false} IncreasingUnique<T(!new)>(less: (T, T) -> bool, xs: seq<T>, ys: seq<T>)
    requires PartialOrder(less) && Increasing(less, xs) && Increasing(less, ys)
    requires Elements(xs) == Elements(ys)
    ensures xs == ys
    decreases |xs|
  {
    FirstIsElement(ys);
    if |xs| > 0 {
      assert xs[0] in Elements(ys) && (|ys| > 0 ==> ys[0] in Elements(xs));
      assert |ys| > 0 && xs[0] == ys[0];
      forall x ensures x in Elements(xs[1..]) <==> x in Elements(ys[1..]) {
        assert x in xs[1..] <==> x in xs && x != xs[0] by { IncreasingTail(less, xs, x); }
        assert x in ys[1..] <==> x in ys && x != ys[0] by { IncreasingTail(less, ys, x); }
        assert x in xs <==> x in Elements(xs);
        assert x in ys <==> x in Elements(ys);
      }
      IncreasingUnique(less, xs[1..], ys[1..]);
      assert xs == [xs[0]] + xs[1..] && ys == [ys[0]] + ys[1..];
    }
  }

  lemma {:induction false} IncreasingTail<T(!new)>(less: (T, T) -> bool, xs: seq<T>, x: T)
    requires PartialOrder(less) && Increasing(less, xs) && |xs| > 0
    ensures x in xs[1..] <==> x in xs && x != xs[0]
  {
    if x in xs[1..] {
      var i :| 0 <= i < |xs| - 1 && xs[1..][i] == x;
      assert less(xs[0], xs[i + 1]);
    }
    assert xs == [xs[0]] + xs[1..];
  }

  /** Every element of an increasing sequence occurs in it once. */
  lemma {:induction false} IncreasingOnce<T(!new)>(less: (T, T) -> bool, xs: seq<T>, x: T)
    requires StrictOrder(less) && Increasing(less, xs) && x in xs
    ensures multiset(xs)[x] == 1
    decreases |xs|
  {
    assert xs == [xs[0]] + xs[1..];
    IncreasingTail(less, xs, x);
    if x != xs[0] {
      IncreasingOnce(less, xs[1..], x);
    } else {
      assert x !in multiset(xs[1..]);
    }
  }

  predicate IsLeast<T>(less: (T, T) -> bool, s: set<T>, m: T) {
    m in s && forall x :: x in s ==> x == m || less(m, x)
  }

  lemma {:induction false} LeastExists<T(!new)>(less: (T, T) -> bool, s: set<T>)
    requires StrictOrder(less) && s != {}
    ensures exists m :: IsLeast(less, s, m)
    decreases |s|
  {
    var x :| x in s;
    if s == {x} {
      assert IsLeast(less, s, x);
    } else {
      var rest := s - {x};
      assert s == rest + {x};
      LeastExists(less, rest);
      var m :| IsLeast(less, rest, m);
      forall y | y in s ensures y == x || y == m || less(m, y) { assert y != x ==> y in rest; }
      assert IsLeast(less, s, if less(x, m) then x else m);
    }
  }

  /** The elements of a set in increasing order. */
  function Sorted<T(!new)>(less: (T, T) -> bool, s: set<T>): (r: seq<T>)
    requires StrictOrder(less)
    ensures Increasing(less, r) && Elements(r) == s
    decreases |s|
  {
    if s == {} then []
    else
      LeastExists(less, s);
      var m :| IsLeast(less, s, m);
      var rest := Sorted(less, s - {m});
      IncreasingCons(less, m, rest);
      assert s == {m} + (s - {m});
      [m] + rest
  }

  lemma {:induction false} IncreasingCons<T(!new)>(less: (T, T) -> bool, m: T, rest: seq<T>)
    requires Increasing(less, rest) && forall x :: x in Elements(rest) ==> less(m, x)
    ensures Increasing(less, [m] + rest) && Elements([m] + rest) == {m} + Elements(rest)
  {
    forall i | 0 <= i < |rest| ensures less(m, rest[i]) { assert rest[i] in Elements(rest); }
    forall x ensures x in Elements([m] + rest) <==> x == m || x in Elements(rest) {
      assert x in [m] + rest <==> x == m || x in rest;
    }
  }

  // ----- texts -----

  /** Lexicographic order by code point, which is the byte order of the UTF-8 encodings. */
  predicate TextLess(a: string, b: string)
    decreases |a|
  {
    if |b| == 0 then false
    else if |a| == 0 then true
    else if a[0] != b[0] then a[0] < b[0]
    else TextLess(a[1..], b[1..])
  }

  /** The texts agree on the first `n` characters; then the first one ends, or has the smaller character. */
  ghost predicate LessAt(a: string, b: string, n: nat) {
    n <= |a| && n < |b| && a[..n] == b[..n] && (n == |a| || a[n] < b[n])
  }

  /** One text is less than another exactly when it is a proper prefix or smaller at the first difference. */
  lemma {:induction false} TextLessIff(a: string, b: string)
    ensures TextLess(a, b) <==> exists n: nat :: LessAt(a, b, n)
    decreases |a|
  {
    if |a| == 0 || |b| == 0 {
      assert |a| == 0 && |b| > 0 ==> LessAt(a, b, 0);
    } else if a[0] != b[0] {
      if a[0] < b[0] { assert LessAt(a, b, 0); }
      if exists n: nat :: LessAt(a, b, n) {
        var n: nat :| LessAt(a, b, n);
        assert n > 0 ==> a[..n][0] == b[..n][0];
      }
    } else {
      TextLessIff(a[1..], b[1..]);
      if exists n: nat :: LessAt(a[1..], b[1..], n) {
        var n: nat :| LessAt(a[1..], b[1..], n);
        assert a[..n + 1] == [a[0]] + a[1..][..n] && b[..n + 1] == [b[0]] + b[1..][..n];
        assert LessAt(a, b, n + 1);
      }
      if exists n: nat :: LessAt(a, b, n) {
        var n: nat :| LessAt(a, b, n);
        assert n > 0;
        assert a[1..][..n - 1] == a[..n][1..] && b[1..][..n - 1] == b[..n][1..];
        assert LessAt(a[1..], b[1..], n - 1);
      }
    }
  }

  lemma {:induction false} TextIrreflexive(a: string)
    ensures !TextLess(a, a)
    decreases |a|
  {
    if |a| > 0 { TextIrreflexive(a[1..]); }
  }

  lemma {:induction false} TextTotal(a: string, b: string)
    ensures TextLess(a, b) || a == b || TextLess(b, a)
    decreases |a|
  {
    if |a| > 0 && |b| > 0 && a[0] == b[0] {
      TextTotal(a[1..], b[1..]);
      assert a == [a[0]] + a[1..] && b == [b[0]] + b[1..];
    }
  }

  lemma {:induction false} TextTransitive(a: string, b: string, c: string)
    requires TextLess(a, b) && TextLess(b, c)
    ensures TextLess(a, c)
    decreases |a|
  {
    if |a| > 0 && a[0] == b[0] && b[0] == c[0] {
      TextTransitive(a[1..], b[1..], c[1..]);
    }
  }

  lemma {:induction false} TextOrder()
    ensures StrictOrder(TextLess)
  {
    forall a { TextIrreflexive(a); }
    forall a, b { TextTotal(a, b); }
    forall a, b, c | TextLess(a, b) && TextLess(b, c) { TextTransitive(a, b, c); }
  }

  function Utf8Bytes(c: char): nat {
    if c as int < 0x80 then 1 else if c as int < 0x800 then 2 else if c as int < 0x1_0000 then 3 else 4
  }

  function Utf8Length(s: string): nat {
    if |s| == 0 then 0 else Utf8Bytes(s[0]) + Utf8Length(s[1..])
  }
}
