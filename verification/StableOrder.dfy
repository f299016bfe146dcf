/** Which values have a stable text that does not depend on the order of their members. */
module StableOrder {
  import opened Ordering
  import opened JsonText
  import opened JsonReader
  import opened StableSort
  import opened StableJson

  function KeysOf(ms: seq<Member>): set<Text> {
    set m | m in ms :: m.key
  }

  /** The comparator tells these keys apart. */
  ghost predicate UntiedKeys(cmp: Comparator, ks: set<Text>) {
    forall a, b :: a in ks && b in ks && cmp(a, b) == 0 ==> a == b
  }

  /** In every object of the value, no two keys that are written compare as equal. */
  ghost predicate NoTies(cmp: Comparator, v: Value)
    decreases v
  {
    match v
    case Array(items) => forall i :: 0 <= i < |items| ==> NoTies(cmp, items[i])
    case Object(ms) => UntiedKeys(cmp, KeysOf(Kept(ms))) && forall i :: 0 <= i < |ms| ==> NoTies(cmp, ms[i].value)
    case _ => true
  }

  /** Every value equal to this one up to key order has the same text. */
  ghost predicate HasCanonicalText(cmp: Comparator, v: Value) {
    forall w :: Proper(w) && Denote(w) == Denote(v) ==> Stable(cmp, w) == Stable(cmp, v)
  }

  // ----- without ties, equal values have equal texts -----

  lemma {:induction false} KeptDistinct(ms: seq<Member>)
    requires DistinctKeys(ms)
    ensures KeysDistinct(KeyOf, Kept(ms))
    decreases |ms|
  {
    if |ms| > 0 {
      var n := |ms| - 1;
      KeptDistinct(ms[..n]);
      NewKey(ms, Kept(ms[..n]));
    }
  }

  lemma {:induction false} NewKey(ms: seq<Member>, r: seq<Member>)
    requires |ms| > 0 && DistinctKeys(ms) && forall m :: m in r ==> m in ms[..|ms| - 1]
    ensures forall i :: 0 <= i < |r| ==> KeyOf(r[i]) != KeyOf(ms[|ms| - 1])
  {
    forall i | 0 <= i < |r| ensures r[i].key != ms[|ms| - 1].key {
      assert r[i] in r;
      var j :| 0 <= j < |ms| - 1 && ms[..|ms| - 1][j] == r[i];
      assert ms[j].key != ms[|ms| - 1].key;
    }
  }

  lemma {:induction false} ListedIncreasing(cmp: Comparator, ms: seq<Member>)
    requires Consistent(cmp) && DistinctKeys(ms) && UntiedKeys(cmp, KeysOf(Kept(ms)))
    ensures Increasing(By(cmp), Keys(KeyOf, Listed(cmp, ms)))
  {
    hide SortBy, Kept, Consistent, Increasing;
    KeptDistinct(ms);
    DistinctFunctional(ms);
    forall m, n | m in Kept(ms) && n in Kept(ms) && cmp(m.key, n.key) == 0 ensures m == n {
      assert m.key in KeysOf(Kept(ms)) && n.key in KeysOf(Kept(ms));
    }
    SortIncreasing(cmp, KeyOf, Kept(ms));
  }

  // The keys an object denotes are those of its kept members, also in listed order.
  lemma {:induction false} DenotedKeys(cmp: Comparator, ms: seq<Member>)
    requires DistinctKeys(ms)
    ensures Denote(Object(ms)).TObject? && Denote(Object(ms)).members.Keys == KeysOf(Kept(ms))
    ensures Elements(Keys(KeyOf, Listed(cmp, ms))) == KeysOf(Kept(ms))
  {
    hide Denote, ToMap, Kept, Listed, KeysOf, Elements, HasKey;
    var es := Listed(cmp, ms);
    DenoteListed(cmp, ms);
    ListedFunctional(cmp, ms);
    ToMapMeaning(es);
    KeySet(es, ToMap(Pairs(es)));
    SameKeys(Kept(ms), es);
  }

  lemma {:induction false} SameKeys(ms: seq<Member>, es: seq<Member>)
    requires forall m :: m in ms <==> m in es
    ensures Elements(Keys(KeyOf, es)) == KeysOf(ms)
  {
    forall k ensures k in Elements(Keys(KeyOf, es)) <==> k in KeysOf(ms) {
      if k in Elements(Keys(KeyOf, es)) {
        var i :| 0 <= i < |es| && Keys(KeyOf, es)[i] == k;
        assert es[i] in es && es[i] in ms;
      }
      if k in KeysOf(ms) {
        var m :| m in ms && m.key == k;
        assert m in es;
        var i :| 0 <= i < |es| && es[i] == m;
        assert Keys(KeyOf, es)[i] == k;
      }
    }
  }

  lemma {:induction false} KeySet(es: seq<Member>, m: map<Text, Tree>)
    requires forall k :: k in m <==> HasKey(es, k)
    ensures Elements(Keys(KeyOf, es)) == m.Keys
  {
    forall k ensures k in Elements(Keys(KeyOf, es)) <==> k in m {
      if k in Keys(KeyOf, es) {
        var i :| 0 <= i < |es| && Keys(KeyOf, es)[i] == k;
        assert es[i].key == k;
      }
      if k in m {
        var i :| 0 <= i < |es| && es[i].key == k;
        assert Keys(KeyOf, es)[i] == k;
      }
    }
  }

  /** Equal maps without ties have equal listings: the same keys in the same order, with equal denotations. */
  lemma {:induction false} ListedUnique(cmp: Comparator, ms: seq<Member>, ns: seq<Member>)
    requires Consistent(cmp) && DistinctKeys(ms) && DistinctKeys(ns) && UntiedKeys(cmp, KeysOf(Kept(ms)))
    requires Denote(Object(ms)) == Denote(Object(ns))
    ensures var es, fs := Listed(cmp, ms), Listed(cmp, ns);
            && |es| == |fs|
            && forall i :: 0 <= i < |es| ==> es[i].key == fs[i].key && Denote(es[i].value) == Denote(fs[i].value)
  {
    hide Denote, Listed, ToMap, PartialOrder, Increasing, Consistent, Kept, UntiedKeys, Elements, KeysOf, HasKey;
    var es, fs := Listed(cmp, ms), Listed(cmp, ns);
    DenotedKeys(cmp, ms);
    DenotedKeys(cmp, ns);
    ListedIncreasing(cmp, ms);
    ListedIncreasing(cmp, ns);
    ConsistentOrder(cmp);
    IncreasingUnique(By(cmp), Keys(KeyOf, es), Keys(KeyOf, fs));
    DenoteListed(cmp, ms);
    DenoteListed(cmp, ns);
    ListedFunctional(cmp, ms);
    ListedFunctional(cmp, ns);
    ToMapMeaning(es);
    ToMapMeaning(fs);
    forall i | 0 <= i < |es| ensures es[i].key == fs[i].key && Denote(es[i].value) == Denote(fs[i].value) {
      assert Keys(KeyOf, es)[i] == Keys(KeyOf, fs)[i];
    }
  }

  lemma {:induction false} ListedFunctional(cmp: Comparator, ms: seq<Member>)
    requires DistinctKeys(ms)
    ensures Functional(Listed(cmp, ms))
  {
    hide Listed;
    DistinctFunctional(ms);
  }

  /** Values equal up to key order have equal texts if one of them has no ties. */
  lemma {:induction false} EqualValueEqualText(cmp: Comparator, v: Value, w: Value)
    requires Consistent(cmp) && NoTies(cmp, v) && Proper(v) && Proper(w) && Denote(v) == Denote(w)
    ensures Stable(cmp, v) == Stable(cmp, w)
    decreases v
  {
    hide Consistent, Listed, Join, Quote, ToMap, UntiedKeys;
    match v
    case Array(vs) =>
      var ws := w.items;
      DenoteArray(vs);
      DenoteArray(ws);
      assert Trees(vs) == Trees(ws);
      forall i | 0 <= i < |vs| ensures Stable(cmp, vs[i]) == Stable(cmp, ws[i]) {
        assert Trees(vs)[i] == Trees(ws)[i];
        EqualValueEqualText(cmp, vs[i], ws[i]);
      }
      assert Texts(cmp, vs) == Texts(cmp, ws);
      StableArray(cmp, vs);
      StableArray(cmp, ws);
    case Object(ms) =>
      assert w.Object? by { DenoteKept(ms); }
      ObjectsEqualText(cmp, v, w);
    case _ =>
  }

  lemma {:induction false} ObjectsEqualText(cmp: Comparator, v: Value, w: Value)
    requires Consistent(cmp) && NoTies(cmp, v) && Proper(v) && Proper(w) && v.Object? && w.Object?
    requires Denote(v) == Denote(w)
    ensures Stable(cmp, v) == Stable(cmp, w)
    decreases v, 0
  {
    hide Consistent, Listed, Join, Quote, ToMap, Denote, Stable, UntiedKeys;
    var es, fs := Listed(cmp, v.members), Listed(cmp, w.members);
    ListedUnique(cmp, v.members, w.members);
    ListedSmaller(cmp, v);
    ListedSmaller(cmp, w);
    forall i | 0 <= i < |es| ensures MemberText(cmp, es[i]) == MemberText(cmp, fs[i]) {
      ListedNoTies(cmp, v, i);
      EqualValueEqualText(cmp, es[i].value, fs[i].value);
    }
    assert MemberTexts(cmp, es) == MemberTexts(cmp, fs);
    StableObject(cmp, v.members);
    StableObject(cmp, w.members);
  }

  lemma {:induction false} ListedNoTies(cmp: Comparator, v: Value, i: nat)
    requires v.Object? && NoTies(cmp, v) && i < |Listed(cmp, v.members)|
    ensures NoTies(cmp, Listed(cmp, v.members)[i].value)
  {
    hide Listed, UntiedKeys;
    var m := Listed(cmp, v.members)[i];
    assert m in Listed(cmp, v.members) && m in v.members;
    var j :| 0 <= j < |v.members| && v.members[j] == m;
    assert NoTies(cmp, v.members[j].value);
  }

  // ----- with a tie, some equal value has another text -----

  lemma {:induction false} JoinAt(parts: seq<Text>, i: nat) returns (pre: Text, post: Text)
    requires i < |parts|
    ensures forall x: Text :: Join(parts[i := x]) == pre + x + post
    decreases i
  {
    if i == 0 {
      pre, post := [], if |parts| == 1 then [] else [COMMA] + Join(parts[1..]);
      forall x: Text ensures Join(parts[i := x]) == pre + x + post {
        assert parts[i := x][1..] == parts[1..];
      }
    } else {
      var inner;
      inner, post := JoinAt(parts[1..], i - 1);
      pre := parts[0] + [COMMA] + inner;
      forall x: Text ensures Join(parts[i := x]) == pre + x + post {
        assert parts[i := x][1..] == parts[1..][i - 1 := x];
        assert parts[0] + [COMMA] + (inner + x + post) == pre + x + post;
      }
    }
  }

  // A list with another text in one place is another text.
  lemma {:induction false} JoinDiffers(parts: seq<Text>, i: nat, x: Text)
    requires i < |parts| && parts[i] != x
    ensures Join(parts[i := x]) != Join(parts)
  {
    hide Join;
    var pre, post := JoinAt(parts, i);
    assert parts[i := parts[i]] == parts;
    if pre + x + post == pre + parts[i] + post {
      Middle(pre, x, parts[i], post);
    }
  }

  lemma {:induction false} Middle(pre: Text, x: Text, y: Text, post: Text)
    requires pre + x + post == pre + y + post
    ensures x == y
  {
    var s, t := pre + x + post, pre + y + post;
    assert |x| == |y|;
    assert x == s[|pre|..|pre| + |x|] && y == t[|pre|..|pre| + |y|];
  }

  lemma {:induction false} Bracketed(open: CodeUnit, x: Text, y: Text, close: CodeUnit)
    requires [open] + x + [close] == [open] + y + [close]
    ensures x == y
  {
    Middle([open], x, y, [close]);
  }

  /** Another text for `x` than for the item it replaces, of the same denotation. */
  ghost predicate Varies(cmp: Comparator, x: Value, y: Value) {
    Proper(y) && Denote(y) == Denote(x) && Stable(cmp, y) != Stable(cmp, x) && !y.Undefined?
  }

  lemma {:induction false} ItemVaries(cmp: Comparator, items: seq<Value>, i: nat, x: Value)
    requires Proper(Array(items)) && i < |items| && Varies(cmp, items[i], x)
    ensures Varies(cmp, Array(items), Array(items[i := x]))
  {
    hide Stable, Denote, Join;
    var items' := items[i := x];
    DenoteArray(items);
    DenoteArray(items');
    assert Trees(items) == Trees(items');
    StableArray(cmp, items);
    StableArray(cmp, items');
    assert Texts(cmp, items') == Texts(cmp, items)[i := Stable(cmp, x)];
    JoinDiffers(Texts(cmp, items), i, Stable(cmp, x));
    if Stable(cmp, Array(items)) == Stable(cmp, Array(items')) {
      Bracketed(OPEN_BRACKET, Join(Texts(cmp, items)), Join(Texts(cmp, items')), CLOSE_BRACKET);
    }
  }

  /** Replaces one member by another of the same key. */
  function Replace(before: Member, after: Member): Member -> Member {
    m => if m == before then after else m
  }

  lemma {:induction false} KeptMapped(ms: seq<Member>, m: Member, n: Member)
    requires !m.value.Undefined? && !n.value.Undefined?
    ensures Kept(Map(Replace(m, n), ms)) == Map(Replace(m, n), Kept(ms))
    decreases |ms|
  {
    if |ms| > 0 {
      var k := |ms| - 1;
      KeptMapped(ms[..k], m, n);
      assert Map(Replace(m, n), ms)[..k] == Map(Replace(m, n), ms[..k]);
    }
  }

  lemma {:induction false} ListedMapped(cmp: Comparator, ms: seq<Member>, m: Member, n: Member)
    requires m.key == n.key && !m.value.Undefined? && !n.value.Undefined?
    ensures Listed(cmp, Map(Replace(m, n), ms)) == Map(Replace(m, n), Listed(cmp, ms))
  {
    hide SortBy, Kept;
    KeptMapped(ms, m, n);
    SortMapped(cmp, Replace(m, n), KeyOf, KeyOf, Kept(ms));
  }

  lemma {:induction false} MappedOnce(es: seq<Member>, m: Member, n: Member, j: nat)
    requires KeysDistinct(KeyOf, es) && j < |es| && es[j] == m
    ensures Map(Replace(m, n), es) == es[j := n]
  {
    forall k | 0 <= k < |es| ensures Map(Replace(m, n), es)[k] == es[j := n][k] {
      assert k != j ==> KeyOf(es[k]) != KeyOf(es[j]);
    }
  }

  // The replaced member sits in one place of the listing.
  lemma {:induction false} ReplacedAt(cmp: Comparator, ms: seq<Member>, m: Member, n: Member) returns (j: nat)
    requires DistinctKeys(ms) && m in ms && m.key == n.key && !m.value.Undefined? && !n.value.Undefined?
    ensures j < |Listed(cmp, ms)| && Listed(cmp, ms)[j] == m
    ensures Listed(cmp, Map(Replace(m, n), ms)) == Listed(cmp, ms)[j := n]
  {
    hide Listed, KeysDistinct, DistinctKeys, Kept, Replace, Map;
    ListedMapped(cmp, ms, m, n);
    var es := Listed(cmp, ms);
    assert m in es;
    j :| 0 <= j < |es| && es[j] == m;
    KeptDistinct(ms);
    DistinctPermutation(KeyOf, Kept(ms), es);
    MappedOnce(es, m, n, j);
  }

  lemma {:induction false} ReplacedProper(ms: seq<Member>, i: nat, n: Member)
    requires Proper(Object(ms)) && i < |ms| && n.key == ms[i].key && Proper(n.value)
    ensures ms[i := n] == Map(Replace(ms[i], n), ms) && Proper(Object(ms[i := n])) && ms[i] in ms
  {
    var ms' := ms[i := n];
    forall k | 0 <= k < |ms| ensures ms'[k] == Map(Replace(ms[i], n), ms)[k] {
      assert k != i ==> ms[k].key != ms[i].key;
    }
    assert DistinctKeys(ms');
  }

  lemma {:induction false} ReplacedText(cmp: Comparator, ms: seq<Member>, m: Member, n: Member)
    requires DistinctKeys(ms) && m in ms && m.key == n.key && !m.value.Undefined? && !n.value.Undefined?
    requires Stable(cmp, m.value) != Stable(cmp, n.value)
    ensures Stable(cmp, Object(Map(Replace(m, n), ms))) != Stable(cmp, Object(ms))
  {
    hide Stable, Join, Listed, MemberText, DistinctKeys, Map;
    var ms' := Map(Replace(m, n), ms);
    var j := ReplacedAt(cmp, ms, m, n);
    var es, fs := Listed(cmp, ms), Listed(cmp, ms');
    assert MemberTexts(cmp, fs) == MemberTexts(cmp, es)[j := MemberText(cmp, n)];
    MemberTextDiffers(cmp, m, n);
    JoinDiffers(MemberTexts(cmp, es), j, MemberText(cmp, n));
    StableObject(cmp, ms);
    StableObject(cmp, ms');
    if Stable(cmp, Object(ms)) == Stable(cmp, Object(ms')) {
      Bracketed(OPEN_BRACE, Join(MemberTexts(cmp, es)), Join(MemberTexts(cmp, fs)), CLOSE_BRACE);
    }
  }

  lemma {:induction false} MemberVaries(cmp: Comparator, ms: seq<Member>, i: nat, x: Value)
    requires Proper(Object(ms)) && i < |ms| && !ms[i].value.Undefined? && Varies(cmp, ms[i].value, x)
    ensures Varies(cmp, Object(ms), Object(ms[i := Member(ms[i].key, x)]))
  {
    hide Stable, Denote, DistinctKeys, Map, Replace;
    var m, n := ms[i], Member(ms[i].key, x);
    ReplacedProper(ms, i, n);
    MemberDenotes(ms, m, n);
    ReplacedText(cmp, ms, m, n);
  }

  lemma {:induction false} MemberTextDiffers(cmp: Comparator, m: Member, n: Member)
    requires m.key == n.key && Stable(cmp, m.value) != Stable(cmp, n.value)
    ensures MemberText(cmp, m) != MemberText(cmp, n)
  {
    hide Stable, Quote;
    var pre := Quote(m.key) + [COLON];
    if MemberText(cmp, m) == MemberText(cmp, n) {
      DropSame(pre, Stable(cmp, m.value), Stable(cmp, n.value));
    }
  }

  lemma {:induction false} MemberDenotes(ms: seq<Member>, m: Member, n: Member)
    requires m.key == n.key && Denote(m.value) == Denote(n.value) && !m.value.Undefined? && !n.value.Undefined?
    ensures Denote(Object(Map(Replace(m, n), ms))) == Denote(Object(ms))
  {
    hide Denote, ToMap, Kept;
    DenoteKept(ms);
    DenoteKept(Map(Replace(m, n), ms));
    KeptMapped(ms, m, n);
    assert Pairs(Map(Replace(m, n), Kept(ms))) == Pairs(Kept(ms));
  }

  // ----- two orders of tied members -----

  lemma {:induction false} KeptFirst(ms: seq<Member>)
    requires |ms| > 0 && !ms[0].value.Undefined?
    ensures |Kept(ms)| > 0 && Kept(ms)[0] == ms[0]
    decreases |ms|
  {
    if |ms| > 1 {
      KeptFirst(ms[..|ms| - 1]);
    } else {
      assert Kept(ms[..0]) == [];
    }
  }

  lemma {:induction false} ClassSameKeys(cmp: Comparator, es: seq<Member>, fs: seq<Member>, k: Text)
    requires |es| == |fs| && forall i :: 0 <= i < |es| ==> es[i].key == fs[i].key
    ensures Keys(KeyOf, Class(cmp, KeyOf, es, k)) == Keys(KeyOf, Class(cmp, KeyOf, fs, k))
    decreases |es|
  {
    if |es| > 0 {
      var n := |es| - 1;
      ClassSameKeys(cmp, es[..n], fs[..n], k);
      var a, b := Class(cmp, KeyOf, es[..n], k), Class(cmp, KeyOf, fs[..n], k);
      KeysSnoc(a, es[n]);
      KeysSnoc(b, fs[n]);
    }
  }

  lemma {:induction false} KeysSnoc(ms: seq<Member>, m: Member)
    ensures Keys(KeyOf, ms + [m]) == Keys(KeyOf, ms) + [m.key]
  {
  }

  // The first member is the first of those that tie with it, before and after sorting.
  lemma {:induction false} FirstOfTied(cmp: Comparator, ms: seq<Member>, k: Text)
    requires Consistent(cmp) && |ms| > 0 && !ms[0].value.Undefined? && cmp(ms[0].key, k) == 0
    ensures var c := Class(cmp, KeyOf, Listed(cmp, ms), k);
            |c| > 0 && c[0] == ms[0]
  {
    hide Consistent, SortBy, Kept, Class;
    KeptFirst(ms);
    ClassFirst(cmp, KeyOf, Kept(ms), k);
    SortStable(cmp, KeyOf, Kept(ms), k);
  }

  lemma {:induction false} SameTextSameKeys(cmp: Comparator, v: Value, w: Value)
    requires v.Object? && w.Object? && Proper(v) && Proper(w) && Stable(cmp, v) == Stable(cmp, w)
    ensures var es, fs := Listed(cmp, v.members), Listed(cmp, w.members);
            |es| == |fs| && forall i :: 0 <= i < |es| ==> es[i].key == fs[i].key
  {
    hide Stable, Denote, Listed, Proper, Join, ReadPairs;
    var es, fs := Listed(cmp, v.members), Listed(cmp, w.members);
    StableObject(cmp, v.members);
    StableObject(cmp, w.members);
    Bracketed(OPEN_BRACE, Join(MemberTexts(cmp, es)), Join(MemberTexts(cmp, fs)), CLOSE_BRACE);
    PairsRead(cmp, v, []);
    PairsRead(cmp, w, []);
    assert Pairs(es) == Pairs(fs);
    forall i | 0 <= i < |es| ensures es[i].key == fs[i].key { assert Pairs(es)[i] == Pairs(fs)[i]; }
  }

  lemma {:induction false} TiedTextsDiffer(cmp: Comparator, x: Member, y: Member, rest: seq<Member>)
    requires Consistent(cmp) && cmp(x.key, y.key) == 0 && x.key != y.key
    requires !x.value.Undefined? && !y.value.Undefined?
    requires Proper(Object([x, y] + rest)) && Proper(Object([y, x] + rest))
    ensures Stable(cmp, Object([x, y] + rest)) != Stable(cmp, Object([y, x] + rest))
  {
    hide Stable, Proper, Listed, Class;
    var v, w := Object([x, y] + rest), Object([y, x] + rest);
    if Stable(cmp, v) == Stable(cmp, w) {
      SameTextSameKeys(cmp, v, w);
      var k := x.key;
      assert cmp(x.key, k) == 0 && cmp(y.key, k) == 0;
      FirstOfTied(cmp, v.members, k);
      FirstOfTied(cmp, w.members, k);
      ClassSameKeys(cmp, Listed(cmp, v.members), Listed(cmp, w.members), k);
    }
  }

  lemma {:induction false} SameMembersSameValue(ms: seq<Member>, ns: seq<Member>)
    requires Proper(Object(ms)) && multiset(ms) == multiset(ns)
    ensures Proper(Object(ns)) && Denote(Object(ns)) == Denote(Object(ms))
  {
    hide Denote, Kept, ToMap;
    assert KeysDistinct(KeyOf, ms);
    DistinctPermutation(KeyOf, ms, ns);
    SamePermutation(ms, ns);
    assert DistinctKeys(ns) by {
      forall i, j | 0 <= i < j < |ns| ensures ns[i].key != ns[j].key { assert KeyOf(ns[i]) != KeyOf(ns[j]); }
    }
    forall i | 0 <= i < |ns| ensures Proper(ns[i].value) {
      assert ns[i] in ms;
      var j :| 0 <= j < |ms| && ms[j] == ns[i];
    }
    DistinctFunctional(ms);
    DenoteKept(ms);
    DenoteKept(ns);
    ToMapSameMembers(Kept(ms), Kept(ns));
  }

  lemma {:induction false} TieVaries(cmp: Comparator, ms: seq<Member>) returns (w: Value)
    requires Consistent(cmp) && Proper(Object(ms)) && !UntiedKeys(cmp, KeysOf(Kept(ms)))
    ensures Varies(cmp, Object(ms), w)
  {
    hide Stable, Denote, Proper, Kept, Consistent;
    var a, b :| a in KeysOf(Kept(ms)) && b in KeysOf(Kept(ms)) && cmp(a, b) == 0 && a != b;
    var x :| x in Kept(ms) && x.key == a;
    var y :| y in Kept(ms) && y.key == b;
    var rest := TwoOrders(ms, x, y);
    SameMembersSameValue(ms, [x, y] + rest);
    SameMembersSameValue(ms, [y, x] + rest);
    TiedTextsDiffer(cmp, x, y, rest);
    w := if Stable(cmp, Object([x, y] + rest)) != Stable(cmp, Object(ms)) then Object([x, y] + rest)
         else Object([y, x] + rest);
  }

  lemma {:induction false} SomeTextVaries(cmp: Comparator, v: Value) returns (w: Value)
    requires Consistent(cmp) && Proper(v) && !NoTies(cmp, v)
    ensures Varies(cmp, v, w)
    decreases v
  {
    hide Varies, Consistent, UntiedKeys;
    match v {
      case Array(items) =>
        var i :| 0 <= i < |items| && !NoTies(cmp, items[i]);
        var x := SomeTextVaries(cmp, items[i]);
        ItemVaries(cmp, items, i, x);
        w := Array(items[i := x]);
      case Object(ms) =>
        if UntiedKeys(cmp, KeysOf(Kept(ms))) {
          var i :| 0 <= i < |ms| && !NoTies(cmp, ms[i].value);
          var x := SomeTextVaries(cmp, ms[i].value);
          MemberVaries(cmp, ms, i, x);
          w := Object(ms[i := Member(ms[i].key, x)]);
        } else {
          w := TieVaries(cmp, ms);
        }
    }
  }

  // ----- the theorems -----

  /** A value's text is the text of every value equal to it up to key order exactly when it has no ties. */
  lemma {:induction false} CanonicalIff(cmp: Comparator, v: Value)
    requires Consistent(cmp) && Proper(v)
    ensures HasCanonicalText(cmp, v) <==> NoTies(cmp, v)
  {
    hide Stable, Denote, Proper, NoTies, Consistent;
    if NoTies(cmp, v) {
      forall w | Proper(w) && Denote(w) == Denote(v) ensures Stable(cmp, w) == Stable(cmp, v) {
        EqualValueEqualText(cmp, v, w);
      }
    } else {
      var w := SomeTextVaries(cmp, v);
      assert Proper(w) && Denote(w) == Denote(v) && Stable(cmp, w) != Stable(cmp, v);
    }
  }

  /** Canonical text: equal texts mean equal values, and conversely for values without ties. */
  lemma {:induction false} CanonicalText(cmp: Comparator, v: Value, w: Value)
    requires Proper(v) && Proper(w)
    ensures Stable(cmp, v) == Stable(cmp, w) ==> Denote(v) == Denote(w)
    ensures Consistent(cmp) && NoTies(cmp, v) && Denote(v) == Denote(w) ==> Stable(cmp, v) == Stable(cmp, w)
  {
    hide Stable, Denote, Proper, NoTies, Consistent;
    if Stable(cmp, v) == Stable(cmp, w) {
      EqualTextEqualValue(cmp, v, w);
    }
    if Consistent(cmp) && NoTies(cmp, v) && Denote(v) == Denote(w) {
      EqualValueEqualText(cmp, v, w);
    }
  }

  /** Distinct texts never compare as equal. */
  ghost predicate Separates(cmp: Comparator) {
    forall a: Text, b: Text :: cmp(a, b) == 0 ==> a == b
  }

  lemma {:induction false} SeparatesNoTies(cmp: Comparator, v: Value)
    requires Separates(cmp)
    ensures NoTies(cmp, v)
    decreases v
  {
    hide Kept;
    match v
    case Array(items) =>
      forall i | 0 <= i < |items| ensures NoTies(cmp, items[i]) { SeparatesNoTies(cmp, items[i]); }
    case Object(ms) =>
      forall i | 0 <= i < |ms| ensures NoTies(cmp, ms[i].value) { SeparatesNoTies(cmp, ms[i].value); }
    case _ =>
  }

  /**
   All values have a canonical text exactly when the comparator separates all texts, which
   a locale's does not.
   */
  lemma {:induction false} OrderIndependentIff(cmp: Comparator)
    requires Consistent(cmp)
    ensures (forall v :: Proper(v) ==> HasCanonicalText(cmp, v)) <==> Separates(cmp)
  {
    hide HasCanonicalText, Proper, NoTies, Consistent;
    if Separates(cmp) {
      forall v | Proper(v) ensures HasCanonicalText(cmp, v) {
        SeparatesNoTies(cmp, v);
        CanonicalIff(cmp, v);
      }
    } else {
      var a, b :| cmp(a, b) == 0 && a != b;
      var v := Object([Member(a, Null), Member(b, Null)]);
      TiedPair(cmp, a, b);
      CanonicalIff(cmp, v);
    }
  }

  lemma {:induction false} TiedPair(cmp: Comparator, a: Text, b: Text)
    requires cmp(a, b) == 0 && a != b
    ensures Proper(Object([Member(a, Null), Member(b, Null)]))
    ensures !NoTies(cmp, Object([Member(a, Null), Member(b, Null)]))
  {
    hide Kept;
    var m, n := Member(a, Null), Member(b, Null);
    assert DistinctKeys([m, n]);
    assert m in [m, n] && n in [m, n];
    assert m in Kept([m, n]) && n in Kept([m, n]);
    assert a in KeysOf(Kept([m, n])) && b in KeysOf(Kept([m, n]));
  }
}
