/** The key-sorted JSON text behind catalog revisions and identity comparisons. */
module StableJson {
  import opened Common
  import opened JsonText
  import opened JsonReader
  import opened StableSort

  /** A JavaScript value; a number is given by its finite decimal rendering. */
  datatype Value =
    | Null
    | Undefined
    | Bool(flag: bool)
    | Number(digits: Text)
    | Str(text: Text)
    | Array(items: seq<Value>)
    | Object(members: seq<Member>)

  datatype Member = Member(key: Text, value: Value)

  function KeyOf(m: Member): Text { m.key }

  function Kept(ms: seq<Member>): (r: seq<Member>)
    ensures forall m :: m in r <==> m in ms && !m.value.Undefined?
  {
    if |ms| == 0 then []
    else
      var n := |ms| - 1;
      assert ms == ms[..n] + [ms[n]];
      if ms[n].value.Undefined? then Kept(ms[..n]) else Kept(ms[..n]) + [ms[n]]
  }

  /** An object's defined members in comparator order. */
  function Listed(cmp: Comparator, ms: seq<Member>): (r: seq<Member>)
    ensures multiset(r) == multiset(Kept(ms))
    ensures forall m :: m in r <==> m in ms && !m.value.Undefined?
  {
    var r := SortBy(cmp, KeyOf, Kept(ms));
    SamePermutation(r, Kept(ms));
    r
  }

  // ----- the text -----

  function Join(parts: seq<Text>): Text {
    if |parts| == 0 then [] else if |parts| == 1 then parts[0] else parts[0] + [COMMA] + Join(parts[1..])
  }

  function Stable(cmp: Comparator, v: Value): Text
    decreases v
  {
    match v
    case Null => NULL_TEXT
    case Undefined => NULL_TEXT
    case Bool(flag) => if flag then TRUE_TEXT else FALSE_TEXT
    case Number(digits) => digits
    case Str(text) => Quote(text)
    case Array(items) =>
      [OPEN_BRACKET] + Join(seq(|items|, i requires 0 <= i < |items| => Stable(cmp, items[i]))) + [CLOSE_BRACKET]
    case Object(members) =>
      var es := Listed(cmp, members);
      [OPEN_BRACE]
      + Join(seq(|es|, i requires 0 <= i < |es| =>
               assert es[i] in es && es[i] in members;
               Quote(es[i].key) + [COLON] + Stable(cmp, es[i].value)))
      + [CLOSE_BRACE]
  }

  function Texts(cmp: Comparator, vs: seq<Value>): (r: seq<Text>)
    ensures |r| == |vs| && forall i :: 0 <= i < |r| ==> r[i] == Stable(cmp, vs[i])
  {
    seq(|vs|, i requires 0 <= i < |vs| => Stable(cmp, vs[i]))
  }

  function MemberText(cmp: Comparator, m: Member): Text {
    Quote(m.key) + [COLON] + Stable(cmp, m.value)
  }

  function MemberTexts(cmp: Comparator, ms: seq<Member>): (r: seq<Text>)
    ensures |r| == |ms| && forall i :: 0 <= i < |r| ==> r[i] == MemberText(cmp, ms[i])
  {
    seq(|ms|, i requires 0 <= i < |ms| => MemberText(cmp, ms[i]))
  }

  lemma {:induction false} StableArray(cmp: Comparator, items: seq<Value>)
    ensures Stable(cmp, Array(items)) == [OPEN_BRACKET] + Join(Texts(cmp, items)) + [CLOSE_BRACKET]
  {
    assert seq(|items|, i requires 0 <= i < |items| => Stable(cmp, items[i])) == Texts(cmp, items);
  }

  lemma {:induction false} StableObject(cmp: Comparator, ms: seq<Member>)
    ensures Stable(cmp, Object(ms)) == [OPEN_BRACE] + Join(MemberTexts(cmp, Listed(cmp, ms))) + [CLOSE_BRACE]
  {
    var es := Listed(cmp, ms);
    assert seq(|es|, i requires 0 <= i < |es| => Quote(es[i].key) + [COLON] + Stable(cmp, es[i].value))
        == MemberTexts(cmp, es);
  }

  // ----- what a value denotes -----

  /** Undefined members do not exist; any other undefined is null. */
  function Denote(v: Value): Tree
    decreases v
  {
    match v
    case Null => TNull
    case Undefined => TNull
    case Bool(flag) => TBool(flag)
    case Number(digits) => TNumber(digits)
    case Str(text) => TStr(text)
    case Array(items) => TArray(seq(|items|, i requires 0 <= i < |items| => Denote(items[i])))
    case Object(members) =>
      var ks := Kept(members);
      TObject(ToMap(seq(|ks|, i requires 0 <= i < |ks| =>
                      assert ks[i] in ks && ks[i] in members;
                      (ks[i].key, Denote(ks[i].value)))))
  }

  function Trees(vs: seq<Value>): (r: seq<Tree>)
    ensures |r| == |vs| && forall i :: 0 <= i < |r| ==> r[i] == Denote(vs[i])
  {
    seq(|vs|, i requires 0 <= i < |vs| => Denote(vs[i]))
  }

  function Pairs(ms: seq<Member>): (r: seq<(Text, Tree)>)
    ensures |r| == |ms| && forall i :: 0 <= i < |r| ==> r[i] == (ms[i].key, Denote(ms[i].value))
  {
    seq(|ms|, i requires 0 <= i < |ms| => (ms[i].key, Denote(ms[i].value)))
  }

  lemma {:induction false} DenoteArray(items: seq<Value>)
    ensures Denote(Array(items)) == TArray(Trees(items))
  {
    assert seq(|items|, i requires 0 <= i < |items| => Denote(items[i])) == Trees(items);
  }

  lemma {:induction false} DenoteKept(ms: seq<Member>)
    ensures Denote(Object(ms)) == TObject(ToMap(Pairs(Kept(ms))))
  {
    var ks := Kept(ms);
    assert seq(|ks|, i requires 0 <= i < |ks| => (ks[i].key, Denote(ks[i].value))) == Pairs(ks);
  }

  // ----- proper values -----

  predicate NumberText(d: Text) {
    |d| > 0 && (0x30 <= d[0] <= 0x39 || d[0] == 0x2D) && forall i :: 0 <= i < |d| ==> NumberUnit(d[i])
  }

  ghost predicate DistinctKeys(ms: seq<Member>) {
    forall i, j :: 0 <= i < j < |ms| ==> ms[i].key != ms[j].key
  }

  /** Numbers read as numbers, and no object has a key twice. */
  ghost predicate Proper(v: Value)
    decreases v
  {
    match v
    case Number(digits) => NumberText(digits)
    case Array(items) => forall i :: 0 <= i < |items| ==> Proper(items[i])
    case Object(ms) => DistinctKeys(ms) && forall i :: 0 <= i < |ms| ==> Proper(ms[i].value)
    case _ => true
  }

  // ----- maps from members -----

  /** Members with the same key are the same member. */
  ghost predicate Functional(ms: seq<Member>) {
    forall m, n :: m in ms && n in ms && m.key == n.key ==> m == n
  }

  lemma {:induction false} DistinctFunctional(ms: seq<Member>)
    requires DistinctKeys(ms)
    ensures Functional(ms)
  {
  }

  ghost predicate HasKey(ms: seq<Member>, k: Text) {
    exists i :: 0 <= i < |ms| && ms[i].key == k
  }

  lemma {:induction false} ToMapKeys(ms: seq<Member>, k: Text)
    ensures k in ToMap(Pairs(ms)) <==> HasKey(ms, k)
    decreases |ms|
  {
    hide Denote;
    if |ms| > 0 {
      var n := |ms| - 1;
      ToMapKeys(ms[..n], k);
      assert Pairs(ms)[..n] == Pairs(ms[..n]);
      assert ms[n].key == k ==> HasKey(ms, k);
      if HasKey(ms, k) {
        var i :| 0 <= i < |ms| && ms[i].key == k;
        assert i < n ==> ms[..n][i].key == k;
      }
      if HasKey(ms[..n], k) {
        var i :| 0 <= i < n && ms[..n][i].key == k;
        assert ms[i].key == k;
      }
    }
  }

  lemma {:induction false} ToMapAt(ms: seq<Member>, i: nat)
    requires Functional(ms) && i < |ms|
    ensures ms[i].key in ToMap(Pairs(ms)) && ToMap(Pairs(ms))[ms[i].key] == Denote(ms[i].value)
    decreases |ms|
  {
    hide Denote;
    var n := |ms| - 1;
    assert ms[i] in ms && ms[n] in ms;
    assert Pairs(ms)[..n] == Pairs(ms[..n]);
    if i < n {
      assert Functional(ms[..n]) by { assert forall m :: m in ms[..n] ==> m in ms; }
      ToMapAt(ms[..n], i);
      assert ms[..n][i] == ms[i];
    }
  }

  lemma {:induction false} ToMapMeaning(ms: seq<Member>)
    requires Functional(ms)
    ensures forall k :: k in ToMap(Pairs(ms)) <==> HasKey(ms, k)
    ensures forall i :: 0 <= i < |ms| ==>
              ms[i].key in ToMap(Pairs(ms)) && ToMap(Pairs(ms))[ms[i].key] == Denote(ms[i].value)
  {
    hide Denote, ToMap, Functional, HasKey;
    forall k { ToMapKeys(ms, k); }
    forall i | 0 <= i < |ms|
      ensures ms[i].key in ToMap(Pairs(ms)) && ToMap(Pairs(ms))[ms[i].key] == Denote(ms[i].value)
    {
      ToMapAt(ms, i);
    }
  }

  lemma {:induction false} ToMapSameMembers(ms: seq<Member>, ns: seq<Member>)
    requires Functional(ms) && forall m :: m in ms <==> m in ns
    ensures ToMap(Pairs(ms)) == ToMap(Pairs(ns))
  {
    hide Denote, ToMap;
    ToMapMeaning(ms);
    ToMapMeaning(ns);
    var a, b := ToMap(Pairs(ms)), ToMap(Pairs(ns));
    forall k ensures (k in a <==> k in b) && (k in a ==> a[k] == b[k]) {
      if k in a {
        var i :| 0 <= i < |ms| && ms[i].key == k;
        assert ms[i] in ns;
        var j :| 0 <= j < |ns| && ns[j] == ms[i];
        assert ns[j].key == k;
      }
      if k in b {
        var j :| 0 <= j < |ns| && ns[j].key == k;
        assert ns[j] in ms;
        var i :| 0 <= i < |ms| && ms[i] == ns[j];
        assert ms[i].key == k;
      }
    }
  }

  /** The denotation of an object may be read off its members in listed order. */
  lemma {:induction false} DenoteListed(cmp: Comparator, ms: seq<Member>)
    requires DistinctKeys(ms)
    ensures Denote(Object(ms)) == TObject(ToMap(Pairs(Listed(cmp, ms))))
  {
    hide Denote, ToMap;
    DenoteKept(ms);
    DistinctFunctional(ms);
    ToMapSameMembers(Kept(ms), Listed(cmp, ms));
  }

  // ----- reading the text back -----

  predicate Delimiter(c: CodeUnit) {
    c == COMMA || c == CLOSE_BRACKET || c == CLOSE_BRACE
  }

  predicate Delimited(r: Text) {
    |r| == 0 || Delimiter(r[0])
  }

  /** The first unit of a value's text tells which kind of value it is. */
  lemma {:induction false} HeadOf(cmp: Comparator, v: Value)
    requires Proper(v)
    ensures |Stable(cmp, v)| > 0
    ensures var c := Stable(cmp, v)[0];
            match v
            case Null => c == 0x6E
            case Undefined => c == 0x6E
            case Bool(flag) => c == if flag then 0x74 else 0x66
            case Number(_) => 0x30 <= c <= 0x39 || c == 0x2D
            case Str(_) => c == QUOTE
            case Array(_) => c == OPEN_BRACKET
            case Object(_) => c == OPEN_BRACE
  {
    hide Join, Listed;
  }

  lemma {:induction false} DropSame(prefix: Text, r: Text, r': Text)
    requires prefix + r == prefix + r'
    ensures r == r'
  {
    assert (prefix + r)[|prefix|..] == r && (prefix + r')[|prefix|..] == r';
  }

  lemma {:induction false} NumberReads(d: Text, r: Text)
    requires (forall i :: 0 <= i < |d| ==> NumberUnit(d[i])) && Delimited(r)
    ensures NumberLength(d + r) == |d|
    decreases |d|
  {
    if |d| > 0 {
      NumberReads(d[1..], r);
      assert (d + r)[1..] == d[1..] + r;
    } else {
      assert d + r == r;
    }
  }

  // Listed members are proper and structurally smaller than their object.
  lemma {:induction false} ListedSmaller(cmp: Comparator, v: Value)
    requires v.Object? && Proper(v)
    ensures forall i :: 0 <= i < |Listed(cmp, v.members)| ==>
              Listed(cmp, v.members)[i].value < v && Proper(Listed(cmp, v.members)[i].value)
  {
    hide Listed;
    var es := Listed(cmp, v.members);
    forall i | 0 <= i < |es| ensures es[i].value < v && Proper(es[i].value) {
      assert es[i] in es;
      var j :| 0 <= j < |v.members| && v.members[j] == es[i];
    }
  }

  // ----- reading the text back -----

  /** Reading a value's text gives what the value denotes, and leaves what follows it. */
  lemma {:induction false} StableReads(cmp: Comparator, v: Value, r: Text)
    requires Proper(v) && Delimited(r)
    ensures ReadValue(Stable(cmp, v) + r) == Some((Denote(v), r))
    decreases v, 2
  {
    hide ReadValue, Denote, NumberText, Listed, Join, Quote;
    match v
    case Null => LiteralReads(v, NULL_TEXT, r);
    case Undefined => LiteralReads(v, NULL_TEXT, r);
    case Bool(flag) => LiteralReads(v, if flag then TRUE_TEXT else FALSE_TEXT, r);
    case Number(d) => NumberTextReads(v, r);
    case Str(text) => StringReads(v, r);
    case Array(items) =>
      ElementsRead(cmp, v, r);
      ArrayReads(cmp, items, r);
    case Object(ms) =>
      PairsRead(cmp, v, r);
      ObjectReads(cmp, ms, r);
  }

  lemma {:induction false} NumberTextReads(v: Value, r: Text)
    requires v.Number? && NumberText(v.digits) && Delimited(r)
    ensures ReadValue(v.digits + r) == Some((Denote(v), r))
  {
    hide ReadElements, ReadPairs, Unescape, Denote;
    var d, x := v.digits, v.digits + r;
    NumberReads(d, r);
    assert x[0] == d[0] && x[..|d|] == d && x[|d|..] == r;
    ScalarDenotes(v);
  }

  lemma {:induction false} StringReads(v: Value, r: Text)
    requires v.Str?
    ensures ReadValue(Quote(v.text) + r) == Some((Denote(v), r))
  {
    hide ReadElements, ReadPairs, NumberLength, Escape, Unescape, Denote;
    QuoteRoundTrip(v.text, r);
    var x := Quote(v.text) + r;
    assert x[0] == QUOTE && x[1..] == Escape(v.text) + [QUOTE] + r;
    ScalarDenotes(v);
  }

  lemma {:induction false} ArrayReads(cmp: Comparator, items: seq<Value>, r: Text)
    requires ReadElements(Join(Texts(cmp, items)) + ([CLOSE_BRACKET] + r)) == Some((Trees(items), r))
    ensures ReadValue(Stable(cmp, Array(items)) + r) == Some((Denote(Array(items)), r))
  {
    hide ReadElements, ReadPairs, Unescape, NumberLength, Join, Denote, Stable;
    StableArray(cmp, items);
    DenoteArray(items);
    var x := Stable(cmp, Array(items)) + r;
    assert x[0] == OPEN_BRACKET && x[1..] == Join(Texts(cmp, items)) + ([CLOSE_BRACKET] + r);
  }

  lemma {:induction false} ObjectReads(cmp: Comparator, ms: seq<Member>, r: Text)
    requires DistinctKeys(ms)
    requires ReadPairs(Join(MemberTexts(cmp, Listed(cmp, ms))) + ([CLOSE_BRACE] + r))
          == Some((Pairs(Listed(cmp, ms)), r))
    ensures ReadValue(Stable(cmp, Object(ms)) + r) == Some((Denote(Object(ms)), r))
  {
    hide ReadElements, ReadPairs, Unescape, NumberLength, Join, Denote, Stable, Listed, DistinctKeys, ToMap;
    StableObject(cmp, ms);
    DenoteListed(cmp, ms);
    var x := Stable(cmp, Object(ms)) + r;
    assert x[0] == OPEN_BRACE && x[1..] == Join(MemberTexts(cmp, Listed(cmp, ms))) + ([CLOSE_BRACE] + r);
  }

  lemma {:induction false} ScalarDenotes(v: Value)
    ensures match v
            case Null => Denote(v) == TNull
            case Undefined => Denote(v) == TNull
            case Bool(flag) => Denote(v) == TBool(flag)
            case Number(d) => Denote(v) == TNumber(d)
            case Str(text) => Denote(v) == TStr(text)
            case _ => true
  {
  }

  lemma {:induction false} LiteralReads(v: Value, t: Text, r: Text)
    requires t == match v case Bool(flag) => (if flag then TRUE_TEXT else FALSE_TEXT) case _ => NULL_TEXT
    requires v.Null? || v.Undefined? || v.Bool?
    ensures ReadValue(t + r) == Some((Denote(v), r))
  {
    hide ReadElements, ReadPairs, Unescape, NumberLength;
    var x := t + r;
    assert t <= x && x[|t|..] == r && x[0] == t[0];
    ScalarDenotes(v);
  }

  lemma {:induction false} JoinCons(parts: seq<Text>, tail: Text)
    requires |parts| > 0
    ensures Join(parts) + tail
         == parts[0] + (if |parts| == 1 then tail else [COMMA] + (Join(parts[1..]) + tail))
  {
    if |parts| > 1 {
      assert parts[0] + [COMMA] + Join(parts[1..]) + tail == parts[0] + ([COMMA] + (Join(parts[1..]) + tail));
    }
  }

  lemma {:induction false} ElementsRead(cmp: Comparator, v: Value, r: Text)
    requires v.Array? && Proper(v) && Delimited(r)
    ensures ReadElements(Join(Texts(cmp, v.items)) + ([CLOSE_BRACKET] + r)) == Some((Trees(v.items), r))
    decreases v, 1
  {
    hide Join, ReadItems, Stable, Denote;
    var items := v.items;
    var x := Join(Texts(cmp, items)) + ([CLOSE_BRACKET] + r);
    if |items| == 0 {
      NothingJoined(Texts(cmp, items));
      assert x == [CLOSE_BRACKET] + r && x[1..] == r;
      assert Trees(items) == [];
    } else {
      JoinCons(Texts(cmp, items), [CLOSE_BRACKET] + r);
      HeadOf(cmp, items[0]);
      assert x[0] == Stable(cmp, items[0])[0];
      ItemsRead(cmp, v, items, r);
    }
  }

  lemma {:induction false} NothingJoined(parts: seq<Text>)
    requires |parts| == 0
    ensures Join(parts) == []
  {
  }

  lemma {:induction false} ItemsRead(cmp: Comparator, within: Value, vs: seq<Value>, r: Text)
    requires |vs| > 0 && forall i :: 0 <= i < |vs| ==> vs[i] < within && Proper(vs[i])
    ensures ReadItems(Join(Texts(cmp, vs)) + ([CLOSE_BRACKET] + r)) == Some((Trees(vs), r))
    decreases within, 0, |vs|
  {
    hide Join, ReadValue, Stable, Denote;
    var tail := [CLOSE_BRACKET] + r;
    JoinCons(Texts(cmp, vs), tail);
    TreesCons(vs);
    if |vs| == 1 {
      StableReads(cmp, vs[0], tail);
      assert tail[1..] == r && Trees(vs) == [Denote(vs[0])];
    } else {
      assert Texts(cmp, vs)[1..] == Texts(cmp, vs[1..]);
      var rest := [COMMA] + (Join(Texts(cmp, vs[1..])) + tail);
      StableReads(cmp, vs[0], rest);
      assert rest[1..] == Join(Texts(cmp, vs[1..])) + tail;
      ItemsRead(cmp, within, vs[1..], r);
    }
  }

  lemma {:induction false} TreesCons(vs: seq<Value>)
    requires |vs| > 0
    ensures Trees(vs) == [Denote(vs[0])] + Trees(vs[1..])
  {
    hide Denote;
  }

  lemma {:induction false} PairsCons(ms: seq<Member>)
    requires |ms| > 0
    ensures Pairs(ms) == [(ms[0].key, Denote(ms[0].value))] + Pairs(ms[1..])
  {
    hide Denote;
  }

  lemma {:induction false} PairsRead(cmp: Comparator, v: Value, r: Text)
    requires v.Object? && Proper(v) && Delimited(r)
    ensures ReadPairs(Join(MemberTexts(cmp, Listed(cmp, v.members))) + ([CLOSE_BRACE] + r))
         == Some((Pairs(Listed(cmp, v.members)), r))
    decreases v, 1
  {
    hide Join, ReadMembers, Stable, Denote, Listed;
    var es := Listed(cmp, v.members);
    var x := Join(MemberTexts(cmp, es)) + ([CLOSE_BRACE] + r);
    if |es| == 0 {
      NothingJoined(MemberTexts(cmp, es));
      assert x == [CLOSE_BRACE] + r && x[1..] == r;
      assert Pairs(es) == [];
    } else {
      JoinCons(MemberTexts(cmp, es), [CLOSE_BRACE] + r);
      assert x[0] == MemberText(cmp, es[0])[0] == QUOTE;
      ListedSmaller(cmp, v);
      MembersRead(cmp, v, es, r);
    }
  }

  // The key and the value at the front of a member's text.
  lemma {:induction false} MemberReads(cmp: Comparator, m: Member, rest: Text)
    ensures var x := MemberText(cmp, m) + rest;
            && |x| > 0 && x[0] == QUOTE
            && Unescape(x[1..]) == (m.key, [COLON] + (Stable(cmp, m.value) + rest))
  {
    hide Stable, Escape, Unescape;
    var x := MemberText(cmp, m) + rest;
    var after := [COLON] + (Stable(cmp, m.value) + rest);
    assert x == [QUOTE] + Escape(m.key) + [QUOTE] + after;
    assert x[1..] == Escape(m.key) + [QUOTE] + after;
    QuoteRoundTrip(m.key, after);
  }

  lemma {:induction false} MembersRead(cmp: Comparator, within: Value, es: seq<Member>, r: Text)
    requires |es| > 0 && forall i :: 0 <= i < |es| ==> es[i].value < within && Proper(es[i].value)
    ensures ReadMembers(Join(MemberTexts(cmp, es)) + ([CLOSE_BRACE] + r)) == Some((Pairs(es), r))
    decreases within, 0, |es|
  {
    hide Join, ReadValue, Stable, Denote, Unescape, MemberText;
    var tail := [CLOSE_BRACE] + r;
    JoinCons(MemberTexts(cmp, es), tail);
    PairsCons(es);
    var rest := if |es| == 1 then tail else [COMMA] + (Join(MemberTexts(cmp, es)[1..]) + tail);
    MemberReads(cmp, es[0], rest);
    var colon := [COLON] + (Stable(cmp, es[0].value) + rest);
    assert colon[1..] == Stable(cmp, es[0].value) + rest;
    StableReads(cmp, es[0].value, rest);
    if |es| == 1 {
      assert tail[1..] == r && Pairs(es) == [(es[0].key, Denote(es[0].value))];
    } else {
      assert MemberTexts(cmp, es)[1..] == MemberTexts(cmp, es[1..]);
      assert rest[1..] == Join(MemberTexts(cmp, es[1..])) + tail;
      MembersRead(cmp, within, es[1..], r);
    }
  }

  /**
   Two texts of proper values that start the same text, each followed by a delimiter or
   nothing, denote the same value and end at the same place.
   */
  lemma {:induction false} Readable(cmp: Comparator, v: Value, w: Value, r: Text, r': Text)
    requires Proper(v) && Proper(w) && Delimited(r) && Delimited(r')
    requires Stable(cmp, v) + r == Stable(cmp, w) + r'
    ensures Denote(v) == Denote(w) && r == r'
  {
    hide Stable, Denote, ReadValue, Proper, Delimited;
    StableReads(cmp, v, r);
    StableReads(cmp, w, r');
  }

  /** Equal texts come from values that are equal up to key order, whatever the comparator. */
  lemma {:induction false} EqualTextEqualValue(cmp: Comparator, v: Value, w: Value)
    requires Proper(v) && Proper(w) && Stable(cmp, v) == Stable(cmp, w)
    ensures Denote(v) == Denote(w)
  {
    hide Stable, Denote;
    Readable(cmp, v, w, [], []);
  }
}
