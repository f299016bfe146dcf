/**
 The strict validator of execution policies. Objects are unordered, so two documents
 are the same JSON value when they have the same fields with the same values.
 */
module ExecutionPolicy {
  import opened Common
  import opened Ordering

  /** `UInt` is a number that reads as an unsigned 64-bit integer. */
  datatype Json =
    | Null
    | Bool(flag: bool)
    | UInt(number: nat)
    | OtherNumber(digits: string)
    | Str(text: string)
    | Arr(items: seq<Json>)
    | Obj(fields: map<string, Json>)

  const FILE_EFFECTS: set<string> := {"create", "read", "remove", "write"}
  const MAX_TEXT_BYTES := 256
  const MAX_SAFE_INTEGER := 9_007_199_254_740_991

  function Field(o: Json, name: string): Option<Json> {
    if o.Obj? && name in o.fields then Some(o.fields[name]) else None
  }

  /** As many fields as expected, and every expected field present. */
  predicate ExactKeys(o: Json, names: seq<string>) {
    o.Obj? && |o.fields| == |names| && forall i :: 0 <= i < |names| ==> names[i] in o.fields
  }

  predicate Distinct(names: seq<string>) {
    forall i, j :: 0 <= i < j < |names| ==> names[i] != names[j]
  }

  lemma {:induction false} DistinctSize(names: seq<string>)
    requires Distinct(names)
    ensures |Elements(names)| == |names|
    decreases |names|
  {
    if |names| > 0 {
      var n := |names| - 1;
      DistinctSize(names[..n]);
      assert Elements(names) == Elements(names[..n]) + {names[n]};
    }
  }

  lemma {:induction false} EqualSize<T>(a: set<T>, b: set<T>)
    requires a <= b && |a| == |b|
    ensures a == b
  {
    assert b == a + (b - a);
  }

  /** The two tests together accept exactly the objects with exactly these fields. */
  lemma {:induction false} ExactKeysIff(o: Json, names: seq<string>)
    requires Distinct(names)
    ensures ExactKeys(o, names) <==> o.Obj? && o.fields.Keys == Elements(names)
  {
    DistinctSize(names);
    assert forall i :: 0 <= i < |names| ==> names[i] in Elements(names);
    if o.Obj? {
      assert |o.fields| == |o.fields.Keys|;
      if ExactKeys(o, names) {
        EqualSize(Elements(names), o.fields.Keys);
      }
    }
  }

  // ----- scalars -----

  predicate BoundedText(v: Option<Json>) {
    v.Some? && v.value.Str? && 1 <= Utf8Length(v.value.text) <= MAX_TEXT_BYTES
  }

  predicate OneOf(v: Option<Json>, allowed: set<string>) {
    v.Some? && v.value.Str? && v.value.text in allowed
  }

  predicate IsBool(v: Option<Json>) {
    v.Some? && v.value.Bool?
  }

  predicate PositiveInteger(v: Option<Json>) {
    v.Some? && v.value.UInt? && 0 < v.value.number <= MAX_SAFE_INTEGER
  }

  predicate RevisionOne(v: Option<Json>) {
    v == Some(UInt(1))
  }

  // ----- lists in canonical order -----

  predicate Texts(items: seq<Json>) {
    forall i :: 0 <= i < |items| ==> items[i].Str?
  }

  function TextsOf(items: seq<Json>): (r: seq<string>)
    requires Texts(items)
    ensures |r| == |items| && forall i :: 0 <= i < |r| ==> items[i] == Str(r[i])
  {
    seq(|items|, i requires 0 <= i < |items| => items[i].text)
  }

  predicate Canonical(items: seq<Json>) {
    Texts(items) && Increasing(TextLess, TextsOf(items))
  }

  predicate EffectsValid(v: Option<Json>) {
    && v.Some? && v.value.Arr? && |v.value.items| > 0
    && Canonical(v.value.items)
    && forall i :: 0 <= i < |v.value.items| ==> v.value.items[i].text in FILE_EFFECTS
  }

  predicate StringsValid(v: Option<Json>) {
    && v.Some? && v.value.Arr?
    && Canonical(v.value.items)
    && forall i :: 0 <= i < |v.value.items| ==> BoundedText(Some(v.value.items[i]))
  }

  lemma {:induction false} IncreasingSnoc(xs: seq<string>, x: string)
    requires Increasing(TextLess, xs)
    ensures Increasing(TextLess, xs + [x]) <==> |xs| == 0 || TextLess(xs[|xs| - 1], x)
  {
    TextOrder();
    var ys := xs + [x];
    if |xs| > 0 && TextLess(xs[|xs| - 1], x) {
      forall i, j | 0 <= i < j < |ys| ensures TextLess(ys[i], ys[j]) {
        if j == |xs| && i < |xs| - 1 { assert TextLess(xs[i], xs[|xs| - 1]); }
      }
    } else if |xs| > 0 {
      assert !TextLess(ys[|xs| - 1], ys[|xs|]);
    }
  }

  // A list that breaks the order in a prefix breaks it.
  lemma {:induction false} PrefixBreaks(xs: seq<string>, n: nat)
    requires n <= |xs| && !Increasing(TextLess, xs[..n])
    ensures !Increasing(TextLess, xs)
  {
    var i, j :| 0 <= i < j < n && !TextLess(xs[..n][i], xs[..n][j]);
    assert !TextLess(xs[i], xs[j]);
  }

  method ValidateEffects(v: Option<Json>) returns (ok: bool)
    ensures ok <==> EffectsValid(v)
  {
    hide TextLess;
    if v.None? || !v.value.Arr? || |v.value.items| == 0 {
      return false;
    }
    var items := v.value.items;
    var previous: Option<string> := None;
    for i := 0 to |items|
      invariant Texts(items[..i]) && Increasing(TextLess, TextsOf(items[..i]))
      invariant forall j :: 0 <= j < i ==> items[j].text in FILE_EFFECTS
      invariant previous == if i == 0 then None else Some(items[i - 1].text)
    {
      if !items[i].Str? || items[i].text !in FILE_EFFECTS {
        return false;
      }
      ghost var before := TextsOf(items[..i]);
      assert TextsOf(items[..i + 1]) == before + [items[i].text];
      IncreasingSnoc(before, items[i].text);
      if previous.Some? && !TextLess(previous.value, items[i].text) {
        if Texts(items) {
          assert TextsOf(items)[..i + 1] == TextsOf(items[..i + 1]);
          PrefixBreaks(TextsOf(items), i + 1);
        }
        return false;
      }
      previous := Some(items[i].text);
    }
    assert items[..|items|] == items;
    return true;
  }

  method ValidateCanonicalStrings(v: Option<Json>) returns (ok: bool)
    ensures ok <==> StringsValid(v)
  {
    hide Utf8Length, TextLess;
    if v.None? || !v.value.Arr? {
      return false;
    }
    var items := v.value.items;
    var previous: Option<string> := None;
    for i := 0 to |items|
      invariant Texts(items[..i]) && Increasing(TextLess, TextsOf(items[..i]))
      invariant forall j :: 0 <= j < i ==> BoundedText(Some(items[j]))
      invariant previous == if i == 0 then None else Some(items[i - 1].text)
    {
      if !BoundedText(Some(items[i])) {
        return false;
      }
      ghost var before := TextsOf(items[..i]);
      assert TextsOf(items[..i + 1]) == before + [items[i].text];
      IncreasingSnoc(before, items[i].text);
      if previous.Some? && !TextLess(previous.value, items[i].text) {
        if Texts(items) {
          assert TextsOf(items)[..i + 1] == TextsOf(items[..i + 1]);
          PrefixBreaks(TextsOf(items), i + 1);
        }
        return false;
      }
      previous := Some(items[i].text);
    }
    assert items[..|items|] == items;
    return true;
  }

  // ----- roots -----

  const ROOT_FIELDS := ["id", "effects"]

  predicate RootValid(r: Json) {
    ExactKeys(r, ROOT_FIELDS) && BoundedText(Field(r, "id")) && EffectsValid(Field(r, "effects"))
  }

  predicate AllRootsValid(roots: seq<Json>) {
    forall i :: 0 <= i < |roots| ==> RootValid(roots[i])
  }

  function RootIds(roots: seq<Json>): (r: seq<string>)
    requires AllRootsValid(roots)
    ensures |r| == |roots| && forall i :: 0 <= i < |r| ==> Field(roots[i], "id") == Some(Str(r[i]))
  {
    seq(|roots|, i requires 0 <= i < |roots| => Field(roots[i], "id").value.text)
  }

  predicate RootsValid(v: Option<Json>) {
    v.Some? && v.value.Arr? && AllRootsValid(v.value.items) && Increasing(TextLess, RootIds(v.value.items))
  }

  method ValidateRoots(v: Option<Json>) returns (ok: bool)
    ensures ok <==> RootsValid(v)
  {
    hide Utf8Length, TextLess, EffectsValid, ExactKeys;
    if v.None? || !v.value.Arr? {
      return false;
    }
    var roots := v.value.items;
    var previous: Option<string> := None;
    for i := 0 to |roots|
      invariant AllRootsValid(roots[..i]) && Increasing(TextLess, RootIds(roots[..i]))
      invariant forall j :: 0 <= j < i ==> RootValid(roots[j])
      invariant previous == if i == 0 then None else Some(Field(roots[i - 1], "id").value.text)
    {
      var root := roots[i];
      if !ExactKeys(root, ROOT_FIELDS) || !BoundedText(Field(root, "id")) {
        assert !RootValid(roots[i]);
        return false;
      }
      var id := Field(root, "id").value.text;
      var effects := ValidateEffects(Field(root, "effects"));
      if effects {
        assert RootValid(roots[i]);
        assert RootIds(roots[..i + 1]) == RootIds(roots[..i]) + [id];
        IncreasingSnoc(RootIds(roots[..i]), id);
      }
      if previous.Some? && !TextLess(previous.value, id) {
        if AllRootsValid(roots) {
          assert RootValid(roots[i]);
          assert RootIds(roots)[..i + 1] == RootIds(roots[..i + 1]);
          PrefixBreaks(RootIds(roots), i + 1);
        }
        return false;
      }
      previous := Some(id);
      if !effects {
        assert !RootValid(roots[i]);
        return false;
      }
    }
    assert roots[..|roots|] == roots;
    return true;
  }

  // ----- the policy -----

  const POLICY_FIELDS := ["revision", "filesystem", "process", "network", "isolation", "pty"]
  const FILESYSTEM_FIELDS := ["roots", "maxReadBytes", "maxDirectoryEntries"]
  const PROCESS_FIELDS := ["oneShot", "managed", "cleanup", "environmentVariables"]
  const CLEANUPS: set<string> := {"runtime_process_tree", "durable_supervisor"}
  const NETWORKS: set<string> := {"unrestricted", "denied"}
  const ISOLATIONS: set<string> := {"none", "os"}

  predicate FilesystemValid(v: Option<Json>) {
    && v.Some? && ExactKeys(v.value, FILESYSTEM_FIELDS)
    && RootsValid(Field(v.value, "roots"))
    && PositiveInteger(Field(v.value, "maxReadBytes"))
    && PositiveInteger(Field(v.value, "maxDirectoryEntries"))
  }

  predicate ProcessValid(v: Option<Json>) {
    && v.Some? && ExactKeys(v.value, PROCESS_FIELDS)
    && IsBool(Field(v.value, "oneShot"))
    && IsBool(Field(v.value, "managed"))
    && OneOf(Field(v.value, "cleanup"), CLEANUPS)
    && StringsValid(Field(v.value, "environmentVariables"))
  }

  predicate PolicyValid(v: Json) {
    && ExactKeys(v, POLICY_FIELDS)
    && RevisionOne(Field(v, "revision"))
    && FilesystemValid(Field(v, "filesystem"))
    && ProcessValid(Field(v, "process"))
    && OneOf(Field(v, "network"), NETWORKS)
    && OneOf(Field(v, "isolation"), ISOLATIONS)
    && IsBool(Field(v, "pty"))
  }

  method ValidatePolicy(v: Json) returns (ok: bool)
    ensures ok <==> PolicyValid(v)
  {
    hide RootsValid, StringsValid, ExactKeys;
    if !ExactKeys(v, POLICY_FIELDS) || !RevisionOne(Field(v, "revision")) {
      return false;
    }
    var filesystem := Field(v, "filesystem");
    if filesystem.None? || !ExactKeys(filesystem.value, FILESYSTEM_FIELDS) {
      return false;
    }
    var roots := ValidateRoots(Field(filesystem.value, "roots"));
    if !roots || !PositiveInteger(Field(filesystem.value, "maxReadBytes"))
       || !PositiveInteger(Field(filesystem.value, "maxDirectoryEntries")) {
      return false;
    }
    var process := Field(v, "process");
    if process.None? || !ExactKeys(process.value, PROCESS_FIELDS)
       || !IsBool(Field(process.value, "oneShot")) || !IsBool(Field(process.value, "managed"))
       || !OneOf(Field(process.value, "cleanup"), CLEANUPS) {
      return false;
    }
    var variables := ValidateCanonicalStrings(Field(process.value, "environmentVariables"));
    if !variables {
      return false;
    }
    return OneOf(Field(v, "network"), NETWORKS) && OneOf(Field(v, "isolation"), ISOLATIONS) && IsBool(Field(v, "pty"));
  }

  // ----- what a policy means -----

  datatype Policy = Policy(
    roots: map<string, set<string>>,
    maxReadBytes: nat,
    maxDirectoryEntries: nat,
    oneShot: bool,
    managed: bool,
    cleanup: string,
    variables: set<string>,
    network: string,
    isolation: string,
    pty: bool)

  function EffectsOf(r: Json): set<string>
    requires RootValid(r)
  {
    Elements(TextsOf(Field(r, "effects").value.items))
  }

  function RootMap(roots: seq<Json>): map<string, set<string>>
    requires AllRootsValid(roots)
  {
    if |roots| == 0 then map[]
    else
      var n := |roots| - 1;
      RootMap(roots[..n])[Field(roots[n], "id").value.text := EffectsOf(roots[n])]
  }

  function Meaning(v: Json): Policy
    requires PolicyValid(v)
  {
    var fs, process := Field(v, "filesystem").value, Field(v, "process").value;
    Policy(
      RootMap(Field(fs, "roots").value.items),
      Field(fs, "maxReadBytes").value.number,
      Field(fs, "maxDirectoryEntries").value.number,
      Field(process, "oneShot").value.flag,
      Field(process, "managed").value.flag,
      Field(process, "cleanup").value.text,
      Elements(TextsOf(Field(process, "environmentVariables").value.items)),
      Field(v, "network").value.text,
      Field(v, "isolation").value.text,
      Field(v, "pty").value.flag)
  }

  // ----- one accepted document per meaning -----

  lemma {:induction false} CanonicalUnique(a: seq<Json>, b: seq<Json>)
    requires Canonical(a) && Canonical(b) && Elements(TextsOf(a)) == Elements(TextsOf(b))
    ensures a == b
  {
    hide TextLess;
    TextOrder();
    IncreasingUnique(TextLess, TextsOf(a), TextsOf(b));
    forall i | 0 <= i < |a| ensures a[i] == b[i] {
      assert a[i] == Str(TextsOf(a)[i]) && b[i] == Str(TextsOf(b)[i]);
    }
  }

  lemma {:induction false} SameFields(a: Json, b: Json, names: seq<string>)
    requires Distinct(names) && ExactKeys(a, names) && ExactKeys(b, names)
    requires forall i :: 0 <= i < |names| ==> Field(a, names[i]) == Field(b, names[i])
    ensures a == b
  {
    ExactKeysIff(a, names);
    ExactKeysIff(b, names);
    forall k | k in a.fields ensures a.fields[k] == b.fields[k] {
      assert k in Elements(names);
      var i :| 0 <= i < |names| && names[i] == k;
      assert Field(a, names[i]) == Field(b, names[i]);
    }
    assert a.fields == b.fields;
  }

  lemma {:induction false} RootUnique(a: Json, b: Json)
    requires RootValid(a) && RootValid(b)
    requires Field(a, "id") == Field(b, "id") && EffectsOf(a) == EffectsOf(b)
    ensures a == b
  {
    hide TextLess, Utf8Length, Elements;
    CanonicalUnique(Field(a, "effects").value.items, Field(b, "effects").value.items);
    SameFields(a, b, ROOT_FIELDS);
  }

  lemma {:induction false} RootMapKeys(roots: seq<Json>)
    requires AllRootsValid(roots)
    ensures RootMap(roots).Keys == Elements(RootIds(roots))
    decreases |roots|
  {
    hide RootValid, EffectsOf;
    if |roots| > 0 {
      var n := |roots| - 1;
      RootMapKeys(roots[..n]);
      var ids := RootIds(roots);
      assert RootIds(roots[..n]) == ids[..n];
      assert Elements(ids) == Elements(ids[..n]) + {ids[n]} by { assert ids == ids[..n] + [ids[n]]; }
    } else {
      assert RootIds(roots) == [];
    }
  }

  lemma {:induction false} RootMapAt(roots: seq<Json>, i: nat)
    requires AllRootsValid(roots) && Increasing(TextLess, RootIds(roots)) && i < |roots|
    ensures RootIds(roots)[i] in RootMap(roots) && RootMap(roots)[RootIds(roots)[i]] == EffectsOf(roots[i])
    decreases |roots|
  {
    hide RootValid, EffectsOf, TextLess;
    var n := |roots| - 1;
    var ids := RootIds(roots);
    assert RootIds(roots[..n]) == ids[..n];
    if i < n {
      RootMapAt(roots[..n], i);
      assert roots[..n][i] == roots[i];
      TextOrder();
      assert TextLess(ids[i], ids[n]);
    }
  }

  lemma {:induction false} RootsUnique(a: seq<Json>, b: seq<Json>)
    requires AllRootsValid(a) && Increasing(TextLess, RootIds(a))
    requires AllRootsValid(b) && Increasing(TextLess, RootIds(b))
    requires RootMap(a) == RootMap(b)
    ensures a == b
  {
    hide RootValid, EffectsOf, TextLess, RootMap, Elements;
    TextOrder();
    RootMapKeys(a);
    RootMapKeys(b);
    IncreasingUnique(TextLess, RootIds(a), RootIds(b));
    forall i | 0 <= i < |a| ensures a[i] == b[i] {
      RootMapAt(a, i);
      RootMapAt(b, i);
      assert RootIds(a)[i] == RootIds(b)[i];
      RootUnique(a[i], b[i]);
    }
  }

  lemma {:induction false} FilesystemUnique(a: Json, b: Json)
    requires FilesystemValid(Some(a)) && FilesystemValid(Some(b))
    requires RootMap(Field(a, "roots").value.items) == RootMap(Field(b, "roots").value.items)
    requires Field(a, "maxReadBytes").value == Field(b, "maxReadBytes").value
    requires Field(a, "maxDirectoryEntries").value == Field(b, "maxDirectoryEntries").value
    ensures a == b
  {
    hide RootMap, AllRootsValid, RootIds, TextLess;
    RootsUnique(Field(a, "roots").value.items, Field(b, "roots").value.items);
    SameFields(a, b, FILESYSTEM_FIELDS);
  }

  lemma {:induction false} ProcessUnique(a: Json, b: Json)
    requires ProcessValid(Some(a)) && ProcessValid(Some(b))
    requires Field(a, "oneShot").value == Field(b, "oneShot").value
    requires Field(a, "managed").value == Field(b, "managed").value
    requires Field(a, "cleanup").value == Field(b, "cleanup").value
    requires Elements(TextsOf(Field(a, "environmentVariables").value.items))
          == Elements(TextsOf(Field(b, "environmentVariables").value.items))
    ensures a == b
  {
    hide TextLess, Utf8Length, Elements, Canonical;
    CanonicalUnique(Field(a, "environmentVariables").value.items, Field(b, "environmentVariables").value.items);
    SameFields(a, b, PROCESS_FIELDS);
  }

  /** Two accepted policies with the same meaning are the same JSON value. */
  lemma {:induction false} UniqueAcceptedEncoding(v: Json, w: Json)
    requires PolicyValid(v) && PolicyValid(w) && Meaning(v) == Meaning(w)
    ensures v == w
  {
    hide RootMap, RootsValid, StringsValid, Elements, TextsOf;
    FilesystemUnique(Field(v, "filesystem").value, Field(w, "filesystem").value);
    ProcessUnique(Field(v, "process").value, Field(w, "process").value);
    SameFields(v, w, POLICY_FIELDS);
  }

  // ----- and one for every meaning -----

  predicate Bounded(text: string)
    ensures Bounded(text) <==> 1 <= Utf8Length(text) <= MAX_TEXT_BYTES
  {
    text != "" && Utf8Length(text) <= 256
  }

  ghost predicate Expressible(p: Policy) {
    && (forall id :: id in p.roots ==>
          Bounded(id) && p.roots[id] != {} && p.roots[id] <= {"create", "read", "remove", "write"})
    && (forall x :: x in p.variables ==> Bounded(x))
    && 0 < p.maxReadBytes <= 9_007_199_254_740_991 && 0 < p.maxDirectoryEntries <= 9_007_199_254_740_991
    && p.cleanup in {"runtime_process_tree", "durable_supervisor"}
    && p.network in {"unrestricted", "denied"} && p.isolation in {"none", "os"}
  }

  function Strs(xs: seq<string>): (r: seq<Json>)
    ensures |r| == |xs| && forall i :: 0 <= i < |r| ==> r[i] == Str(xs[i])
  {
    seq(|xs|, i requires 0 <= i < |xs| => Str(xs[i]))
  }

  function EncodeSet(s: set<string>): (r: Json)
    ensures r.Arr?
  {
    TextOrder();
    Arr(Strs(Sorted(TextLess, s)))
  }

  function EncodeRoot(id: string, effects: set<string>): Json {
    Obj(map["id" := Str(id), "effects" := EncodeSet(effects)])
  }

  function EncodeRoots(roots: map<string, set<string>>, ids: seq<string>): (r: seq<Json>)
    requires forall id :: id in ids ==> id in roots
    ensures |r| == |ids| && forall i :: 0 <= i < |r| ==> r[i] == EncodeRoot(ids[i], roots[ids[i]])
  {
    seq(|ids|, i requires 0 <= i < |ids| => EncodeRoot(ids[i], roots[ids[i]]))
  }

  function RootOrder(roots: map<string, set<string>>): (ids: seq<string>)
    ensures Increasing(TextLess, ids) && Elements(ids) == roots.Keys
    ensures forall id :: id in ids ==> id in roots
  {
    TextOrder();
    var ids := Sorted(TextLess, roots.Keys);
    assert forall id :: id in ids ==> id in Elements(ids);
    ids
  }

  function EncodeFilesystem(p: Policy): Json {
    Obj(map["roots" := Arr(EncodeRoots(p.roots, RootOrder(p.roots))),
            "maxReadBytes" := UInt(p.maxReadBytes),
            "maxDirectoryEntries" := UInt(p.maxDirectoryEntries)])
  }

  function EncodeProcess(p: Policy): Json {
    Obj(map["oneShot" := Bool(p.oneShot), "managed" := Bool(p.managed), "cleanup" := Str(p.cleanup),
            "environmentVariables" := EncodeSet(p.variables)])
  }

  /** The canonical document of a policy. */
  function Encode(p: Policy): Json {
    Obj(map["revision" := UInt(1), "filesystem" := EncodeFilesystem(p), "process" := EncodeProcess(p),
            "network" := Str(p.network), "isolation" := Str(p.isolation), "pty" := Bool(p.pty)])
  }

  lemma {:induction false} EncodeSetCanonical(s: set<string>)
    ensures var items := EncodeSet(s).items;
            && Canonical(items) && Elements(TextsOf(items)) == s
            && (|items| == 0 <==> s == {})
            && forall i :: 0 <= i < |items| ==> items[i].Str? && items[i].text in s
  {
    hide TextLess;
    TextOrder();
    var xs := Sorted(TextLess, s);
    assert TextsOf(Strs(xs)) == xs;
    FirstIsElement(xs);
    forall i | 0 <= i < |xs| ensures xs[i] in s { assert xs[i] in Elements(xs); }
  }

  lemma {:induction false} FieldsExact(o: Json, names: seq<string>)
    requires Distinct(names) && o.Obj? && o.fields.Keys == Elements(names)
    ensures ExactKeys(o, names)
  {
    ExactKeysIff(o, names);
  }

  lemma {:induction false} EncodeRootValid(id: string, effects: set<string>)
    requires Bounded(id) && effects != {} && effects <= FILE_EFFECTS
    ensures var r := EncodeRoot(id, effects);
            RootValid(r) && EffectsOf(r) == effects && Field(r, "id") == Some(Str(id))
  {
    hide TextLess, Utf8Length, Canonical, Elements, EncodeSet;
    var r := EncodeRoot(id, effects);
    EncodeSetCanonical(effects);
    assert r.fields.Keys == Elements(ROOT_FIELDS) by { RootFieldSet(); }
    FieldsExact(r, ROOT_FIELDS);
  }

  lemma RootFieldSet()
    ensures Elements(ROOT_FIELDS) == {"id", "effects"}
  {
  }

  lemma {:induction false} EncodeRootsValid(roots: map<string, set<string>>, ids: seq<string>)
    requires forall id :: id in ids ==> id in roots && Bounded(id) && roots[id] != {} && roots[id] <= FILE_EFFECTS
    ensures var items := EncodeRoots(roots, ids);
            && AllRootsValid(items) && RootIds(items) == ids
            && forall i :: 0 <= i < |items| ==> EffectsOf(items[i]) == roots[ids[i]]
  {
    hide RootValid, EffectsOf, EncodeRoot, Bounded;
    var items := EncodeRoots(roots, ids);
    forall i | 0 <= i < |ids|
      ensures RootValid(items[i]) && EffectsOf(items[i]) == roots[ids[i]] && Field(items[i], "id") == Some(Str(ids[i]))
    {
      assert ids[i] in ids;
      EncodeRootValid(ids[i], roots[ids[i]]);
    }
  }

  lemma {:induction false} RootMapFrom(items: seq<Json>, roots: map<string, set<string>>)
    requires AllRootsValid(items)
    requires forall i :: 0 <= i < |items| ==>
               RootIds(items)[i] in roots && EffectsOf(items[i]) == roots[RootIds(items)[i]]
    ensures forall id :: id in RootMap(items) ==> id in roots && RootMap(items)[id] == roots[id]
    decreases |items|
  {
    hide RootValid, EffectsOf;
    if |items| > 0 {
      var n := |items| - 1;
      assert RootIds(items[..n]) == RootIds(items)[..n];
      assert forall i :: 0 <= i < n ==> items[..n][i] == items[i];
      RootMapFrom(items[..n], roots);
    }
  }

  lemma {:induction false} EncodeFilesystemValid(p: Policy)
    requires Expressible(p)
    ensures FilesystemValid(Some(EncodeFilesystem(p)))
    ensures var items := EncodeRoots(p.roots, RootOrder(p.roots));
            AllRootsValid(items) && RootMap(items) == p.roots
  {
    hide RootMap, AllRootsValid, Bounded, TextLess, EncodeRoots, Increasing, EncodeFilesystem, Field, Elements;
    EncodeFilesystemFields(p);
    var ids := RootOrder(p.roots);
    var items := EncodeRoots(p.roots, ids);
    EncodeRootsValid(p.roots, ids);
    RootMapKeys(items);
    RootMapFrom(items, p.roots);
  }

  lemma FilesystemFieldSet()
    ensures Elements(FILESYSTEM_FIELDS) == {"roots", "maxReadBytes", "maxDirectoryEntries"}
  {
  }

  lemma {:induction false} EncodeProcessFields(p: Policy)
    ensures var process := EncodeProcess(p);
            && ExactKeys(process, PROCESS_FIELDS)
            && Field(process, "oneShot") == Some(Bool(p.oneShot))
            && Field(process, "managed") == Some(Bool(p.managed))
            && Field(process, "cleanup") == Some(Str(p.cleanup))
            && Field(process, "environmentVariables") == Some(EncodeSet(p.variables))
  {
    hide EncodeSet, Elements, ExactKeys;
    var process := EncodeProcess(p);
    assert process.fields.Keys == Elements(PROCESS_FIELDS) by { ProcessFieldSet(); }
    FieldsExact(process, PROCESS_FIELDS);
  }

  lemma {:induction false} EncodeProcessValid(p: Policy)
    requires Expressible(p)
    ensures ProcessValid(Some(EncodeProcess(p)))
    ensures Texts(EncodeSet(p.variables).items) && Elements(TextsOf(EncodeSet(p.variables).items)) == p.variables
  {
    hide Utf8Length, TextLess, EncodeSet, Increasing, Elements, EncodeProcess, Field, ExactKeys;
    EncodeProcessFields(p);
    EncodeSetCanonical(p.variables);
    var items := EncodeSet(p.variables).items;
    forall i | 0 <= i < |items| ensures BoundedText(Some(items[i])) { assert Bounded(items[i].text); }
  }

  lemma ProcessFieldSet()
    ensures Elements(PROCESS_FIELDS) == {"oneShot", "managed", "cleanup", "environmentVariables"}
  {
  }

  lemma PolicyFieldSet()
    ensures Elements(POLICY_FIELDS) == {"revision", "filesystem", "process", "network", "isolation", "pty"}
  {
  }

  lemma {:induction false} EncodeFields(p: Policy)
    ensures var v := Encode(p);
            && ExactKeys(v, POLICY_FIELDS)
            && Field(v, "revision") == Some(UInt(1))
            && Field(v, "filesystem") == Some(EncodeFilesystem(p))
            && Field(v, "process") == Some(EncodeProcess(p))
            && Field(v, "network") == Some(Str(p.network))
            && Field(v, "isolation") == Some(Str(p.isolation))
            && Field(v, "pty") == Some(Bool(p.pty))
  {
    hide EncodeFilesystem, EncodeProcess, Elements, ExactKeys;
    var v := Encode(p);
    assert v.fields.Keys == Elements(POLICY_FIELDS) by { PolicyFieldSet(); }
    FieldsExact(v, POLICY_FIELDS);
  }

  lemma {:induction false} EncodeFilesystemFields(p: Policy)
    ensures var fs := EncodeFilesystem(p);
            && ExactKeys(fs, FILESYSTEM_FIELDS)
            && Field(fs, "roots") == Some(Arr(EncodeRoots(p.roots, RootOrder(p.roots))))
            && Field(fs, "maxReadBytes") == Some(UInt(p.maxReadBytes))
            && Field(fs, "maxDirectoryEntries") == Some(UInt(p.maxDirectoryEntries))
  {
    hide EncodeRoots, RootOrder, Elements, ExactKeys;
    var fs := EncodeFilesystem(p);
    assert fs.fields.Keys == Elements(FILESYSTEM_FIELDS) by { FilesystemFieldSet(); }
    FieldsExact(fs, FILESYSTEM_FIELDS);
  }

  /** The canonical document of an expressible policy is accepted and means that policy. */
  lemma {:induction false} EncodeRoundTrip(p: Policy)
    requires Expressible(p)
    ensures PolicyValid(Encode(p)) && Meaning(Encode(p)) == p
  {
    hide FilesystemValid, ProcessValid, EncodeFilesystem, EncodeProcess, RootMap, TextsOf, Elements, ExactKeys,
         Encode, Field;
    EncodeFields(p);
    EncodeFilesystemValid(p);
    EncodeProcessValid(p);
    MeaningParts(Encode(p), p);
  }

  lemma {:induction false} MeaningParts(v: Json, p: Policy)
    requires PolicyValid(v) && v == Encode(p)
    requires var items := EncodeRoots(p.roots, RootOrder(p.roots));
             AllRootsValid(items) && RootMap(items) == p.roots
    requires Texts(EncodeSet(p.variables).items) && Elements(TextsOf(EncodeSet(p.variables).items)) == p.variables
    ensures Meaning(v) == p
  {
    hide RootsValid, StringsValid, RootMap, TextsOf, Elements, ExactKeys, EncodeSet, EncodeRoots, Encode, Field,
         EncodeFilesystem, EncodeProcess, AllRootsValid, RootOrder;
    EncodeFields(p);
    EncodeFilesystemFields(p);
    EncodeProcessFields(p);
  }

  lemma {:induction false} RootMapExpressible(roots: seq<Json>)
    requires AllRootsValid(roots)
    ensures forall id :: id in RootMap(roots) ==>
              Bounded(id) && RootMap(roots)[id] != {} && RootMap(roots)[id] <= FILE_EFFECTS
    decreases |roots|
  {
    hide Utf8Length, TextLess;
    if |roots| > 0 {
      var n := |roots| - 1;
      RootMapExpressible(roots[..n]);
      assert RootValid(roots[n]);
      var items := Field(roots[n], "effects").value.items;
      var texts := TextsOf(items);
      FirstIsElement(texts);
      forall x | x in Elements(texts) ensures x in FILE_EFFECTS {
        var i :| 0 <= i < |texts| && texts[i] == x;
        assert items[i].text in FILE_EFFECTS;
      }
    }
  }

  lemma {:induction false} MeaningExpressible(v: Json)
    requires PolicyValid(v)
    ensures Expressible(Meaning(v))
  {
    hide Utf8Length, TextLess, RootMap, AllRootsValid, ExactKeys, Canonical;
    var fs, process := Field(v, "filesystem").value, Field(v, "process").value;
    RootMapExpressible(Field(fs, "roots").value.items);
    var items := Field(process, "environmentVariables").value.items;
    var texts := TextsOf(items);
    forall x | x in Elements(texts) ensures Bounded(x) {
      var i :| 0 <= i < |texts| && texts[i] == x;
      assert BoundedText(Some(items[i]));
    }
  }

  /**
   The validator accepts a document exactly when it is the canonical document of some
   expressible policy, and then it is the one of its own meaning.
   */
  lemma {:induction false} AcceptedIffCanonical(v: Json)
    ensures PolicyValid(v) <==> exists p :: Expressible(p) && v == Encode(p)
    ensures PolicyValid(v) ==> v == Encode(Meaning(v))
  {
    hide PolicyValid, Meaning, Encode, Expressible;
    if PolicyValid(v) {
      var p := Meaning(v);
      MeaningExpressible(v);
      EncodeRoundTrip(p);
      UniqueAcceptedEncoding(v, Encode(p));
    }
    forall p | Expressible(p) && v == Encode(p) ensures PolicyValid(v) {
      EncodeRoundTrip(p);
    }
  }
}
