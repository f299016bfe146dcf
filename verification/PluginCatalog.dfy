/**
 Building a plugin catalog from the installs that storage lists, in any order. The code
 the build calls is given by what it answers: `resolve` is what it reads about one install
 (manifest, layout, trust and commands), `commands` is the number of commands all of them
 resolve to together, none if they conflict, and `hosts` whether the registry has or gets a
 host for an artifact.
 */
module PluginCatalog {
  import opened Common
  import opened Ordering
  import opened JsonText
  import opened StableSort
  import opened StableJson
  import opened StableOrder

  const MAX_ACTIVE_PLUGIN_INSTALLS := 256

  /** `content` stands for the rest of the install record. */
  datatype Install = Install(pluginId: Text, version: Text, content: nat)

  /** `record` is the JSON value that enters the revision. */
  datatype Artifact = Artifact(install: Install, record: Value)

  datatype Catalog = Catalog(revision: Text, active: nat, commands: nat)

  type Resolver = Install -> Result<Artifact, string>

  datatype Services = Services(
    cmp: Comparator,
    digest: Text -> Text,
    resolve: Resolver,
    commands: seq<Artifact> -> Option<nat>,
    hosts: Artifact -> bool)

  function Identity(x: Install): Text {
    x.pluginId + [0] + x.version
  }

  function ArtifactIdentity(a: Artifact): Text {
    Identity(a.install)
  }

  predicate Repeats(installs: seq<Install>, n: nat)
    requires n < |installs|
  {
    exists i :: 0 <= i < n && installs[i].pluginId == installs[n].pluginId
  }

  /** The artifacts of the installs, up to the first repeated plugin or failing install. */
  function Collect(resolve: Resolver, installs: seq<Install>): (r: Result<seq<Artifact>, string>)
    ensures r.Ok? ==> |r.value| == |installs|
  {
    if |installs| == 0 then Ok([])
    else
      var n := |installs| - 1;
      match Collect(resolve, installs[..n])
      case Err(code) => Err(code)
      case Ok(artifacts) =>
        if Repeats(installs, n) then Err("duplicate_active_plugin")
        else
          match resolve(installs[n])
          case Err(code) => Err(code)
          case Ok(artifact) => Ok(artifacts + [artifact])
  }

  function Records(artifacts: seq<Artifact>): (r: seq<Value>)
    ensures |r| == |artifacts| && forall i :: 0 <= i < |r| ==> r[i] == artifacts[i].record
  {
    seq(|artifacts|, i requires 0 <= i < |artifacts| => artifacts[i].record)
  }

  function Revision(cmp: Comparator, digest: Text -> Text, artifacts: seq<Artifact>): Text {
    digest(Stable(cmp, Array(Records(SortBy(cmp, ArtifactIdentity, artifacts)))))
  }

  predicate AllHosted(hosts: Artifact -> bool, artifacts: seq<Artifact>) {
    forall i :: 0 <= i < |artifacts| ==> hosts(artifacts[i])
  }

  function Build(sv: Services, installs: seq<Install>): Result<Catalog, string> {
    if |installs| > MAX_ACTIVE_PLUGIN_INSTALLS then Err("active_plugin_limit_exceeded")
    else
      match Collect(sv.resolve, SortBy(sv.cmp, Identity, installs))
      case Err(code) => Err(code)
      case Ok(artifacts) =>
        match sv.commands(artifacts)
        case None => Err("command_resolution_failed")
        case Some(commands) =>
          if !AllHosted(sv.hosts, artifacts) then Err("host_creation_failed")
          else Ok(Catalog(Revision(sv.cmp, sv.digest, artifacts), |artifacts|, commands))
  }

  method BuildPluginCatalog(sv: Services, installs: seq<Install>) returns (r: Result<Catalog, string>)
    ensures r == Build(sv, installs)
    ensures r.Ok? ==> PluginsDistinct(installs) && r.value.active == |installs|
  {
    hide Stable, SortBy;
    if |installs| > MAX_ACTIVE_PLUGIN_INSTALLS {
      return Err("active_plugin_limit_exceeded");
    }
    var sorted := SortBy(sv.cmp, Identity, installs);
    var seen: set<Text> := {};
    var artifacts: seq<Artifact> := [];
    for i := 0 to |sorted|
      invariant Collect(sv.resolve, sorted[..i]) == Ok(artifacts)
      invariant seen == set k | 0 <= k < i :: sorted[k].pluginId
    {
      assert sorted[..i + 1][..i] == sorted[..i];
      if sorted[i].pluginId in seen {
        CollectStops(sv.resolve, sorted, i);
        return Err("duplicate_active_plugin");
      }
      assert !Repeats(sorted[..i + 1], i);
      seen := seen + {sorted[i].pluginId};
      var artifact := sv.resolve(sorted[i]);
      if artifact.Err? {
        CollectStops(sv.resolve, sorted, i);
        return Err(artifact.error);
      }
      artifacts := artifacts + [artifact.value];
    }
    assert sorted[..|sorted|] == sorted;
    var commands := sv.commands(artifacts);
    if commands.None? {
      return Err("command_resolution_failed");
    }
    var hosted := EnsureHosts(sv.hosts, artifacts);
    if !hosted {
      return Err("host_creation_failed");
    }
    CollectDistinct(sv.resolve, sorted);
    DistinctPermutation(PluginId, sorted, installs);
    SamePermutation(sorted, installs);
    return Ok(Catalog(Revision(sv.cmp, sv.digest, artifacts), |artifacts|, commands.value));
  }

  /** Asks for a host for each artifact in turn, up to the first failure. */
  method EnsureHosts(hosts: Artifact -> bool, artifacts: seq<Artifact>) returns (ok: bool)
    ensures ok <==> AllHosted(hosts, artifacts)
  {
    for i := 0 to |artifacts|
      invariant AllHosted(hosts, artifacts[..i])
    {
      if !hosts(artifacts[i]) {
        return false;
      }
      assert artifacts[..i + 1] == artifacts[..i] + [artifacts[i]];
    }
    assert artifacts[..|artifacts|] == artifacts;
    return true;
  }

  // The first failure decides the whole collection.
  lemma {:induction false} CollectStops(resolve: Resolver, installs: seq<Install>, i: nat)
    requires i < |installs|
    requires Collect(resolve, installs[..i + 1]).Err?
          || (Collect(resolve, installs[..i]).Ok? && Repeats(installs, i))
    ensures Collect(resolve, installs).Err?
    ensures Collect(resolve, installs)
         == if Collect(resolve, installs[..i + 1]).Err? then Collect(resolve, installs[..i + 1])
            else Err("duplicate_active_plugin")
    decreases |installs|
  {
    assert installs[..i + 1][..i] == installs[..i];
    if Collect(resolve, installs[..i]).Ok? && Repeats(installs, i) {
      var k :| 0 <= k < i && installs[k].pluginId == installs[i].pluginId;
      assert installs[..i + 1][k] == installs[k];
      assert Repeats(installs[..i + 1], i);
    }
    if i + 1 == |installs| {
      assert installs[..i + 1] == installs;
    } else {
      var n := |installs| - 1;
      assert installs[..n][..i + 1] == installs[..i + 1];
      CollectStops(resolve, installs[..n], i);
    }
  }

  function PluginId(x: Install): Text {
    x.pluginId
  }

  ghost predicate PluginsDistinct(installs: seq<Install>) {
    KeysDistinct(PluginId, installs)
  }

  lemma {:induction false} CollectDistinct(resolve: Resolver, installs: seq<Install>)
    requires Collect(resolve, installs).Ok?
    ensures PluginsDistinct(installs)
    decreases |installs|
  {
    if |installs| > 0 {
      var n := |installs| - 1;
      CollectDistinct(resolve, installs[..n]);
      forall i | 0 <= i < n ensures PluginId(installs[i]) != PluginId(installs[n]) {
        assert !Repeats(installs, n);
      }
      assert forall i :: 0 <= i < n ==> installs[..n][i] == installs[i];
    }
  }

  // ----- the order of the listing -----

  /** Installs of different plugins never compare as equal. */
  ghost predicate PluginsUntied(cmp: Comparator, installs: seq<Install>) {
    forall x, y :: x in installs && y in installs && x.pluginId != y.pluginId ==> cmp(Identity(x), Identity(y)) != 0
  }

  /** No two of the installs compare as equal. */
  ghost predicate Untied(cmp: Comparator, installs: seq<Install>) {
    forall i, j :: 0 <= i < j < |installs| ==> cmp(Identity(installs[i]), Identity(installs[j])) != 0
  }

  lemma {:induction false} SamePlugin(a: seq<Install>, x: Install, y: Install)
    requires PluginsDistinct(a) && x in a && y in a && x.pluginId == y.pluginId
    ensures x == y
  {
    var i :| 0 <= i < |a| && a[i] == x;
    var j :| 0 <= j < |a| && a[j] == y;
    assert PluginId(a[i]) == PluginId(a[j]);
  }

  lemma {:induction false} UntiedTieFree(cmp: Comparator, a: seq<Install>)
    requires PluginsDistinct(a) && PluginsUntied(cmp, a)
    ensures TieFree(cmp, Identity, a)
  {
    hide PluginsDistinct, Identity;
    forall x, y | x in a && y in a && cmp(Identity(x), Identity(y)) == 0 ensures x == y {
      SamePlugin(a, x, y);
    }
  }

  /**
   With no plugin listed twice, every listing order leads to the same sorted sequence
   exactly when no two of the installs compare as equal.
   */
  lemma {:induction false} SortedListingIff(cmp: Comparator, a: seq<Install>)
    requires Consistent(cmp) && PluginsDistinct(a)
    ensures OrderFree(cmp, Identity, a) <==> Untied(cmp, a)
  {
    hide SortBy, Consistent, Identity, OrderFree, TieFree, Untied;
    OrderFreeIff(cmp, Identity, a);
    TieFreePairs(cmp, a);
  }

  lemma {:induction false} TieFreePairs(cmp: Comparator, a: seq<Install>)
    requires Consistent(cmp) && PluginsDistinct(a)
    ensures TieFree(cmp, Identity, a) <==> Untied(cmp, a)
  {
    hide Identity;
    if TieFree(cmp, Identity, a) {
      forall i, j | 0 <= i < j < |a| ensures cmp(Identity(a[i]), Identity(a[j])) != 0 {
        assert a[i] in a && a[j] in a && PluginId(a[i]) != PluginId(a[j]);
      }
    } else {
      var x, y :| x in a && y in a && cmp(Identity(x), Identity(y)) == 0 && x != y;
      var i :| 0 <= i < |a| && a[i] == x;
      var j :| 0 <= j < |a| && a[j] == y;
      assert cmp(Identity(y), Identity(x)) == 0;
    }
  }

  /**
   The order in which installs are listed does not matter when no two of different plugins
   compare as equal: two listings of the same installs both fail, or give the same catalog.
   */
  lemma {:induction false} ListingOrderIrrelevant(sv: Services, a: seq<Install>, b: seq<Install>)
    requires Consistent(sv.cmp) && PluginsUntied(sv.cmp, a) && multiset(a) == multiset(b)
    ensures Build(sv, a).Ok? <==> Build(sv, b).Ok?
    ensures PluginsDistinct(a) ==> Build(sv, a) == Build(sv, b)
    ensures Build(sv, a).Ok? ==> PluginsDistinct(a)
  {
    hide SortBy, Consistent, PluginsUntied, PluginsDistinct, Collect, Revision, AllHosted;
    SamePermutation(a, b);
    BuiltDistinct(sv, a);
    BuiltDistinct(sv, b);
    if PluginsDistinct(a) {
      UntiedTieFree(sv.cmp, a);
      TieFreeSorts(sv.cmp, Identity, a, b);
    } else if PluginsDistinct(b) {
      StillDistinct(b, a);
    }
  }

  lemma {:induction false} BuiltDistinct(sv: Services, a: seq<Install>)
    ensures Build(sv, a).Ok? ==> PluginsDistinct(a)
  {
    hide SortBy, Collect, PluginsDistinct, Revision, AllHosted;
    if Build(sv, a).Ok? {
      CollectDistinct(sv.resolve, SortBy(sv.cmp, Identity, a));
      StillDistinct(SortBy(sv.cmp, Identity, a), a);
    }
  }

  lemma {:induction false} StillDistinct(xs: seq<Install>, ys: seq<Install>)
    requires multiset(xs) == multiset(ys) && PluginsDistinct(xs)
    ensures PluginsDistinct(ys)
  {
    DistinctPermutation(PluginId, xs, ys);
  }

  // ----- revisions and ties -----

  function ArtifactOf(resolve: Resolver): Install -> Artifact {
    x => match resolve(x) case Ok(artifact) => artifact case Err(_) => Artifact(x, Null)
  }

  /** The revision of a listing all of whose installs resolve. */
  function ListingRevision(cmp: Comparator, digest: Text -> Text, resolve: Resolver, installs: seq<Install>): Text {
    Revision(cmp, digest, Map(ArtifactOf(resolve), SortBy(cmp, Identity, installs)))
  }

  lemma {:induction false} CollectMapped(resolve: Resolver, installs: seq<Install>)
    requires Collect(resolve, installs).Ok?
    ensures Collect(resolve, installs).value == Map(ArtifactOf(resolve), installs)
    ensures forall x :: x in installs ==> resolve(x).Ok?
    decreases |installs|
  {
    if |installs| > 0 {
      var n := |installs| - 1;
      CollectMapped(resolve, installs[..n]);
      assert installs == installs[..n] + [installs[n]];
      assert Map(ArtifactOf(resolve), installs)
          == Map(ArtifactOf(resolve), installs[..n]) + [ArtifactOf(resolve)(installs[n])];
    }
  }

  lemma {:induction false} BuiltRevision(sv: Services, a: seq<Install>)
    requires Build(sv, a).Ok?
    ensures Build(sv, a).value.revision == ListingRevision(sv.cmp, sv.digest, sv.resolve, a)
    ensures forall x :: x in a ==> sv.resolve(x).Ok?
  {
    hide SortBy, Collect, Revision, AllHosted;
    CollectMapped(sv.resolve, SortBy(sv.cmp, Identity, a));
    SamePermutation(SortBy(sv.cmp, Identity, a), a);
  }

  /** Each install resolves to an artifact of its own, and different installs to different records. */
  ghost predicate RecordsApart(resolve: Resolver, installs: seq<Install>) {
    && (forall x :: x in installs ==> ArtifactOf(resolve)(x).install == x && Proper(ArtifactOf(resolve)(x).record))
    && (forall x, y :: x in installs && y in installs && x != y ==>
          Denote(ArtifactOf(resolve)(x).record) != Denote(ArtifactOf(resolve)(y).record))
  }

  ghost predicate Injective(digest: Text -> Text) {
    forall s: Text, t: Text :: digest(s) == digest(t) ==> s == t
  }

  // The records of a listing in the order in which they enter its revision.
  lemma {:induction false} RecordOrder(cmp: Comparator, resolve: Resolver, a: seq<Install>)
    requires forall x :: x in a ==> ArtifactOf(resolve)(x).install == x
    ensures SortBy(cmp, ArtifactIdentity, Map(ArtifactOf(resolve), SortBy(cmp, Identity, a)))
         == Map(ArtifactOf(resolve), SortBy(cmp, Identity, SortBy(cmp, Identity, a)))
  {
    hide SortBy;
    SamePermutation(SortBy(cmp, Identity, a), a);
    SortMapped(cmp, ArtifactOf(resolve), Identity, ArtifactIdentity, SortBy(cmp, Identity, a));
  }

  // Equal revisions list the same installs in the same order.
  lemma {:induction false} SameRevisionSameOrder(cmp: Comparator, digest: Text -> Text, resolve: Resolver,
                                                 a: seq<Install>, b: seq<Install>)
    requires Injective(digest) && RecordsApart(resolve, a) && multiset(a) == multiset(b)
    requires ListingRevision(cmp, digest, resolve, a) == ListingRevision(cmp, digest, resolve, b)
    ensures SortBy(cmp, Identity, SortBy(cmp, Identity, a)) == SortBy(cmp, Identity, SortBy(cmp, Identity, b))
  {
    hide SortBy, Denote, Proper, Revision, Identity, ArtifactOf;
    var f := ArtifactOf(resolve);
    var s, t := SortBy(cmp, Identity, a), SortBy(cmp, Identity, b);
    var s2, t2 := SortBy(cmp, Identity, s), SortBy(cmp, Identity, t);
    SamePermutation(s, a);
    SamePermutation(t, a);
    SamePermutation(s2, a);
    SamePermutation(t2, a);
    SamePermutation(a, b);
    RecordOrder(cmp, resolve, a);
    RecordOrder(cmp, resolve, b);
    ProperMapped(f, s);
    ProperMapped(f, t);
    RevisionIdentifiesRecords(cmp, digest, Map(f, s), Map(f, t));
    var u, v := Trees(Records(Map(f, s2))), Trees(Records(Map(f, t2)));
    assert u == v && |u| == |s2| && |v| == |t2|;
    forall i | 0 <= i < |s2| ensures s2[i] == t2[i] {
      assert u[i] == Denote(f(s2[i]).record) && v[i] == Denote(f(t2[i]).record);
      assert s2[i] in s2 && t2[i] in t2;
    }
  }

  lemma {:induction false} ProperMapped(f: Install -> Artifact, s: seq<Install>)
    requires forall x :: x in s ==> Proper(f(x).record)
    ensures forall y :: y in Map(f, s) ==> Proper(y.record)
  {
    hide Proper;
    forall y | y in Map(f, s) ensures Proper(y.record) {
      var i :| 0 <= i < |s| && Map(f, s)[i] == y;
      assert s[i] in s;
    }
  }

  /** Listing one or the other of two tied installs first gives two revisions. */
  lemma {:induction false} TiedListingsDiffer(cmp: Comparator, digest: Text -> Text, resolve: Resolver,
                                              x: Install, y: Install, rest: seq<Install>)
    requires Consistent(cmp) && Injective(digest) && RecordsApart(resolve, [x, y] + rest)
    requires x != y && cmp(Identity(x), Identity(y)) == 0
    ensures ListingRevision(cmp, digest, resolve, [x, y] + rest) != ListingRevision(cmp, digest, resolve, [y, x] + rest)
  {
    hide SortBy, Consistent, Class, RecordsApart, Identity, ListingRevision;
    var a, b, k := [x, y] + rest, [y, x] + rest, Identity(x);
    assert multiset(a) == multiset(b);
    if ListingRevision(cmp, digest, resolve, a) == ListingRevision(cmp, digest, resolve, b) {
      SameRevisionSameOrder(cmp, digest, resolve, a, b);
      SortStable(cmp, Identity, a, k);
      SortStable(cmp, Identity, b, k);
      SortStable(cmp, Identity, SortBy(cmp, Identity, a), k);
      SortStable(cmp, Identity, SortBy(cmp, Identity, b), k);
      TiedOrderKept(cmp, Identity, x, y, rest, SortBy(cmp, Identity, a), SortBy(cmp, Identity, b));
    }
  }

  ghost predicate AlwaysBuilds(sv: Services, a: seq<Install>) {
    forall b :: multiset(b) == multiset(a) ==> Build(sv, b).Ok?
  }

  ghost predicate CatalogOrderFree(sv: Services, a: seq<Install>) {
    forall b :: multiset(b) == multiset(a) ==> Build(sv, b) == Build(sv, a)
  }

  lemma {:induction false} TieShows(sv: Services, a: seq<Install>, x: Install, y: Install)
    requires Consistent(sv.cmp) && Injective(sv.digest) && RecordsApart(sv.resolve, a) && AlwaysBuilds(sv, a)
    requires x in a && y in a && x != y && sv.cmp(Identity(x), Identity(y)) == 0
    ensures !CatalogOrderFree(sv, a)
  {
    hide Build, Consistent, Injective, Identity, ListingRevision, ArtifactOf, Denote, Proper;
    var rest := TwoOrders(a, x, y);
    var b, c := [x, y] + rest, [y, x] + rest;
    SamePermutation(b, a);
    assert RecordsApart(sv.resolve, b);
    TiedListingsDiffer(sv.cmp, sv.digest, sv.resolve, x, y, rest);
    BuiltRevision(sv, b);
    BuiltRevision(sv, c);
    assert Build(sv, b) != Build(sv, c);
  }

  lemma {:induction false} TieFreeOrderFree(sv: Services, a: seq<Install>)
    requires Consistent(sv.cmp) && TieFree(sv.cmp, Identity, a)
    ensures CatalogOrderFree(sv, a)
  {
    hide SortBy, Consistent, TieFree, Collect, Revision, AllHosted;
    forall b | multiset(b) == multiset(a) ensures Build(sv, b) == Build(sv, a) {
      SamePermutation(a, b);
      TieFreeSorts(sv.cmp, Identity, a, b);
    }
  }

  /**
   For installs that build in every order, with records that tell them apart and an
   injective digest: the catalog is the same for every listing order exactly when no two
   installs compare as equal.
   */
  lemma {:induction false} CatalogOrderFreeIff(sv: Services, a: seq<Install>)
    requires Consistent(sv.cmp) && Injective(sv.digest) && RecordsApart(sv.resolve, a) && AlwaysBuilds(sv, a)
    ensures CatalogOrderFree(sv, a) <==> Untied(sv.cmp, a)
  {
    hide Build, Consistent, Injective, RecordsApart, Identity, PluginsDistinct, CatalogOrderFree, Untied;
    assert Build(sv, a).Ok?;
    BuiltDistinct(sv, a);
    TieFreePairs(sv.cmp, a);
    if TieFree(sv.cmp, Identity, a) {
      TieFreeOrderFree(sv, a);
    } else {
      var x, y :| x in a && y in a && sv.cmp(Identity(x), Identity(y)) == 0 && x != y;
      TieShows(sv, a, x, y);
    }
  }

  // ----- when a catalog is built -----

  lemma {:induction false} CollectIff(resolve: Resolver, installs: seq<Install>)
    ensures Collect(resolve, installs).Ok? <==>
              PluginsDistinct(installs) && forall i :: 0 <= i < |installs| ==> resolve(installs[i]).Ok?
    decreases |installs|
  {
    if |installs| > 0 {
      var n := |installs| - 1;
      CollectIff(resolve, installs[..n]);
      DistinctSnoc(installs);
    }
  }

  lemma {:induction false} DistinctSnoc(installs: seq<Install>)
    requires |installs| > 0
    ensures PluginsDistinct(installs) <==>
              PluginsDistinct(installs[..|installs| - 1]) && !Repeats(installs, |installs| - 1)
  {
    var n := |installs| - 1;
    assert forall i :: 0 <= i < n ==> installs[..n][i] == installs[i];
    if PluginsDistinct(installs) {
      forall i | 0 <= i < n ensures installs[i].pluginId != installs[n].pluginId {
        assert PluginId(installs[i]) != PluginId(installs[n]);
      }
    }
  }

  /**
   A catalog is built exactly when there are at most 256 installs, no plugin twice, every
   install resolves, the commands resolve together, and every artifact gets a host. It then
   has the revision of the listing, the number of installs, and the number of commands the
   resolution gave. If only a host is missing, or only the commands conflict, that is the error.
   */
  lemma {:induction false} BuildMeaning(sv: Services, a: seq<Install>)
    ensures var artifacts := Map(ArtifactOf(sv.resolve), SortBy(sv.cmp, Identity, a));
            var r := Build(sv, a);
            var collected := |a| <= 256 && PluginsDistinct(a) && forall x :: x in a ==> sv.resolve(x).Ok?;
            var hosted := forall i :: 0 <= i < |artifacts| ==> sv.hosts(artifacts[i]);
            && (r.Ok? <==> collected && sv.commands(artifacts).Some? && hosted)
            && (r.Ok? ==> r.value.revision == ListingRevision(sv.cmp, sv.digest, sv.resolve, a) && r.value.active == |a|
                          && sv.commands(artifacts) == Some(r.value.commands))
            && (|a| > 256 ==> r == Err("active_plugin_limit_exceeded"))
            && (collected && sv.commands(artifacts).None? ==> r == Err("command_resolution_failed"))
            && (collected && sv.commands(artifacts).Some? && !hosted ==> r == Err("host_creation_failed"))
  {
    hide SortBy, Collect, Revision, PluginsDistinct, ArtifactOf;
    var sorted := SortBy(sv.cmp, Identity, a);
    SamePermutation(sorted, a);
    CollectIff(sv.resolve, sorted);
    assert forall i :: 0 <= i < |sorted| ==> sorted[i] in a;
    assert (forall i :: 0 <= i < |sorted| ==> sv.resolve(sorted[i]).Ok?)
      <==> forall x :: x in a ==> sv.resolve(x).Ok? by {
      forall x | x in a ensures exists i :: 0 <= i < |sorted| && sorted[i] == x { assert x in sorted; }
    }
    assert PluginsDistinct(sorted) <==> PluginsDistinct(a) by {
      if PluginsDistinct(sorted) { StillDistinct(sorted, a); }
      if PluginsDistinct(a) { StillDistinct(a, sorted); }
    }
    if Collect(sv.resolve, sorted).Ok? { CollectMapped(sv.resolve, sorted); }
  }

  // ----- a comparator that ignores NUL -----

  function Strip(t: Text): Text {
    if |t| == 0 then [] else Strip(t[..|t| - 1]) + if t[|t| - 1] == 0 then [] else [t[|t| - 1]]
  }

  /** Texts that differ only in NUL characters compare as equal, as in a locale's collation. */
  ghost predicate IgnoresNul(cmp: Comparator) {
    forall a: Text, b: Text :: Strip(a) == Strip(b) ==> cmp(a, b) == 0
  }

  lemma {:induction false} StripConcat(a: Text, b: Text)
    ensures Strip(a + b) == Strip(a) + Strip(b)
    decreases |b|
  {
    if |b| == 0 {
      assert a + b == a;
    } else {
      var n := |b| - 1;
      StripConcat(a, b[..n]);
      assert (a + b)[..|a + b| - 1] == a + b[..n];
    }
  }

  /** The separator then separates nothing: only id and version run together count. */
  lemma {:induction false} RunTogetherTies(cmp: Comparator, x: Install, y: Install)
    requires IgnoresNul(cmp) && x.pluginId + x.version == y.pluginId + y.version
    ensures cmp(Identity(x), Identity(y)) == 0
  {
    StripIdentity(x);
    StripIdentity(y);
  }

  lemma {:induction false} StripIdentity(x: Install)
    ensures Strip(Identity(x)) == Strip(x.pluginId + x.version)
  {
    StripConcat(x.pluginId + [0], x.version);
    StripConcat(x.pluginId, [0]);
    StripConcat(x.pluginId, x.version);
    assert [0][..0] == [] && Strip([0]) == [];
  }

  // Plugin `a` at version 11.0.0 and plugin `a1` at version 1.0.0.
  const A_11: Install := Install([0x61], [0x31, 0x31, 0x2E, 0x30, 0x2E, 0x30], 0)
  const A1_1: Install := Install([0x61, 0x31], [0x31, 0x2E, 0x30, 0x2E, 0x30], 1)

  /** Two valid installs whose listing order shows in the revision. */
  lemma {:induction false} ListingOrderShows(cmp: Comparator, digest: Text -> Text, resolve: Resolver)
    requires Consistent(cmp) && IgnoresNul(cmp) && Injective(digest) && RecordsApart(resolve, [A_11, A1_1])
    ensures ListingRevision(cmp, digest, resolve, [A_11, A1_1]) != ListingRevision(cmp, digest, resolve, [A1_1, A_11])
  {
    hide Consistent, IgnoresNul, Injective, RecordsApart, ListingRevision;
    RunTogetherTies(cmp, A_11, A1_1);
    assert [A_11, A1_1] + [] == [A_11, A1_1] && [A1_1, A_11] + [] == [A1_1, A_11];
    TiedListingsDiffer(cmp, digest, resolve, A_11, A1_1, []);
  }

  // ----- revisions and records -----

  /** With an injective digest, equal revisions mean the same records up to key order, in catalog order. */
  lemma {:induction false} RevisionIdentifiesRecords(cmp: Comparator, digest: Text -> Text,
                                                     a: seq<Artifact>, b: seq<Artifact>)
    requires Injective(digest)
    requires forall x :: x in a ==> Proper(x.record)
    requires forall x :: x in b ==> Proper(x.record)
    requires Revision(cmp, digest, a) == Revision(cmp, digest, b)
    ensures Trees(Records(SortBy(cmp, ArtifactIdentity, a))) == Trees(Records(SortBy(cmp, ArtifactIdentity, b)))
  {
    hide SortBy, Stable, Denote;
    var s, t := SortBy(cmp, ArtifactIdentity, a), SortBy(cmp, ArtifactIdentity, b);
    SamePermutation(s, a);
    SamePermutation(t, b);
    forall i | 0 <= i < |s| ensures Proper(Records(s)[i]) { assert s[i] in s; }
    forall i | 0 <= i < |t| ensures Proper(Records(t)[i]) { assert t[i] in t; }
    assert Proper(Array(Records(s))) && Proper(Array(Records(t)));
    EqualTextEqualValue(cmp, Array(Records(s)), Array(Records(t)));
    DenoteArray(Records(s));
    DenoteArray(Records(t));
  }

  /** Artifacts of the same installs whose records are equal up to key order. */
  ghost predicate SameRecords(p: (Artifact, Artifact)) {
    && p.0.install == p.1.install && Proper(p.0.record) && Proper(p.1.record)
    && Denote(p.0.record) == Denote(p.1.record)
  }

  /** Records equal up to key order, without ties, give equal revisions. */
  lemma {:induction false} RevisionUpToKeyOrder(cmp: Comparator, digest: Text -> Text, pairs: seq<(Artifact, Artifact)>)
    requires Consistent(cmp) && forall p :: p in pairs ==> SameRecords(p) && NoTies(cmp, p.0.record)
    ensures Revision(cmp, digest, Map(First, pairs)) == Revision(cmp, digest, Map(Second, pairs))
  {
    hide SortBy, Stable, Denote, Proper, NoTies, Consistent;
    SortMapped(cmp, First, FirstIdentity, ArtifactIdentity, pairs);
    SortMapped(cmp, Second, FirstIdentity, ArtifactIdentity, pairs);
    var sorted := SortBy(cmp, FirstIdentity, pairs);
    SamePermutation(sorted, pairs);
    var a, b := Records(Map(First, sorted)), Records(Map(Second, sorted));
    forall i | 0 <= i < |sorted| ensures Stable(cmp, a[i]) == Stable(cmp, b[i]) {
      assert sorted[i] in pairs;
      EqualValueEqualText(cmp, sorted[i].0.record, sorted[i].1.record);
    }
    assert Texts(cmp, a) == Texts(cmp, b);
    StableArray(cmp, a);
    StableArray(cmp, b);
  }

  function First(p: (Artifact, Artifact)): Artifact {
    p.0
  }

  function Second(p: (Artifact, Artifact)): Artifact {
    p.1
  }

  function FirstIdentity(p: (Artifact, Artifact)): Text {
    ArtifactIdentity(p.0)
  }
}
