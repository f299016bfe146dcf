/**
 What every budget transaction keeps, whatever the requests: identity, usage
 within the grant, and books that balance with the event log.
 */
module BudgetInvariants {
  import opened Common
  import opened BudgetAmounts
  import opened BudgetLedger

  function CommittedShare(g: Grant, scope: ScopeId): Amount {
    if g.scope == scope && g.state == Committed then g.committed.GetOr(NOTHING) else NOTHING
  }

  function CommittedShares(grants: seq<Grant>, scope: ScopeId): (r: seq<Amount>)
    ensures |r| == |grants|
    ensures forall i :: 0 <= i < |grants| ==> r[i] == CommittedShare(grants[i], scope)
  {
    seq(|grants|, i requires 0 <= i < |grants| => CommittedShare(grants[i], scope))
  }

  // ----- the event log read back -----

  datatype GrantView = GrantView(scope: ScopeId, requested: Amount, committed: Option<Amount>, state: GrantState)

  datatype Replica = Replica(grants: map<string, GrantView>, usage: map<ScopeId, Amount>) {
    function UsageOf(scope: ScopeId): Amount {
      if scope in usage then usage[scope] else NOTHING
    }
  }

  function Apply(r: Replica, e: Event): Replica {
    match e
    case ReservedEvent(s, g, requested, _, _) => r.(grants := r.grants[g := GrantView(s, requested, None, Reserved)])
    case DeniedEvent(_, _, _) => r
    case CommittedEvent(s, g, used) =>
      if g !in r.grants then r
      else Replica(r.grants[g := r.grants[g].(state := Committed, committed := Some(used))],
                   r.usage[s := Add(r.UsageOf(s), used)])
    case ReleasedEvent(s, g) =>
      if g !in r.grants then r else r.(grants := r.grants[g := r.grants[g].(state := Released)])
  }

  function Replay(log: seq<Event>): Replica {
    if |log| == 0 then Replica(map[], map[]) else Apply(Replay(log[..|log| - 1]), log[|log| - 1])
  }

  lemma {:induction false} ReplaySnoc(log: seq<Event>, e: Event)
    ensures Replay(log + [e]) == Apply(Replay(log), e)
  {
    assert (log + [e])[..|log|] == log;
  }

  function View(g: Grant): GrantView {
    GrantView(g.scope, g.requested, g.committed, g.state)
  }

  // ----- the invariant -----

  function Ids(grants: seq<Grant>): set<string> {
    set i | 0 <= i < |grants| :: grants[i].id
  }

  ghost predicate Within(used: Amount, granted: Amount) {
    forall d: Dimension :: used.Value(d) <= granted.Value(d)
  }

  ghost predicate GrantsUnique(grants: seq<Grant>) {
    forall i, j :: 0 <= i < j < |grants| ==>
      grants[i].id != grants[j].id && !(grants[i].scope == grants[j].scope && grants[i].key == grants[j].key)
  }

  ghost predicate GrantSound(scopes: map<ScopeId, Scope>, entries: seq<Entry>, g: Grant) {
    && g.scope in scopes
    && ValidAmount(g.requested)
    && Within(UsageTotal(entries, g.id), g.requested)
    && g.committed == if g.state == Committed then Some(UsageTotal(entries, g.id)) else None
  }

  ghost predicate GrantsSound(scopes: map<ScopeId, Scope>, entries: seq<Entry>, grants: seq<Grant>) {
    forall i :: 0 <= i < |grants| ==> GrantSound(scopes, entries, grants[i])
  }

  ghost predicate EntriesSound(ids: set<string>, entries: seq<Entry>) {
    && (forall i :: 0 <= i < |entries| ==> ValidAmount(entries[i].usage) && entries[i].grant in ids)
    && (forall i, j :: 0 <= i < j < |entries| ==>
          !(entries[i].grant == entries[j].grant && entries[i].key == entries[j].key))
  }

  ghost predicate ScopeBalanced(scope: Scope, grants: seq<Grant>, s: ScopeId) {
    && ValidAmount(scope.limit)
    && ValidAmount(scope.usage)
    && scope.usage == Total(CommittedShares(grants, s))
  }

  ghost predicate Balanced(scopes: map<ScopeId, Scope>, grants: seq<Grant>) {
    forall s :: s in scopes ==> ScopeBalanced(scopes[s], grants, s)
  }

  ghost predicate MirrorsGrants(r: Replica, grants: seq<Grant>) {
    && r.grants.Keys == Ids(grants)
    && forall i :: 0 <= i < |grants| ==> grants[i].id in r.grants && r.grants[grants[i].id] == View(grants[i])
  }

  ghost predicate MirrorsUsage(r: Replica, scopes: map<ScopeId, Scope>) {
    && r.usage.Keys <= scopes.Keys
    && forall s :: s in scopes ==> r.UsageOf(s) == scopes[s].usage
  }

  ghost predicate Inv(l: Ledger) {
    && GrantsUnique(l.grants)
    && GrantsSound(l.scopes, l.entries, l.grants)
    && EntriesSound(Ids(l.grants), l.entries)
    && Balanced(l.scopes, l.grants)
    && MirrorsGrants(Replay(l.log), l.grants)
    && MirrorsUsage(Replay(l.log), l.scopes)
  }

  /** Row `i` is a reserved grant of the scope. */
  ghost predicate HeldBy(grants: seq<Grant>, s: ScopeId, i: int) {
    0 <= i < |grants| && grants[i].scope == s && grants[i].state == Reserved
  }

  // ----- small facts about the tables -----

  lemma {:induction false} FindUnique(grants: seq<Grant>, i: nat)
    requires GrantsUnique(grants) && i < |grants|
    ensures FindGrant(grants, grants[i].id) == Some(i)
    ensures FindGrantByKey(grants, grants[i].scope, grants[i].key) == Some(i)
  {
  }

  lemma {:induction false} NoUsage(entries: seq<Entry>, grant: string)
    requires forall i :: 0 <= i < |entries| ==> entries[i].grant != grant
    ensures UsageTotal(entries, grant) == NOTHING
    decreases |entries|
  {
    var xs := UsageShares(entries, grant);
    if |entries| > 0 {
      var n := |entries| - 1;
      NoUsage(entries[..n], grant);
      assert xs[..n] == UsageShares(entries[..n], grant);
    }
  }

  lemma {:induction false} UsageSnoc(entries: seq<Entry>, e: Entry, grant: string)
    ensures UsageTotal(entries + [e], grant) == Add(UsageTotal(entries, grant), UsageShare(e, grant))
  {
    assert UsageShares(entries + [e], grant) == UsageShares(entries, grant) + [UsageShare(e, grant)];
    TotalSnoc(UsageShares(entries, grant), UsageShare(e, grant));
  }

  lemma {:induction false} ReservedSnoc(grants: seq<Grant>, g: Grant, s: ScopeId)
    ensures ReservedTotal(grants + [g], s) == Add(ReservedTotal(grants, s), ReservedShare(g, s))
  {
    assert ReservedShares(grants + [g], s) == ReservedShares(grants, s) + [ReservedShare(g, s)];
    TotalSnoc(ReservedShares(grants, s), ReservedShare(g, s));
  }

  /** Settling a reserved row takes exactly its request out of the reserved total. */
  lemma {:induction false} ReservedUpdate(grants: seq<Grant>, i: nat, g: Grant, s: ScopeId)
    requires i < |grants| && g.state != Reserved
    ensures forall d: Dimension ::
              ReservedTotal(grants[i := g], s).Value(d)
              == ReservedTotal(grants, s).Value(d) - ReservedShare(grants[i], s).Value(d)
  {
    var xs := ReservedShares(grants, s);
    assert ReservedShares(grants[i := g], s) == xs[i := NOTHING];
    TotalUpdate(xs, i, NOTHING);
    assert forall d: Dimension :: Add(Total(xs[i := NOTHING]), xs[i]).Value(d) == Add(Total(xs), NOTHING).Value(d);
  }

  lemma {:induction false} CommittedSnoc(grants: seq<Grant>, g: Grant, s: ScopeId)
    requires g.state != Committed
    ensures Total(CommittedShares(grants + [g], s)) == Total(CommittedShares(grants, s))
  {
    assert CommittedShares(grants + [g], s) == CommittedShares(grants, s) + [NOTHING];
    TotalSnoc(CommittedShares(grants, s), NOTHING);
  }

  lemma {:induction false} CommittedUpdate(grants: seq<Grant>, i: nat, g: Grant, s: ScopeId)
    requires i < |grants| && grants[i].state != Committed
    ensures Total(CommittedShares(grants[i := g], s)) == Add(Total(CommittedShares(grants, s)), CommittedShare(g, s))
  {
    var xs := CommittedShares(grants, s);
    assert CommittedShares(grants[i := g], s) == xs[i := CommittedShare(g, s)];
    TotalUpdate(xs, i, CommittedShare(g, s));
    assert xs[i] == NOTHING;
  }

  lemma {:induction false} NothingCommitted(grants: seq<Grant>, s: ScopeId)
    requires forall i :: 0 <= i < |grants| ==> grants[i].scope != s
    ensures Total(CommittedShares(grants, s)) == NOTHING
    ensures ReservedTotal(grants, s) == NOTHING
    decreases |grants|
  {
    if |grants| > 0 {
      var n := |grants| - 1;
      NothingCommitted(grants[..n], s);
      assert CommittedShares(grants, s)[..n] == CommittedShares(grants[..n], s);
      assert ReservedShares(grants, s)[..n] == ReservedShares(grants[..n], s);
    }
  }

  // A scope without a row has no grants.
  lemma {:induction false} NoRowNoGrants(l: Ledger, s: ScopeId)
    requires Inv(l) && s !in l.scopes
    ensures forall i :: 0 <= i < |l.grants| ==> l.grants[i].scope != s
  {
    forall i | 0 <= i < |l.grants| ensures l.grants[i].scope != s {
      assert GrantSound(l.scopes, l.entries, l.grants[i]);
    }
  }

  lemma {:induction false} UsageValid(ids: set<string>, entries: seq<Entry>, grant: string)
    requires EntriesSound(ids, entries)
    ensures ValidAmount(UsageTotal(entries, grant))
  {
    TotalPrefix(UsageShares(entries, grant), |entries|);
  }

  // ----- every write keeps every part of the invariant -----

  lemma {:induction false} MoreScopesSound(scopes: map<ScopeId, Scope>, scopes': map<ScopeId, Scope>,
                                           entries: seq<Entry>, grants: seq<Grant>)
    requires GrantsSound(scopes, entries, grants) && scopes.Keys <= scopes'.Keys
    ensures GrantsSound(scopes', entries, grants)
  {
    forall i | 0 <= i < |grants| ensures GrantSound(scopes', entries, grants[i]) {
      assert GrantSound(scopes, entries, grants[i]);
    }
  }

  lemma {:induction false} SetLimitKeepsInv(l: Ledger, s: ScopeId, limit: Amount)
    requires Inv(l) && ValidAmount(limit)
    ensures Inv(SetLimit(l, s, limit))
  {
    hide Replay, GrantsSound, Balanced, EntriesSound, MirrorsGrants, GrantsUnique;
    var l' := SetLimit(l, s, limit);
    MoreScopesSound(l.scopes, l'.scopes, l.entries, l.grants);
    SetLimitBalanced(l, s, limit);
    assert MirrorsUsage(Replay(l.log), l'.scopes);
  }

  lemma {:induction false} SetLimitBalanced(l: Ledger, s: ScopeId, limit: Amount)
    requires Inv(l) && ValidAmount(limit)
    ensures Balanced(SetLimit(l, s, limit).scopes, l.grants)
  {
    hide Total, ValidAmount;
    if s !in l.scopes {
      NoRowNoGrants(l, s);
      NothingCommitted(l.grants, s);
    }
    var scopes := SetLimit(l, s, limit).scopes;
    forall t | t in scopes ensures ScopeBalanced(scopes[t], l.grants, t) {
      if t in l.scopes { assert ScopeBalanced(l.scopes[t], l.grants, t); }
    }
  }

  lemma {:induction false} DeniedKeepsInv(l: Ledger, s: ScopeId, reason: string, requested: Amount)
    requires Inv(l)
    ensures Inv(l.(log := l.log + [DeniedEvent(s, reason, requested)]))
  {
    hide Replay, GrantsSound, Balanced, EntriesSound, MirrorsUsage, MirrorsGrants, GrantsUnique;
    ReplaySnoc(l.log, DeniedEvent(s, reason, requested));
  }

  lemma {:induction false} InsertGrantKeepsInv(l: Ledger, g: Grant, objective: Option<string>)
    requires Inv(l)
    requires g.scope in l.scopes && ValidAmount(g.requested) && g.state == Reserved && g.committed == None
    requires FindGrant(l.grants, g.id).None? && FindGrantByKey(l.grants, g.scope, g.key).None?
    ensures Inv(InsertGrant(l, g, objective))
  {
    hide Replay, GrantsSound, Balanced, ValidAmount, Ids, MirrorsGrants;
    IdsSnoc(l.grants, g);
    assert GrantsUnique(l.grants + [g]);
    NewGrantSound(l, g);
    NewGrantBalanced(l.scopes, l.grants, g);
    ReplaySnoc(l.log, ReservedEvent(g.scope, g.id, g.requested, g.reason, objective));
    NewGrantMirrored(Replay(l.log), l.grants, g, objective);
  }

  lemma {:induction false} IdsSnoc(grants: seq<Grant>, g: Grant)
    ensures Ids(grants + [g]) == Ids(grants) + {g.id}
    ensures FindGrant(grants, g.id).None? ==> g.id !in Ids(grants)
  {
    var more := grants + [g];
    assert forall i :: 0 <= i < |grants| ==> more[i] == grants[i];
    assert more[|grants|] == g;
  }

  lemma {:induction false} NewGrantSound(l: Ledger, g: Grant)
    requires Inv(l)
    requires g.scope in l.scopes && ValidAmount(g.requested) && g.state == Reserved && g.committed == None
    requires FindGrant(l.grants, g.id).None?
    ensures GrantsSound(l.scopes, l.entries, l.grants + [g])
  {
    hide Total, FindGrant, Balanced, MirrorsUsage, MirrorsGrants, GrantsUnique;
    assert g.id !in Ids(l.grants);
    NoUsage(l.entries, g.id);
    var grants := l.grants + [g];
    forall i | 0 <= i < |grants| ensures GrantSound(l.scopes, l.entries, grants[i]) {
      if i < |l.grants| { assert GrantSound(l.scopes, l.entries, l.grants[i]); }
    }
  }

  lemma {:induction false} NewGrantBalanced(scopes: map<ScopeId, Scope>, grants: seq<Grant>, g: Grant)
    requires Balanced(scopes, grants) && g.state == Reserved
    ensures Balanced(scopes, grants + [g])
  {
    forall s | s in scopes ensures ScopeBalanced(scopes[s], grants + [g], s) {
      assert ScopeBalanced(scopes[s], grants, s);
      CommittedSnoc(grants, g, s);
    }
  }

  lemma {:induction false} NewGrantMirrored(r: Replica, grants: seq<Grant>, g: Grant, objective: Option<string>)
    requires MirrorsGrants(r, grants) && g.state == Reserved && g.committed == None && g.id !in Ids(grants)
    ensures MirrorsGrants(Apply(r, ReservedEvent(g.scope, g.id, g.requested, g.reason, objective)), grants + [g])
  {
    var r' := Apply(r, ReservedEvent(g.scope, g.id, g.requested, g.reason, objective));
    var more := grants + [g];
    IdsSnoc(grants, g);
    forall i | 0 <= i < |more| ensures more[i].id in r'.grants && r'.grants[more[i].id] == View(more[i]) {
      if i < |grants| { assert grants[i].id in Ids(grants); }
    }
  }

  lemma {:induction false} InsertEntryKeepsInv(l: Ledger, e: Entry, i: nat)
    requires Inv(l) && i < |l.grants| && l.grants[i].id == e.grant && l.grants[i].state == Reserved
    requires ValidAmount(e.usage) && FindEntry(l.entries, e.grant, e.key).None?
    requires FitsReservedGrant(l.grants[i].requested, UsageTotal(l.entries, e.grant), e.usage)
    ensures Inv(InsertEntry(l, e))
  {
    hide Replay, GrantsSound, Balanced, MirrorsUsage, MirrorsGrants, GrantsUnique, ValidAmount, FitsReservedGrant;
    NewEntrySound(l, e, i);
    assert l.grants[i].id in Ids(l.grants);
    assert EntriesSound(Ids(l.grants), l.entries + [e]);
  }

  lemma {:induction false} NewEntrySound(l: Ledger, e: Entry, i: nat)
    requires GrantsUnique(l.grants) && GrantsSound(l.scopes, l.entries, l.grants)
    requires i < |l.grants| && l.grants[i].id == e.grant && l.grants[i].state == Reserved
    requires FitsReservedGrant(l.grants[i].requested, UsageTotal(l.entries, e.grant), e.usage)
    ensures GrantsSound(l.scopes, l.entries + [e], l.grants)
  {
    hide Add, UsageTotal, ValidAmount, FitsReservedGrant;
    forall j | 0 <= j < |l.grants| ensures GrantSound(l.scopes, l.entries + [e], l.grants[j]) {
      assert GrantSound(l.scopes, l.entries, l.grants[j]);
      UsageSnoc(l.entries, e, l.grants[j].id);
      AddNothing(UsageTotal(l.entries, l.grants[j].id));
      if j != i { assert l.grants[j].id != e.grant; }
    }
  }

  lemma {:induction false} SettleUnique(grants: seq<Grant>, i: nat, g: Grant)
    requires GrantsUnique(grants) && i < |grants|
    requires g.id == grants[i].id && g.scope == grants[i].scope && g.key == grants[i].key
    ensures GrantsUnique(grants[i := g]) && Ids(grants[i := g]) == Ids(grants)
  {
    var grants' := grants[i := g];
    assert forall j :: 0 <= j < |grants| ==> grants'[j].id == grants[j].id;
    assert GrantsUnique(grants');
  }

  /** An event that changes only the view of row `i` mirrors the update of that row. */
  lemma {:induction false} SettleMirrored(r: Replica, r': Replica, grants: seq<Grant>, i: nat, g: Grant)
    requires GrantsUnique(grants) && MirrorsGrants(r, grants) && i < |grants|
    requires g.id == grants[i].id && g.scope == grants[i].scope && g.key == grants[i].key
    requires r'.grants == r.grants[g.id := View(g)]
    ensures MirrorsGrants(r', grants[i := g])
  {
    hide View;
    SettleUnique(grants, i, g);
    assert grants[i].id in Ids(grants);
    var grants' := grants[i := g];
    forall j | 0 <= j < |grants'| ensures grants'[j].id in r'.grants && r'.grants[grants'[j].id] == View(grants'[j]) {
      assert grants[j].id in r.grants && (j != i ==> grants[j].id != g.id);
    }
  }

  lemma {:induction false} CommitKeepsInv(l: Ledger, i: nat)
    requires Inv(l) && i < |l.grants| && l.grants[i].state == Reserved
    ensures l.grants[i].scope in l.scopes
    ensures Inv(CommitRow(l, i, UsageTotal(l.entries, l.grants[i].id)))
  {
    hide Replay, GrantsUnique, Balanced, EntriesSound, MirrorsUsage, ValidAmount, UsageTotal, Add;
    var g := l.grants[i];
    assert GrantSound(l.scopes, l.entries, g);
    var used := UsageTotal(l.entries, g.id);
    var g' := g.(state := Committed, committed := Some(used));
    var e := CommittedEvent(g.scope, g.id, used);
    var l' := CommitRow(l, i, used);
    ReplaySnoc(l.log, e);
    assert Replay(l.log).grants[g.id] == View(g);
    SettleUnique(l.grants, i, g');
    SettleMirrored(Replay(l.log), Replay(l'.log), l.grants, i, g');
    CommitUsageMirrored(Replay(l.log), l.scopes, g, used);
    UsageValid(Ids(l.grants), l.entries, g.id);
    CommitBalanced(l, i, used);
    MoreScopesSound(l.scopes, l'.scopes, l.entries, l.grants);
    SettleSound(l'.scopes, l.entries, l.grants, i, g');
  }

  lemma {:induction false} CommitUsageMirrored(r: Replica, scopes: map<ScopeId, Scope>, g: Grant, used: Amount)
    requires MirrorsUsage(r, scopes) && g.scope in scopes && g.id in r.grants
    ensures MirrorsUsage(Apply(r, CommittedEvent(g.scope, g.id, used)),
                         scopes[g.scope := scopes[g.scope].(usage := Add(scopes[g.scope].usage, used))])
  {
  }

  lemma {:induction false} SettleSound(scopes: map<ScopeId, Scope>, entries: seq<Entry>, grants: seq<Grant>,
                                       i: nat, g: Grant)
    requires GrantsSound(scopes, entries, grants) && i < |grants| && GrantSound(scopes, entries, g)
    ensures GrantsSound(scopes, entries, grants[i := g])
  {
    var grants' := grants[i := g];
    forall j | 0 <= j < |grants'| ensures GrantSound(scopes, entries, grants'[j]) {
      assert GrantSound(scopes, entries, grants[j]);
    }
  }

  lemma {:induction false} CommitBalanced(l: Ledger, i: nat, used: Amount)
    requires Balanced(l.scopes, l.grants) && i < |l.grants| && l.grants[i].state == Reserved
    requires l.grants[i].scope in l.scopes && ValidAmount(used)
    ensures Balanced(CommitRow(l, i, used).scopes, CommitRow(l, i, used).grants)
  {
    hide Total, Add, ValidAmount;
    var l' := CommitRow(l, i, used);
    forall s | s in l'.scopes ensures ScopeBalanced(l'.scopes[s], l'.grants, s) {
      assert ScopeBalanced(l.scopes[s], l.grants, s);
      CommittedUpdate(l.grants, i, l'.grants[i], s);
      AddValid(l.scopes[s].usage, used);
      AddNothing(l.scopes[s].usage);
    }
  }

  lemma {:induction false} ReleaseKeepsInv(l: Ledger, i: nat)
    requires Inv(l) && i < |l.grants| && l.grants[i].state == Reserved
    ensures Inv(ReleaseRow(l, i))
  {
    hide Replay, GrantsUnique, Balanced, EntriesSound, ValidAmount, UsageTotal;
    var g := l.grants[i];
    assert GrantSound(l.scopes, l.entries, g);
    var g' := g.(state := Released);
    var l' := ReleaseRow(l, i);
    ReplaySnoc(l.log, ReleasedEvent(g.scope, g.id));
    assert Replay(l.log).grants[g.id] == View(g);
    SettleUnique(l.grants, i, g');
    SettleMirrored(Replay(l.log), Replay(l'.log), l.grants, i, g');
    SettleSound(l.scopes, l.entries, l.grants, i, g');
    ReleaseBalanced(l, i);
  }

  lemma {:induction false} ReleaseBalanced(l: Ledger, i: nat)
    requires Balanced(l.scopes, l.grants) && i < |l.grants| && l.grants[i].state == Reserved
    ensures Balanced(l.scopes, ReleaseRow(l, i).grants)
  {
    hide Total, ValidAmount;
    var grants := ReleaseRow(l, i).grants;
    forall s | s in l.scopes ensures ScopeBalanced(l.scopes[s], grants, s) {
      assert ScopeBalanced(l.scopes[s], l.grants, s);
      CommittedUpdate(l.grants, i, grants[i], s);
    }
  }

  lemma {:induction false} StepKeepsInv(l: Ledger, op: Op)
    requires Inv(l)
    ensures Inv(Step(l, op))
  {
    hide Inv, Reserve, ReserveObjective, RecordUsage, UsageTotal;
    match op
    case ReserveOp(q, id) => ReserveKeepsInv(l, q, id);
    case ObjectiveOp(q, id) => ObjectiveKeepsInv(l, q, id);
    case RecordOp(q, id) => RecordKeepsInv(l, q, id);
    case CommitOp(grant) =>
      if FindGrant(l.grants, grant).Some? && l.grants[FindGrant(l.grants, grant).value].state == Reserved {
        CommitKeepsInv(l, FindGrant(l.grants, grant).value);
      }
    case ReleaseOp(grant) =>
      if FindGrant(l.grants, grant).Some? && l.grants[FindGrant(l.grants, grant).value].state == Reserved {
        ReleaseKeepsInv(l, FindGrant(l.grants, grant).value);
      }
  }

  lemma {:induction false} ReserveKeepsInv(l: Ledger, q: ReserveRequest, id: string)
    requires Inv(l)
    ensures Inv(Reserve(l, q, id).0)
  {
    hide Inv, FindGrant, FindGrantByKey, ReservedTotal;
    if ValidAmount(q.limit) && ValidAmount(q.requested) {
      SetLimitKeepsInv(l, q.scope, q.limit);
      var l1 := SetLimit(l, q.scope, q.limit);
      DeniedKeepsInv(l1, q.scope, q.reason, q.requested);
      var g := Grant(id, q.scope, q.principal, q.reason, q.requested, None, Reserved, q.key, q.expiresAt);
      if FindGrant(l1.grants, id).None? && FindGrantByKey(l1.grants, q.scope, q.key).None? {
        InsertGrantKeepsInv(l1, g, None);
      }
    }
  }

  lemma {:induction false} ObjectiveKeepsInv(l: Ledger, q: ObjectiveRequest, id: string)
    requires Inv(l)
    ensures Inv(ReserveObjective(l, q, id).0)
  {
    hide Inv, FindGrant, FindGrantByKey, ReservedTotal;
    var s := ObjectiveScope(q.objective);
    if ValidAmount(q.limit) {
      if s !in l.scopes {
        SetLimitKeepsInv(l, s, q.limit);
      }
      var l1 := if s in l.scopes then l else SetLimit(l, s, q.limit);
      if l1.scopes[s].limit == q.limit && FindGrant(l1.grants, id).None? && FindGrantByKey(l1.grants, s, q.key).None? {
        var rest := RemainingBudget(q.limit, Consumed(l1, s));
        RemainingBudgetMeaning(q.limit, Consumed(l1, s));
        if rest.Some? {
          var g := Grant(id, s, q.principal, "objective attempt", rest.value, None, Reserved, q.key, q.expiresAt);
          InsertGrantKeepsInv(l1, g, Some(q.objective));
        }
      }
    }
  }

  lemma {:induction false} RecordKeepsInv(l: Ledger, q: UsageRequest, id: string)
    requires Inv(l)
    ensures Inv(RecordUsage(l, q, id).0)
  {
    hide Inv, FindGrant, FindEntry, UsageTotal, ValidAmount;
    if RecordUsage(l, q, id).0 != l {
      var e := Entry(id, q.grant, q.usage, q.source, q.sourceId, q.key);
      InsertEntryKeepsInv(l, e, FindGrant(l.grants, q.grant).value);
    }
  }

  lemma {:induction false} RunKeepsInv(l: Ledger, ops: seq<Op>)
    requires Inv(l)
    ensures Inv(Run(l, ops))
    decreases |ops|
  {
    if |ops| > 0 {
      StepKeepsInv(l, ops[0]);
      RunKeepsInv(Step(l, ops[0]), ops[1..]);
    }
  }

  lemma {:induction false} EmptyInv()
    ensures Inv(EMPTY)
  {
  }

  /**
   Conservation: on every run, a scope's usage is the total of its committed
   grants, each of which is the total of its own usage entries; usage recorded on
   a released grant is charged to nobody.
   */
  lemma {:induction false} Conservation(ops: seq<Op>)
    ensures var l := Run(EMPTY, ops);
            && (forall s :: s in l.scopes ==> l.scopes[s].usage == Total(CommittedShares(l.grants, s)))
            && (forall i :: 0 <= i < |l.grants| ==>
                  l.grants[i].committed
                  == if l.grants[i].state == Committed then Some(UsageTotal(l.entries, l.grants[i].id)) else None)
            && (forall i, d: Dimension :: 0 <= i < |l.grants| ==>
                  UsageTotal(l.entries, l.grants[i].id).Value(d) <= l.grants[i].requested.Value(d))
  {
    hide GrantsUnique, EntriesSound, MirrorsUsage, MirrorsGrants, Run, Total, UsageTotal;
    EmptyInv();
    RunKeepsInv(EMPTY, ops);
    var l := Run(EMPTY, ops);
    forall s | s in l.scopes ensures ScopeBalanced(l.scopes[s], l.grants, s) {}
    forall i | 0 <= i < |l.grants| ensures GrantSound(l.scopes, l.entries, l.grants[i]) {}
  }

  /** Folding the log rebuilds every grant and every scope's usage, and nothing else. */
  lemma {:induction false} ReplayRebuilds(ops: seq<Op>)
    ensures var l := Run(EMPTY, ops);
            var r := Replay(l.log);
            && r.grants.Keys == Ids(l.grants)
            && (forall i :: 0 <= i < |l.grants| ==> r.grants[l.grants[i].id] == View(l.grants[i]))
            && (forall s :: s in l.scopes ==> r.UsageOf(s) == l.scopes[s].usage)
            && r.usage.Keys <= l.scopes.Keys
  {
    EmptyInv();
    RunKeepsInv(EMPTY, ops);
  }
}
