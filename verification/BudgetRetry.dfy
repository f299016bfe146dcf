/** Retried budget calls change nothing, and objectives hold one reservation at a time. */
module BudgetRetry {
  import opened Common
  import opened BudgetAmounts
  import opened BudgetLedger
  import opened BudgetInvariants

  // ----- retries -----

  /** The same request; only the generated identifier may differ. */
  predicate SameRequest(a: Op, b: Op) {
    match (a, b)
    case (ReserveOp(p, _), ReserveOp(q, _)) => p == q
    case (ObjectiveOp(p, _), ObjectiveOp(q, _)) => p == q
    case (RecordOp(p, _), RecordOp(q, _)) => p == q
    case (CommitOp(g), CommitOp(h)) => g == h
    case (ReleaseOp(g), ReleaseOp(h)) => g == h
    case _ => false
  }

  predicate Succeeds(l: Ledger, op: Op) {
    Perform(l, op).1.Ok? && Perform(l, op).1.value != NoGrant
  }

  /** Each scope has one limit, the same in every request. */
  ghost predicate FollowsPolicy(op: Op, policy: ScopeId -> Amount) {
    && (op.ReserveOp? ==> op.reserve.limit == policy(op.reserve.scope))
    && (op.ObjectiveOp? ==> op.objective.limit == policy(ObjectiveScope(op.objective.objective)))
  }

  /** The effect of `op` is already in the ledger. */
  ghost predicate Settled(l: Ledger, op: Op) {
    match op
    case ReserveOp(q, _) =>
      && ValidAmount(q.limit) && ValidAmount(q.requested)
      && q.scope in l.scopes && l.scopes[q.scope].limit == q.limit
      && FindGrantByKey(l.grants, q.scope, q.key).Some?
    case ObjectiveOp(q, _) =>
      var s := ObjectiveScope(q.objective);
      && ValidAmount(q.limit)
      && s in l.scopes && l.scopes[s].limit == q.limit
      && FindGrantByKey(l.grants, s, q.key).Some?
    case RecordOp(q, _) =>
      && ValidAmount(q.usage) && q.source != "" && q.sourceId != "" && q.key != ""
      && exists id :: Entry(id, q.grant, q.usage, q.source, q.sourceId, q.key) in l.entries
    case CommitOp(g) => exists i :: 0 <= i < |l.grants| && l.grants[i].id == g && l.grants[i].state != Reserved
    case ReleaseOp(g) => exists i :: 0 <= i < |l.grants| && l.grants[i].id == g && l.grants[i].state != Reserved
  }

  lemma {:induction false} SettledIsStutter(l: Ledger, op: Op)
    requires Inv(l) && Settled(l, op)
    ensures Step(l, op) == l && Perform(l, op).1.Ok?
  {
    hide GrantsSound, Balanced, MirrorsUsage, MirrorsGrants, ReservedTotal, UsageTotal, ValidAmount;
    match op
    case ReserveOp(q, _) => assert SetLimit(l, q.scope, q.limit).scopes == l.scopes;
    case ObjectiveOp(q, _) =>
    case RecordOp(q, _) =>
      var id :| Entry(id, q.grant, q.usage, q.source, q.sourceId, q.key) in l.entries;
      var i :| 0 <= i < |l.entries| && l.entries[i] == Entry(id, q.grant, q.usage, q.source, q.sourceId, q.key);
      assert FindEntry(l.entries, q.grant, q.key) == Some(i);
    case CommitOp(g) =>
      var i :| 0 <= i < |l.grants| && l.grants[i].id == g && l.grants[i].state != Reserved;
      FindUnique(l.grants, i);
    case ReleaseOp(g) =>
      var i :| 0 <= i < |l.grants| && l.grants[i].id == g && l.grants[i].state != Reserved;
      FindUnique(l.grants, i);
  }

  /** What no step undoes: rows stay, keep their identity and never become reserved again. */
  ghost predicate Grows(l: Ledger, l': Ledger) {
    && l.scopes.Keys <= l'.scopes.Keys
    && |l.grants| <= |l'.grants|
    && (forall i :: 0 <= i < |l.grants| ==>
          && l'.grants[i].id == l.grants[i].id
          && l'.grants[i].scope == l.grants[i].scope
          && l'.grants[i].key == l.grants[i].key
          && (l.grants[i].state != Reserved ==> l'.grants[i] == l.grants[i]))
    && (forall e :: e in l.entries ==> e in l'.entries)
  }

  /** Only a reservation changes the limit of a scope that exists, to the limit it carries. */
  ghost predicate LimitsFollow(l: Ledger, l': Ledger, op: Op) {
    forall s :: s in l.scopes ==>
      s in l'.scopes
      && (l'.scopes[s].limit == l.scopes[s].limit
          || (op.ReserveOp? && op.reserve.scope == s && l'.scopes[s].limit == op.reserve.limit))
  }

  lemma {:induction false} StepGrows(l: Ledger, op: Op)
    ensures Grows(l, Step(l, op)) && LimitsFollow(l, Step(l, op), op)
  {
    hide Grows, LimitsFollow, Reserve, ReserveObjective, RecordUsage, Commit, Release;
    match op
    case ReserveOp(q, id) => ReserveGrows(l, q, id);
    case ObjectiveOp(q, id) => ObjectiveGrows(l, q, id);
    case RecordOp(q, id) => RecordGrows(l, q, id);
    case CommitOp(g) => CommitGrows(l, g);
    case ReleaseOp(g) => ReleaseGrows(l, g);
  }

  lemma {:induction false} ReserveGrows(l: Ledger, q: ReserveRequest, id: string)
    ensures var l' := Reserve(l, q, id).0;
            Grows(l, l') && LimitsFollow(l, l', ReserveOp(q, id))
  {
    hide Consumed, ValidAmount, FitsBudget, FindGrant, FindGrantByKey;
  }

  lemma {:induction false} ObjectiveGrows(l: Ledger, q: ObjectiveRequest, id: string)
    ensures var l' := ReserveObjective(l, q, id).0;
            Grows(l, l') && LimitsFollow(l, l', ObjectiveOp(q, id))
  {
    hide Consumed, ValidAmount, RemainingBudget, FindGrant, FindGrantByKey;
  }

  lemma {:induction false} RecordGrows(l: Ledger, q: UsageRequest, id: string)
    ensures var l' := RecordUsage(l, q, id).0;
            Grows(l, l') && LimitsFollow(l, l', RecordOp(q, id))
  {
    hide UsageTotal, ValidAmount, FitsReservedGrant, FindGrant, FindEntry;
  }

  lemma {:induction false} CommitGrows(l: Ledger, g: string)
    ensures var l' := Commit(l, g).0;
            Grows(l, l') && LimitsFollow(l, l', CommitOp(g))
  {
    hide UsageTotal, FitsBudget, FindGrant, Add;
  }

  lemma {:induction false} ReleaseGrows(l: Ledger, g: string)
    ensures var l' := Release(l, g).0;
            Grows(l, l') && LimitsFollow(l, l', ReleaseOp(g))
  {
    hide FindGrant;
  }

  lemma {:induction false} StepLimits(l: Ledger, op: Op, policy: ScopeId -> Amount, s: ScopeId)
    requires FollowsPolicy(op, policy) && s in l.scopes && l.scopes[s].limit == policy(s)
    ensures s in Step(l, op).scopes && Step(l, op).scopes[s].limit == policy(s)
  {
    hide Step;
    StepGrows(l, op);
  }

  lemma {:induction false} KeyStays(l: Ledger, l': Ledger, s: ScopeId, key: string)
    requires Grows(l, l') && FindGrantByKey(l.grants, s, key).Some?
    ensures FindGrantByKey(l'.grants, s, key).Some?
  {
    var i := FindGrantByKey(l.grants, s, key).value;
    assert l'.grants[i].scope == s && l'.grants[i].key == key;
  }

  lemma {:induction false} SettledStays(l: Ledger, op: Op, other: Op, policy: ScopeId -> Amount)
    requires Settled(l, op) && FollowsPolicy(op, policy) && FollowsPolicy(other, policy)
    ensures Settled(Step(l, other), op)
  {
    hide Step, FindGrantByKey, ValidAmount;
    var l' := Step(l, other);
    StepGrows(l, other);
    match op
    case ReserveOp(q, _) =>
      StepLimits(l, other, policy, q.scope);
      KeyStays(l, l', q.scope, q.key);
    case ObjectiveOp(q, _) =>
      var s := ObjectiveScope(q.objective);
      StepLimits(l, other, policy, s);
      KeyStays(l, l', s, q.key);
    case RecordOp(q, _) =>
      var id :| Entry(id, q.grant, q.usage, q.source, q.sourceId, q.key) in l.entries;
      assert Entry(id, q.grant, q.usage, q.source, q.sourceId, q.key) in l'.entries;
    case CommitOp(g) =>
      var i :| 0 <= i < |l.grants| && l.grants[i].id == g && l.grants[i].state != Reserved;
      assert l'.grants[i] == l.grants[i];
    case ReleaseOp(g) =>
      var i :| 0 <= i < |l.grants| && l.grants[i].id == g && l.grants[i].state != Reserved;
      assert l'.grants[i] == l.grants[i];
  }

  lemma {:induction false} SuccessSettles(l: Ledger, op: Op, again: Op)
    requires Succeeds(l, op) && SameRequest(op, again)
    ensures Settled(Step(l, op), again)
  {
    match op
    case ReserveOp(q, id) => ReserveSettles(l, q, id);
    case ObjectiveOp(q, id) => ObjectiveSettles(l, q, id);
    case RecordOp(q, id) => RecordSettles(l, q, id);
    case CommitOp(g) => SettlementSettles(l, op, g);
    case ReleaseOp(g) => SettlementSettles(l, op, g);
  }

  lemma {:induction false} ReserveSettles(l: Ledger, q: ReserveRequest, id: string)
    requires Reserve(l, q, id).1.Ok?
    ensures var l' := Reserve(l, q, id).0;
            && ValidAmount(q.limit) && ValidAmount(q.requested)
            && q.scope in l'.scopes && l'.scopes[q.scope].limit == q.limit
            && FindGrantByKey(l'.grants, q.scope, q.key).Some?
  {
    hide ReservedTotal, ValidAmount, FitsBudget, Add;
    var l' := Reserve(l, q, id).0;
    if FindGrantByKey(l.grants, q.scope, q.key).None? {
      assert l'.grants[|l.grants|].scope == q.scope && l'.grants[|l.grants|].key == q.key;
    }
  }

  lemma {:induction false} ObjectiveSettles(l: Ledger, q: ObjectiveRequest, id: string)
    requires ReserveObjective(l, q, id).1.Ok? && ReserveObjective(l, q, id).1.value != NoGrant
    ensures var l' := ReserveObjective(l, q, id).0;
            var s := ObjectiveScope(q.objective);
            && ValidAmount(q.limit)
            && s in l'.scopes && l'.scopes[s].limit == q.limit
            && FindGrantByKey(l'.grants, s, q.key).Some?
  {
    hide ReservedTotal, ValidAmount, RemainingBudget, Add;
    var s := ObjectiveScope(q.objective);
    var l' := ReserveObjective(l, q, id).0;
    if FindGrantByKey(l.grants, s, q.key).None? {
      assert l'.grants[|l.grants|].scope == s && l'.grants[|l.grants|].key == q.key;
    }
  }

  lemma {:induction false} RecordSettles(l: Ledger, q: UsageRequest, id: string)
    requires RecordUsage(l, q, id).1.Ok?
    ensures ValidAmount(q.usage) && q.source != "" && q.sourceId != "" && q.key != ""
    ensures exists x :: Entry(x, q.grant, q.usage, q.source, q.sourceId, q.key) in RecordUsage(l, q, id).0.entries
  {
    hide UsageTotal, ValidAmount, FitsReservedGrant;
    var r := FindEntry(l.entries, q.grant, q.key);
    if r.Some? {
      var e := l.entries[r.value];
      assert e == Entry(e.id, q.grant, q.usage, q.source, q.sourceId, q.key);
    } else {
      assert RecordUsage(l, q, id).0.entries == l.entries + [Entry(id, q.grant, q.usage, q.source, q.sourceId, q.key)];
    }
  }

  lemma {:induction false} SettlementSettles(l: Ledger, op: Op, g: string)
    requires (op == CommitOp(g) || op == ReleaseOp(g)) && Succeeds(l, op)
    ensures exists i ::
              0 <= i < |Step(l, op).grants| && Step(l, op).grants[i].id == g && Step(l, op).grants[i].state != Reserved
  {
    hide UsageTotal, FitsBudget, Add;
    var i := FindGrant(l.grants, g).value;
    assert Step(l, op).grants[i].id == g && Step(l, op).grants[i].state != Reserved;
  }

  /**
   In every reachable state a reservation whose key is taken changes nothing exactly when
   the limit it carries is the scope's current limit; the key's grant is its answer.
   */
  lemma {:induction false} ReplayStuttersIff(ops: seq<Op>, q: ReserveRequest, id: string)
    requires ValidAmount(q.limit) && ValidAmount(q.requested)
    requires FindGrantByKey(Run(EMPTY, ops).grants, q.scope, q.key).Some?
    ensures var l := Run(EMPTY, ops);
            && q.scope in l.scopes
            && (Reserve(l, q, id).0 == l <==> l.scopes[q.scope].limit == q.limit)
            && Reserve(l, q, id).1 == Ok(GrantReceipt(l.grants[FindGrantByKey(l.grants, q.scope, q.key).value]))
  {
    hide Run, GrantsUnique, EntriesSound, Balanced, MirrorsUsage, MirrorsGrants, ValidAmount, FitsBudget,
         FindGrantByKey;
    EmptyInv();
    RunKeepsInv(EMPTY, ops);
    var l := Run(EMPTY, ops);
    assert GrantSound(l.scopes, l.entries, l.grants[FindGrantByKey(l.grants, q.scope, q.key).value]);
    var scopes := SetLimit(l, q.scope, q.limit).scopes;
    assert scopes[q.scope].limit == q.limit;
    if l.scopes[q.scope].limit == q.limit { assert scopes == l.scopes; }
  }

  /** A run in which some calls are retries of earlier calls that succeeded. */
  datatype Call = First(op: Op) | Retry(op: Op)

  function AllCalls(calls: seq<Call>): seq<Op> {
    if |calls| == 0 then [] else [calls[0].op] + AllCalls(calls[1..])
  }

  function FirstCalls(calls: seq<Call>): seq<Op> {
    if |calls| == 0 then [] else (if calls[0].First? then [calls[0].op] else []) + FirstCalls(calls[1..])
  }

  ghost predicate RetriesRepeat(l: Ledger, done: seq<Op>, calls: seq<Call>)
    decreases |calls|
  {
    |calls| > 0 ==>
      var op := calls[0].op;
      if calls[0].First? then
        RetriesRepeat(Step(l, op), if Succeeds(l, op) then done + [op] else done, calls[1..])
      else
        && (exists k :: 0 <= k < |done| && SameRequest(done[k], op))
        && RetriesRepeat(Step(l, op), done, calls[1..])
  }

  ghost predicate AllSettled(l: Ledger, done: seq<Op>, policy: ScopeId -> Amount) {
    forall k, op :: 0 <= k < |done| && SameRequest(done[k], op) ==> Settled(l, op) && FollowsPolicy(op, policy)
  }

  lemma {:induction false} AllSettledStep(l: Ledger, done: seq<Op>, op: Op, policy: ScopeId -> Amount)
    requires AllSettled(l, done, policy) && FollowsPolicy(op, policy)
    ensures AllSettled(Step(l, op), if Succeeds(l, op) then done + [op] else done, policy)
  {
    hide Settled, Step, Succeeds;
    var done' := if Succeeds(l, op) then done + [op] else done;
    forall k, again | 0 <= k < |done'| && SameRequest(done'[k], again)
      ensures Settled(Step(l, op), again) && FollowsPolicy(again, policy)
    {
      if k < |done| {
        assert done'[k] == done[k];
        SettledStays(l, again, op, policy);
      } else {
        SuccessSettles(l, op, again);
      }
    }
  }

  /**
   Retry stuttering: with one limit per scope, dropping all the retries from a run
   leaves the same scopes, grants, entries and event log.
   */
  lemma {:induction false} RetriesStutter(l: Ledger, done: seq<Op>, calls: seq<Call>, policy: ScopeId -> Amount)
    requires Inv(l) && AllSettled(l, done, policy) && RetriesRepeat(l, done, calls)
    requires forall i :: 0 <= i < |calls| ==> FollowsPolicy(calls[i].op, policy)
    ensures Run(l, AllCalls(calls)) == Run(l, FirstCalls(calls))
    decreases |calls|
  {
    hide Inv, Settled, Step, Succeeds, FollowsPolicy, AllSettled;
    if |calls| > 0 {
      var op := calls[0].op;
      assert AllCalls(calls)[1..] == AllCalls(calls[1..]);
      if calls[0].First? {
        StepKeepsInv(l, op);
        AllSettledStep(l, done, op, policy);
        assert FirstCalls(calls)[1..] == FirstCalls(calls[1..]);
        RetriesStutter(Step(l, op), if Succeeds(l, op) then done + [op] else done, calls[1..], policy);
      } else {
        RetrySettled(l, done, op, policy);
        SettledIsStutter(l, op);
        assert FirstCalls(calls) == FirstCalls(calls[1..]);
        RetriesStutter(l, done, calls[1..], policy);
      }
    }
  }

  lemma {:induction false} RetrySettled(l: Ledger, done: seq<Op>, op: Op, policy: ScopeId -> Amount)
    requires AllSettled(l, done, policy) && exists k :: 0 <= k < |done| && SameRequest(done[k], op)
    ensures Settled(l, op)
  {
    hide Settled;
  }

  lemma {:induction false} RetryStuttering(calls: seq<Call>, policy: ScopeId -> Amount)
    requires RetriesRepeat(EMPTY, [], calls)
    requires forall i :: 0 <= i < |calls| ==> FollowsPolicy(calls[i].op, policy)
    ensures Run(EMPTY, AllCalls(calls)) == Run(EMPTY, FirstCalls(calls))
  {
    hide Settled;
    EmptyInv();
    RetriesStutter(EMPTY, [], calls, policy);
  }

  // ----- objectives -----

  /** At most one reservation, and while it stands nothing remains. */
  ghost predicate Exclusive(l: Ledger, s: ScopeId) {
    && (forall i, j :: HeldBy(l.grants, s, i) && HeldBy(l.grants, s, j) ==> i == j)
    && (forall i :: HeldBy(l.grants, s, i) ==>
          s in l.scopes && RemainingBudget(l.scopes[s].limit, Consumed(l, s)).None?)
  }

  ghost predicate OnlyObjective(op: Op, s: ScopeId) {
    op.ReserveOp? ==> op.reserve.scope != s
  }

  // Writes that leave the scope's row, its grants and hence its consumption alone.
  lemma {:induction false} OtherScopeExclusive(l: Ledger, l': Ledger, s: ScopeId)
    requires Exclusive(l, s) && l'.grants == l.grants
    requires s in l.scopes ==> s in l'.scopes && l'.scopes[s] == l.scopes[s]
    ensures Exclusive(l', s)
  {
    hide RemainingBudget;
    if s in l.scopes { assert Consumed(l', s) == Consumed(l, s); }
  }

  lemma {:induction false} OtherGrantExclusive(l: Ledger, l': Ledger, g: Grant, s: ScopeId)
    requires Exclusive(l, s) && l'.grants == l.grants + [g] && g.scope != s && l'.scopes == l.scopes
    ensures Exclusive(l', s)
  {
    hide RemainingBudget, ReservedTotal, Add;
    assert forall i :: HeldBy(l'.grants, s, i) <==> HeldBy(l.grants, s, i);
    ReservedSnoc(l.grants, g, s);
    AddNothing(ReservedTotal(l.grants, s));
    if s in l.scopes { assert Consumed(l', s) == Consumed(l, s); }
  }

  /** Taking the whole remainder leaves none. */
  lemma {:induction false} TakeRemainder(l: Ledger, g: Grant, objective: Option<string>)
    requires Exclusive(l, g.scope) && g.scope in l.scopes && g.state == Reserved
    requires RemainingBudget(l.scopes[g.scope].limit, Consumed(l, g.scope)) == Some(g.requested)
    ensures Exclusive(InsertGrant(l, g, objective), g.scope)
  {
    hide RemainingBudget, ReservedTotal, Add;
    var s := g.scope;
    var limit := l.scopes[s].limit;
    var l' := InsertGrant(l, g, objective);
    assert forall i :: 0 <= i < |l.grants| ==> (HeldBy(l'.grants, s, i) <==> HeldBy(l.grants, s, i));
    ReservedSnoc(l.grants, g, s);
    RemainingBudgetMeaning(limit, Consumed(l, s));
    RemainingBudgetMeaning(limit, Consumed(l', s));
    var d: Dimension :| limit.At(d).Some?;
    assert Consumed(l', s).Value(d) == Consumed(l, s).Value(d) + g.requested.Value(d);
  }

  lemma {:induction false} SettleExclusive(l: Ledger, l': Ledger, i: nat, g: Grant, s: ScopeId)
    requires Inv(l) && Exclusive(l, s) && i < |l.grants| && l.grants[i].state == Reserved
    requires g.scope == l.grants[i].scope && g.state != Reserved && l'.grants == l.grants[i := g]
    requires s != g.scope && s in l.scopes ==> s in l'.scopes && l'.scopes[s] == l.scopes[s]
    ensures Exclusive(l', s)
  {
    hide Inv, RemainingBudget, ReservedTotal, Add;
    forall j | HeldBy(l'.grants, s, j) ensures HeldBy(l.grants, s, j) && j != i {}
    if s == g.scope {
      assert HeldBy(l.grants, s, i);
    } else if s in l.scopes {
      SameReserved(l.grants, i, g, s);
      assert Consumed(l', s) == Consumed(l, s);
    }
  }

  lemma {:induction false} SameReserved(grants: seq<Grant>, i: nat, g: Grant, s: ScopeId)
    requires i < |grants| && g.scope == grants[i].scope && s != g.scope
    ensures ReservedTotal(grants[i := g], s) == ReservedTotal(grants, s)
  {
    assert ReservedShares(grants[i := g], s) == ReservedShares(grants, s);
  }

  lemma {:induction false} StepExclusive(l: Ledger, op: Op, objective: string)
    requires Inv(l) && Exclusive(l, ObjectiveScope(objective)) && OnlyObjective(op, ObjectiveScope(objective))
    ensures Exclusive(Step(l, op), ObjectiveScope(objective))
  {
    hide Inv, Exclusive, ReserveObjective, Reserve, RecordUsage, FindGrant, UsageTotal, FitsBudget, Add, ObjectiveScope;
    var s := ObjectiveScope(objective);
    match op
    case ReserveOp(q, id) => ReserveElsewhereExclusive(l, q, id, s);
    case ObjectiveOp(q, id) => ObjectiveExclusive(l, q, id, s);
    case RecordOp(q, id) => RecordExclusive(l, q, id, s);
    case CommitOp(grant) =>
      var r := FindGrant(l.grants, grant);
      if Step(l, op) != l { SettleExclusive(l, Step(l, op), r.value, Step(l, op).grants[r.value], s); }
    case ReleaseOp(grant) =>
      var r := FindGrant(l.grants, grant);
      if Step(l, op) != l { SettleExclusive(l, Step(l, op), r.value, Step(l, op).grants[r.value], s); }
  }

  lemma {:induction false} RecordExclusive(l: Ledger, q: UsageRequest, id: string, s: ScopeId)
    requires Exclusive(l, s)
    ensures Exclusive(RecordUsage(l, q, id).0, s)
  {
    hide Exclusive, UsageTotal, FindGrant, FindEntry, FitsReservedGrant, ValidAmount;
    OtherScopeExclusive(l, RecordUsage(l, q, id).0, s);
  }

  lemma {:induction false} ReserveElsewhereExclusive(l: Ledger, q: ReserveRequest, id: string, s: ScopeId)
    requires Exclusive(l, s) && q.scope != s
    ensures Exclusive(Reserve(l, q, id).0, s)
  {
    hide Exclusive, FindGrant, FindGrantByKey, FitsBudget, ValidAmount, Consumed;
    var l1 := SetLimit(l, q.scope, q.limit);
    OtherScopeExclusive(l, l1, s);
    OtherScopeExclusive(l1, l1.(log := l1.log + [DeniedEvent(q.scope, q.reason, q.requested)]), s);
    var g := Grant(id, q.scope, q.principal, q.reason, q.requested, None, Reserved, q.key, q.expiresAt);
    OtherGrantExclusive(l1, InsertGrant(l1, g, None), g, s);
  }

  lemma {:induction false} ObjectiveExclusive(l: Ledger, q: ObjectiveRequest, id: string, s: ScopeId)
    requires Inv(l) && Exclusive(l, s)
    ensures Exclusive(ReserveObjective(l, q, id).0, s)
  {
    hide Inv, Exclusive, FindGrant, FindGrantByKey, RemainingBudget, ValidAmount, Consumed;
    var t := ObjectiveScope(q.objective);
    var l1 := if t in l.scopes then l else SetLimit(l, t, q.limit);
    OtherScopeExclusive(l, l1, s);
    var rest := RemainingBudget(q.limit, Consumed(l1, t));
    if rest.Some? && l1.scopes[t].limit == q.limit {
      var g := Grant(id, t, q.principal, "objective attempt", rest.value, None, Reserved, q.key, q.expiresAt);
      if t == s {
        TakeRemainder(l1, g, Some(q.objective));
      } else {
        OtherGrantExclusive(l1, InsertGrant(l1, g, Some(q.objective)), g, s);
      }
    }
  }

  lemma {:induction false} RunExclusive(l: Ledger, ops: seq<Op>, objective: string)
    requires Inv(l) && Exclusive(l, ObjectiveScope(objective))
    requires forall i :: 0 <= i < |ops| ==> OnlyObjective(ops[i], ObjectiveScope(objective))
    ensures Exclusive(Run(l, ops), ObjectiveScope(objective))
    decreases |ops|
  {
    hide Inv, Exclusive, Step, ObjectiveScope;
    if |ops| > 0 {
      StepKeepsInv(l, ops[0]);
      StepExclusive(l, ops[0], objective);
      RunExclusive(Step(l, ops[0]), ops[1..], objective);
    }
  }

  /** On runs where only objective reservations touch its scope, an objective holds at most one reserved grant. */
  lemma {:induction false} ObjectiveExclusivity(ops: seq<Op>, objective: string)
    requires forall i :: 0 <= i < |ops| ==> OnlyObjective(ops[i], ObjectiveScope(objective))
    ensures var grants := Run(EMPTY, ops).grants;
            forall i, j ::
              HeldBy(grants, ObjectiveScope(objective), i) && HeldBy(grants, ObjectiveScope(objective), j) ==> i == j
  {
    hide Run, Inv;
    EmptyInv();
    RunExclusive(EMPTY, ops, objective);
  }

  /**
   The remaining-budget probe answers yes exactly when a reservation with a fresh key
   would return a grant, no exactly when it would return none, and fails exactly when
   the reservation fails, also before the scope row exists.
   */
  lemma {:induction false} ProbePredictsReservation(ops: seq<Op>, q: ObjectiveRequest, id: string)
    requires FindGrantByKey(Run(EMPTY, ops).grants, ObjectiveScope(q.objective), q.key).None?
    requires FindGrant(Run(EMPTY, ops).grants, id).None?
    ensures var l := Run(EMPTY, ops);
            var probe, reservation := ObjectiveHasRemaining(l, q.objective, q.limit), ReserveObjective(l, q, id).1;
            && (probe == Ok(true) <==> reservation.Ok? && reservation.value.GrantReceipt?)
            && (probe == Ok(false) <==> reservation == Ok(NoGrant))
            && (probe.Err? <==> reservation.Err?)
  {
    hide Run, Inv, ReservedTotal, RemainingBudget, ValidAmount, Add;
    EmptyInv();
    RunKeepsInv(EMPTY, ops);
    var l := Run(EMPTY, ops);
    var s := ObjectiveScope(q.objective);
    if s !in l.scopes {
      NoRowNoGrants(l, s);
      NothingCommitted(l.grants, s);
      AddNothing(NOTHING);
      assert Consumed(SetLimit(l, s, q.limit), s) == NOTHING;
    }
  }
}
