/**
 The budget transactions in 64-bit arithmetic that wraps around. Where every sum they
 compute fits, their runs are the runs of the ledger functions, and all that is proved of
 those holds of them.
 */
module BudgetMachine {
  import opened Common
  import opened BudgetAmounts
  import opened BudgetLedger
  import opened BudgetInvariants
  import opened BudgetWords

  // ----- arithmetic -----

  function WrapOptional(left: Option<int>, right: Option<int>): Option<int> {
    match (left, right)
    case (Some(l), Some(r)) => Some(Wrap(l + r))
    case (Some(l), None) => Some(l)
    case (None, r) => r
  }

  function WrapAdd(left: Amount, right: Amount): Amount {
    Amount(
      WrapOptional(left.tokens, right.tokens),
      WrapOptional(left.costMicros, right.costMicros),
      WrapOptional(left.wallTimeMs, right.wallTimeMs),
      WrapOptional(left.toolCalls, right.toolCalls))
  }

  function WrapTotal(xs: seq<Amount>): Amount {
    if |xs| == 0 then NOTHING else WrapAdd(WrapTotal(xs[..|xs| - 1]), xs[|xs| - 1])
  }

  function WrapRemainingDimension(limit: Option<int>, consumed: Option<int>): Option<Option<int>> {
    match limit
    case None => Some(None)
    case Some(bound) =>
      var remaining := Wrap(bound - consumed.GetOr(0));
      if remaining > 0 then Some(Some(remaining)) else None
  }

  function WrapRemaining(limit: Amount, consumed: Amount): Option<Amount> {
    var tokens := WrapRemainingDimension(limit.tokens, consumed.tokens);
    var cost := WrapRemainingDimension(limit.costMicros, consumed.costMicros);
    var wall := WrapRemainingDimension(limit.wallTimeMs, consumed.wallTimeMs);
    var calls := WrapRemainingDimension(limit.toolCalls, consumed.toolCalls);
    if tokens.None? || cost.None? || wall.None? || calls.None? then None
    else
      var rest := Amount(tokens.value, cost.value, wall.value, calls.value);
      if rest == NOTHING then None else Some(rest)
  }

  // ----- transactions -----

  function WrapConsumed(l: Ledger, scope: ScopeId): Amount
    requires scope in l.scopes
  {
    WrapAdd(l.scopes[scope].usage, WrapTotal(ReservedShares(l.grants, scope)))
  }

  ghost function Reserve64(l: Ledger, q: ReserveRequest, id: string): (Ledger, Outcome) {
    if !ValidAmount(q.limit) || !ValidAmount(q.requested) then (l, Err(InvalidAmount))
    else
      var l1 := SetLimit(l, q.scope, q.limit);
      match FindGrantByKey(l1.grants, q.scope, q.key)
      case Some(i) => (l1, Ok(GrantReceipt(l1.grants[i])))
      case None =>
        if !MachineFits(l1.scopes[q.scope].limit, WrapConsumed(l1, q.scope), q.requested) then
          (l1.(log := l1.log + [DeniedEvent(q.scope, q.reason, q.requested)]), Err(BudgetDenied))
        else if FindGrant(l1.grants, id).Some? then (l, Err(DuplicateId))
        else
          var g := Grant(id, q.scope, q.principal, q.reason, q.requested, None, Reserved, q.key, q.expiresAt);
          (InsertGrant(l1, g, None), Ok(GrantReceipt(g)))
  }

  function ReserveObjective64(l: Ledger, q: ObjectiveRequest, id: string): (Ledger, Outcome) {
    if !ValidAmount(q.limit) then (l, Err(InvalidAmount))
    else
      var scope := ObjectiveScope(q.objective);
      var l1 := if scope in l.scopes then l else SetLimit(l, scope, q.limit);
      if l1.scopes[scope].limit != q.limit then (l, Err(LimitMismatch))
      else
        match FindGrantByKey(l1.grants, scope, q.key)
        case Some(i) => (l1, Ok(GrantReceipt(l1.grants[i])))
        case None =>
          match WrapRemaining(q.limit, WrapConsumed(l1, scope))
          case None => (l1, Ok(NoGrant))
          case Some(requested) =>
            if FindGrant(l1.grants, id).Some? then (l, Err(DuplicateId))
            else
              var g := Grant(id, scope, q.principal, "objective attempt", requested, None, Reserved, q.key,
                             q.expiresAt);
              (InsertGrant(l1, g, Some(q.objective)), Ok(GrantReceipt(g)))
  }

  ghost function RecordUsage64(l: Ledger, q: UsageRequest, id: string): (Ledger, Outcome) {
    if !ValidAmount(q.usage) then (l, Err(InvalidAmount))
    else if q.source == "" || q.sourceId == "" || q.key == "" then (l, Err(EmptyIdentity))
    else
      match FindEntry(l.entries, q.grant, q.key)
      case Some(i) =>
        var e := l.entries[i];
        if e.usage != q.usage || e.source != q.source || e.sourceId != q.sourceId then (l, Err(ConflictingEntry))
        else (l, Ok(EntryReceipt(e, false)))
      case None =>
        match FindGrant(l.grants, q.grant)
        case None => (l, Err(NotFound))
        case Some(i) =>
          var g := l.grants[i];
          if g.state != Reserved then (l, Err(NotReserved))
          else if !MachineFits(Bound(g.requested), WrapTotal(UsageShares(l.entries, g.id)), q.usage) then
            (l, Err(BudgetDenied))
          else if EntryIdTaken(l.entries, id) then (l, Err(DuplicateId))
          else
            var e := Entry(id, q.grant, q.usage, q.source, q.sourceId, q.key);
            (InsertEntry(l, e), Ok(EntryReceipt(e, true)))
  }

  ghost function Commit64(l: Ledger, grant: string): (Ledger, Outcome) {
    match FindGrant(l.grants, grant)
    case None => (l, Ok(NoGrant))
    case Some(i) =>
      var g := l.grants[i];
      if g.state != Reserved then (l, Ok(GrantReceipt(g)))
      else if g.scope !in l.scopes then (l, Err(NotFound))
      else
        var scope, usage := l.scopes[g.scope], WrapTotal(UsageShares(l.entries, g.id));
        if !MachineFits(scope.limit, scope.usage, usage) then (l, Err(BudgetDenied))
        else
          var g' := g.(state := Committed, committed := Some(usage));
          (Ledger(l.scopes[g.scope := scope.(usage := WrapAdd(scope.usage, usage))],
                  l.grants[i := g'], l.entries, l.log + [CommittedEvent(g.scope, g.id, usage)]),
           Ok(GrantReceipt(g')))
  }

  ghost function Perform64(l: Ledger, op: Op): (Ledger, Outcome) {
    match op
    case ReserveOp(q, id) => Reserve64(l, q, id)
    case ObjectiveOp(q, id) => ReserveObjective64(l, q, id)
    case RecordOp(q, id) => RecordUsage64(l, q, id)
    case CommitOp(g) => Commit64(l, g)
    case ReleaseOp(g) => Release(l, g)
  }

  ghost function Run64(l: Ledger, ops: seq<Op>): Ledger
    decreases |ops|
  {
    if |ops| == 0 then l else Run64(Perform64(l, ops[0]).0, ops[1..])
  }

  // ----- sums that fit -----

  ghost predicate AmountFits(a: Amount) {
    forall d: Dimension :: FitsI64(a.Value(d))
  }

  /** Every running total of a loop fits. */
  ghost predicate TotalsFit(xs: seq<Amount>) {
    forall k :: 0 <= k <= |xs| ==> AmountFits(Total(xs[..k]))
  }

  /** The sum fits wherever there is a bound to test it against. */
  ghost predicate TestFits(bound: Amount, used: Amount, delta: Amount) {
    forall d: Dimension :: bound.At(d).Some? ==> FitsI64(used.Value(d) + delta.Value(d))
  }

  ghost predicate RemainderFits(limit: Amount, consumed: Amount) {
    forall d: Dimension :: limit.At(d).Some? ==> FitsI64(limit.At(d).value - consumed.Value(d))
  }

  ghost predicate ConsumedFits(l: Ledger, s: ScopeId) {
    s in l.scopes && TotalsFit(ReservedShares(l.grants, s)) && AmountFits(Consumed(l, s))
  }

  /** Every sum that the transaction computes fits in 64 bits. */
  ghost predicate SumsFit(l: Ledger, op: Op) {
    match op
    case ReserveOp(q, _) =>
      ValidAmount(q.limit) && ValidAmount(q.requested) && FindGrantByKey(l.grants, q.scope, q.key).None? ==>
        var l1 := SetLimit(l, q.scope, q.limit);
        ConsumedFits(l1, q.scope) && TestFits(q.limit, Consumed(l1, q.scope), q.requested)
    case ObjectiveOp(q, _) =>
      var s := ObjectiveScope(q.objective);
      var l1 := if s in l.scopes then l else SetLimit(l, s, q.limit);
      ValidAmount(q.limit) && l1.scopes[s].limit == q.limit && FindGrantByKey(l.grants, s, q.key).None? ==>
        ConsumedFits(l1, s) && RemainderFits(q.limit, Consumed(l1, s))
    case RecordOp(q, _) =>
      var r := FindGrant(l.grants, q.grant);
      ValidAmount(q.usage) && FindEntry(l.entries, q.grant, q.key).None? && r.Some?
      && l.grants[r.value].state == Reserved ==>
        var g := l.grants[r.value];
        && TotalsFit(UsageShares(l.entries, g.id))
        && TestFits(Bound(g.requested), UsageTotal(l.entries, g.id), q.usage)
    case CommitOp(grant) =>
      var r := FindGrant(l.grants, grant);
      r.Some? && l.grants[r.value].state == Reserved && l.grants[r.value].scope in l.scopes ==>
        var g := l.grants[r.value];
        var used := UsageTotal(l.entries, g.id);
        && TotalsFit(UsageShares(l.entries, g.id))
        && TestFits(l.scopes[g.scope].limit, l.scopes[g.scope].usage, used)
        && AmountFits(Add(l.scopes[g.scope].usage, used))
    case ReleaseOp(_) => true
  }

  ghost predicate AllSumsFit(l: Ledger, ops: seq<Op>)
    decreases |ops|
  {
    |ops| > 0 ==> SumsFit(l, ops[0]) && AllSumsFit(Step(l, ops[0]), ops[1..])
  }

  lemma {:induction false} AddFits(a: Amount, b: Amount)
    requires AmountFits(Add(a, b))
    ensures WrapAdd(a, b) == Add(a, b)
  {
    hide Wrap;
    var r := Add(a, b);
    assert FitsI64(r.Value(Tokens)) && FitsI64(r.Value(CostMicros));
    assert FitsI64(r.Value(WallTimeMs)) && FitsI64(r.Value(ToolCalls));
  }

  lemma {:induction false} TotalFits(xs: seq<Amount>)
    requires TotalsFit(xs)
    ensures WrapTotal(xs) == Total(xs)
    decreases |xs|
  {
    hide AmountFits, Add, WrapAdd;
    if |xs| > 0 {
      var n := |xs| - 1;
      forall k | 0 <= k <= n ensures AmountFits(Total(xs[..n][..k])) { assert xs[..n][..k] == xs[..k]; }
      TotalFits(xs[..n]);
      assert xs[..|xs|] == xs;
      AddFits(Total(xs[..n]), xs[n]);
    }
  }

  lemma {:induction false} TestAgrees(bound: Amount, used: Amount, delta: Amount)
    requires TestFits(bound, used, delta)
    ensures MachineFits(bound, used, delta) <==> FitsBudget(bound, used, delta)
  {
    hide Wrap, FitsBudget;
    assert forall d: Dimension :: bound.At(d).Some? ==>
      (Admits(bound, d, used.Value(d) + delta.Value(d)) <==> Wrap(used.Value(d) + delta.Value(d)) <= bound.At(d).value);
  }

  lemma {:induction false} RemainderAgrees(limit: Amount, consumed: Amount)
    requires RemainderFits(limit, consumed)
    ensures WrapRemaining(limit, consumed) == RemainingBudget(limit, consumed)
  {
    hide Wrap;
    var left := (d: Dimension) => limit.At(d).Some? ==> FitsI64(limit.At(d).value - consumed.Value(d));
    assert left(Tokens) && left(CostMicros) && left(WallTimeMs) && left(ToolCalls);
  }

  lemma {:induction false} ConsumedAgrees(l: Ledger, s: ScopeId)
    requires ConsumedFits(l, s)
    ensures WrapConsumed(l, s) == Consumed(l, s)
  {
    hide AmountFits, TotalsFit, Add, WrapAdd, Total, WrapTotal;
    TotalFits(ReservedShares(l.grants, s));
    AddFits(l.scopes[s].usage, Total(ReservedShares(l.grants, s)));
  }

  // ----- steps and runs -----

  lemma {:induction false} ReserveAgrees(l: Ledger, q: ReserveRequest, id: string)
    requires SumsFit(l, ReserveOp(q, id))
    ensures Reserve64(l, q, id) == Reserve(l, q, id)
  {
    hide ConsumedFits, TestFits, MachineFits, FitsBudget, Consumed, WrapConsumed, ValidAmount, FindGrant,
         FindGrantByKey;
    if ValidAmount(q.limit) && ValidAmount(q.requested) && FindGrantByKey(l.grants, q.scope, q.key).None? {
      var l1 := SetLimit(l, q.scope, q.limit);
      ConsumedAgrees(l1, q.scope);
      TestAgrees(q.limit, Consumed(l1, q.scope), q.requested);
    }
  }

  lemma {:induction false} ObjectiveAgrees(l: Ledger, q: ObjectiveRequest, id: string)
    requires SumsFit(l, ObjectiveOp(q, id))
    ensures ReserveObjective64(l, q, id) == ReserveObjective(l, q, id)
  {
    hide ConsumedFits, RemainderFits, WrapRemaining, RemainingBudget, Consumed, WrapConsumed, ValidAmount, FindGrant,
         FindGrantByKey;
    var s := ObjectiveScope(q.objective);
    var l1 := if s in l.scopes then l else SetLimit(l, s, q.limit);
    if ValidAmount(q.limit) && l1.scopes[s].limit == q.limit && FindGrantByKey(l.grants, s, q.key).None? {
      ConsumedAgrees(l1, s);
      RemainderAgrees(q.limit, Consumed(l1, s));
    }
  }

  lemma {:induction false} RecordAgrees(l: Ledger, q: UsageRequest, id: string)
    requires SumsFit(l, RecordOp(q, id))
    ensures RecordUsage64(l, q, id) == RecordUsage(l, q, id)
  {
    hide TotalsFit, TestFits, MachineFits, FitsBudget, FitsReservedGrant, Total, WrapTotal, ValidAmount, FindGrant,
         FindEntry, Bound, EntryIdTaken;
    var r := FindGrant(l.grants, q.grant);
    if ValidAmount(q.usage) && FindEntry(l.entries, q.grant, q.key).None? && r.Some?
       && l.grants[r.value].state == Reserved {
      var g := l.grants[r.value];
      TotalFits(UsageShares(l.entries, g.id));
      TestAgrees(Bound(g.requested), UsageTotal(l.entries, g.id), q.usage);
      BoundFits(g.requested, UsageTotal(l.entries, g.id), q.usage);
    }
  }

  lemma {:induction false} CommitAgrees(l: Ledger, grant: string)
    requires SumsFit(l, CommitOp(grant))
    ensures Commit64(l, grant) == Commit(l, grant)
  {
    hide TotalsFit, TestFits, AmountFits, MachineFits, FitsBudget, Total, WrapTotal, Add, WrapAdd, FindGrant;
    var r := FindGrant(l.grants, grant);
    if r.Some? && l.grants[r.value].state == Reserved && l.grants[r.value].scope in l.scopes {
      var g := l.grants[r.value];
      var used := UsageTotal(l.entries, g.id);
      TotalFits(UsageShares(l.entries, g.id));
      TestAgrees(l.scopes[g.scope].limit, l.scopes[g.scope].usage, used);
      AddFits(l.scopes[g.scope].usage, used);
    }
  }

  lemma {:induction false} StepAgrees(l: Ledger, op: Op)
    requires SumsFit(l, op)
    ensures Perform64(l, op) == Perform(l, op)
  {
    hide SumsFit, Reserve, Reserve64, ReserveObjective, ReserveObjective64, RecordUsage, RecordUsage64, Commit,
         Commit64;
    match op
    case ReserveOp(q, id) => ReserveAgrees(l, q, id);
    case ObjectiveOp(q, id) => ObjectiveAgrees(l, q, id);
    case RecordOp(q, id) => RecordAgrees(l, q, id);
    case CommitOp(g) => CommitAgrees(l, g);
    case ReleaseOp(_) =>
  }

  /** As long as every computed sum fits, the machine's run is the run of the ledger functions. */
  lemma {:induction false} MachineRunAgrees(l: Ledger, ops: seq<Op>)
    requires AllSumsFit(l, ops)
    ensures Run64(l, ops) == Run(l, ops)
    decreases |ops|
  {
    hide SumsFit, Perform, Perform64;
    if |ops| > 0 {
      StepAgrees(l, ops[0]);
      MachineRunAgrees(Step(l, ops[0]), ops[1..]);
    }
  }

  /** In particular its books balance. */
  lemma {:induction false} MachineConservation(ops: seq<Op>)
    requires AllSumsFit(EMPTY, ops)
    ensures Inv(Run64(EMPTY, ops))
  {
    hide AllSumsFit, Run, Run64, Inv;
    MachineRunAgrees(EMPTY, ops);
    EmptyInv();
    RunKeepsInv(EMPTY, ops);
  }
}
