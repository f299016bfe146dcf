/**
 Solvency of limited dimensions over whole runs, and what follows from it:
 commits are never refused and limited sums stay inside 64-bit integers.
 */
module BudgetSolvency {
  import opened Common
  import opened BudgetAmounts
  import opened BudgetLedger
  import opened BudgetInvariants

  ghost predicate Covered(limit: Amount, consumed: Amount) {
    forall d: Dimension :: Admits(limit, d, consumed.Value(d))
  }

  /** In every limited dimension of the scope, usage plus reserved requests is within the limit. */
  ghost predicate CoveredAt(l: Ledger, s: ScopeId) {
    s in l.scopes && Covered(l.scopes[s].limit, Consumed(l, s))
  }

  ghost predicate Solvent(l: Ledger) {
    forall s :: s in l.scopes ==> CoveredAt(l, s)
  }

  /** The limit a reservation carries covers what its scope has already used and promised. */
  ghost predicate LimitCovers(l: Ledger, op: Op) {
    op.ReserveOp? && ValidAmount(op.reserve.limit) && ValidAmount(op.reserve.requested) && op.reserve.scope in l.scopes
    ==> Covered(op.reserve.limit, Consumed(l, op.reserve.scope))
  }

  /** A reservation does not lower its scope's limit, a missing limit being infinite. */
  ghost predicate NotLowered(l: Ledger, op: Op) {
    op.ReserveOp? && op.reserve.scope in l.scopes ==>
      forall d: Dimension ::
        var before, after := l.scopes[op.reserve.scope].limit.At(d), op.reserve.limit.At(d);
        after.Some? ==> before.Some? && before.value <= after.value
  }

  ghost predicate AlwaysSolvent(l: Ledger, ops: seq<Op>)
    decreases |ops|
  {
    Solvent(l) && (|ops| > 0 ==> AlwaysSolvent(Step(l, ops[0]), ops[1..]))
  }

  ghost predicate LimitsAlwaysCover(l: Ledger, ops: seq<Op>)
    decreases |ops|
  {
    |ops| > 0 ==> LimitCovers(l, ops[0]) && LimitsAlwaysCover(Step(l, ops[0]), ops[1..])
  }

  ghost predicate LimitsNeverLowered(l: Ledger, ops: seq<Op>)
    decreases |ops|
  {
    |ops| > 0 ==> NotLowered(l, ops[0]) && LimitsNeverLowered(Step(l, ops[0]), ops[1..])
  }

  // ----- one write at a time -----

  lemma {:induction false} SetLimitSolvent(l: Ledger, s: ScopeId, limit: Amount)
    requires Inv(l) && Solvent(l) && ValidAmount(limit)
    ensures Solvent(SetLimit(l, s, limit)) <==> (s in l.scopes ==> Covered(limit, Consumed(l, s)))
  {
    hide GrantsUnique, GrantsSound, EntriesSound, Balanced, MirrorsUsage, MirrorsGrants, ReservedTotal;
    var l' := SetLimit(l, s, limit);
    if s in l.scopes {
      assert Consumed(l', s) == Consumed(l, s);
    } else {
      NoRowNoGrants(l, s);
      NothingCommitted(l.grants, s);
      assert Covered(limit, Consumed(l', s));
    }
    forall t | t in l.scopes && t != s ensures CoveredAt(l', t) {
      assert CoveredAt(l, t) && Consumed(l', t) == Consumed(l, t);
    }
    assert s in l'.scopes;
  }

  lemma {:induction false} InsertGrantCovered(l: Ledger, g: Grant, objective: Option<string>, s: ScopeId)
    requires CoveredAt(l, s) && g.state == Reserved
    requires g.scope == s ==> FitsBudget(l.scopes[s].limit, Consumed(l, s), g.requested)
    ensures CoveredAt(InsertGrant(l, g, objective), s)
  {
    hide ReservedTotal, Add, FitsBudget;
    ReservedSnoc(l.grants, g, s);
  }

  lemma {:induction false} InsertGrantSolvent(l: Ledger, g: Grant, objective: Option<string>)
    requires Solvent(l) && g.scope in l.scopes && g.state == Reserved
    requires FitsBudget(l.scopes[g.scope].limit, Consumed(l, g.scope), g.requested)
    ensures Solvent(InsertGrant(l, g, objective))
  {
    hide CoveredAt, Consumed, FitsBudget;
    forall s | s in l.scopes ensures CoveredAt(InsertGrant(l, g, objective), s) {
      InsertGrantCovered(l, g, objective, s);
    }
  }

  lemma {:induction false} CommitCovered(l: Ledger, i: nat, s: ScopeId)
    requires Inv(l) && CoveredAt(l, s) && i < |l.grants| && l.grants[i].state == Reserved
    ensures l.grants[i].scope in l.scopes
    ensures CoveredAt(CommitRow(l, i, UsageTotal(l.entries, l.grants[i].id)), s)
  {
    hide GrantsUnique, EntriesSound, Balanced, MirrorsUsage, MirrorsGrants, ReservedTotal, UsageTotal, Add;
    var g := l.grants[i];
    assert GrantSound(l.scopes, l.entries, g);
    ReservedUpdate(l.grants, i, CommitRow(l, i, UsageTotal(l.entries, g.id)).grants[i], s);
  }

  lemma {:induction false} CommitSolvent(l: Ledger, i: nat)
    requires Inv(l) && Solvent(l) && i < |l.grants| && l.grants[i].state == Reserved
    ensures l.grants[i].scope in l.scopes
    ensures Solvent(CommitRow(l, i, UsageTotal(l.entries, l.grants[i].id)))
  {
    hide GrantsUnique, EntriesSound, Balanced, MirrorsUsage, MirrorsGrants, UsageTotal, CoveredAt;
    assert GrantSound(l.scopes, l.entries, l.grants[i]);
    forall s | s in l.scopes ensures CoveredAt(CommitRow(l, i, UsageTotal(l.entries, l.grants[i].id)), s) {
      CommitCovered(l, i, s);
    }
  }

  lemma {:induction false} ReleaseCovered(l: Ledger, i: nat, s: ScopeId)
    requires Inv(l) && CoveredAt(l, s) && i < |l.grants| && l.grants[i].state == Reserved
    ensures CoveredAt(ReleaseRow(l, i), s)
  {
    hide GrantsUnique, EntriesSound, Balanced, MirrorsUsage, MirrorsGrants, ReservedTotal, Add;
    assert GrantSound(l.scopes, l.entries, l.grants[i]);
    ReservedUpdate(l.grants, i, ReleaseRow(l, i).grants[i], s);
  }

  lemma {:induction false} ReleaseSolvent(l: Ledger, i: nat)
    requires Inv(l) && Solvent(l) && i < |l.grants| && l.grants[i].state == Reserved
    ensures Solvent(ReleaseRow(l, i))
  {
    hide Inv, CoveredAt;
    forall s | s in l.scopes ensures CoveredAt(ReleaseRow(l, i), s) {
      ReleaseCovered(l, i, s);
    }
  }

  // ----- one transaction at a time -----

  /**
   A reservation keeps the ledger solvent exactly when the limit it carries covers
   what the scope has consumed: a replayed or denied call writes the limit too.
   */
  lemma {:induction false} ReserveSolventIff(l: Ledger, q: ReserveRequest, id: string)
    requires Inv(l) && Solvent(l)
    ensures Solvent(Reserve(l, q, id).0) <==> LimitCovers(l, ReserveOp(q, id))
  {
    hide Inv, ReservedTotal, FindGrant, FindGrantByKey, ValidAmount, Add, FitsBudget;
    if ValidAmount(q.limit) && ValidAmount(q.requested) {
      var l1 := SetLimit(l, q.scope, q.limit);
      SetLimitSolvent(l, q.scope, q.limit);
      var denied := l1.(log := l1.log + [DeniedEvent(q.scope, q.reason, q.requested)]);
      assert Solvent(denied) <==> Solvent(l1) by {
        assert forall s :: s in l1.scopes ==> Consumed(denied, s) == Consumed(l1, s);
      }
      assert Consumed(l1, q.scope).Value(Tokens) == Consumed(l1, q.scope).Value(Tokens);
      if FindGrantByKey(l1.grants, q.scope, q.key).None?
         && FitsBudget(l1.scopes[q.scope].limit, Consumed(l1, q.scope), q.requested) {
        assert Covered(q.limit, Consumed(l1, q.scope));
        if q.scope in l.scopes { assert Consumed(l1, q.scope) == Consumed(l, q.scope); }
        assert Solvent(l1);
        var g := Grant(id, q.scope, q.principal, q.reason, q.requested, None, Reserved, q.key, q.expiresAt);
        InsertGrantSolvent(l1, g, None);
      }
    }
  }

  lemma {:induction false} ObjectiveSolvent(l: Ledger, q: ObjectiveRequest, id: string)
    requires Inv(l) && Solvent(l)
    ensures Solvent(ReserveObjective(l, q, id).0)
  {
    hide Inv, Solvent, ReservedTotal, FindGrant, FindGrantByKey, ValidAmount, Add, RemainingBudget;
    var s := ObjectiveScope(q.objective);
    if ValidAmount(q.limit) {
      SetLimitSolvent(l, s, q.limit);
      var l1 := if s in l.scopes then l else SetLimit(l, s, q.limit);
      var rest := RemainingBudget(q.limit, Consumed(l1, s));
      RemainingBudgetMeaning(q.limit, Consumed(l1, s));
      if l1.scopes[s].limit == q.limit && rest.Some? {
        var g := Grant(id, s, q.principal, "objective attempt", rest.value, None, Reserved, q.key, q.expiresAt);
        InsertGrantSolvent(l1, g, Some(q.objective));
      }
    }
  }

  lemma {:induction false} StepSolventIff(l: Ledger, op: Op)
    requires Inv(l) && Solvent(l)
    ensures Solvent(Step(l, op)) <==> LimitCovers(l, op)
  {
    hide Inv, ReservedTotal, UsageTotal, Reserve, ReserveObjective, FitsBudget, FitsReservedGrant, Add;
    match op
    case ReserveOp(q, id) => ReserveSolventIff(l, q, id);
    case ObjectiveOp(q, id) => ObjectiveSolvent(l, q, id);
    case RecordOp(q, id) =>
      var l' := Step(l, op);
      assert forall s :: s in l.scopes ==> Consumed(l', s) == Consumed(l, s);
    case CommitOp(g) =>
      var r := FindGrant(l.grants, g);
      if r.Some? && l.grants[r.value].state == Reserved { CommitSolvent(l, r.value); }
    case ReleaseOp(g) =>
      var r := FindGrant(l.grants, g);
      if r.Some? && l.grants[r.value].state == Reserved { ReleaseSolvent(l, r.value); }
  }

  // ----- whole runs -----

  lemma {:induction false} RunSolventIff(l: Ledger, ops: seq<Op>)
    requires Inv(l) && Solvent(l)
    ensures AlwaysSolvent(l, ops) <==> LimitsAlwaysCover(l, ops)
    ensures LimitsAlwaysCover(l, ops) ==> Solvent(Run(l, ops))
    decreases |ops|
  {
    hide Inv, Solvent, Step, LimitCovers;
    if |ops| > 0 {
      StepSolventIff(l, ops[0]);
      StepKeepsInv(l, ops[0]);
      if Solvent(Step(l, ops[0])) {
        RunSolventIff(Step(l, ops[0]), ops[1..]);
      }
    }
  }

  /**
   Solvency: a run is solvent at every point exactly when each reservation's limit
   covers its scope's consumption at the time of the call.
   */
  lemma {:induction false} SolvencyIff(ops: seq<Op>)
    ensures AlwaysSolvent(EMPTY, ops) <==> LimitsAlwaysCover(EMPTY, ops)
  {
    EmptyInv();
    RunSolventIff(EMPTY, ops);
  }

  lemma {:induction false} NotLoweredCovers(l: Ledger, op: Op)
    requires Solvent(l) && NotLowered(l, op)
    ensures LimitCovers(l, op)
  {
    hide Consumed, ValidAmount;
    if op.ReserveOp? && op.reserve.scope in l.scopes {
      var s := op.reserve.scope;
      assert CoveredAt(l, s);
    }
  }

  lemma {:induction false} NeverLoweredCovers(l: Ledger, ops: seq<Op>)
    requires Inv(l) && Solvent(l) && LimitsNeverLowered(l, ops)
    ensures LimitsAlwaysCover(l, ops)
    decreases |ops|
  {
    hide Inv, Solvent, Step, LimitCovers, NotLowered;
    if |ops| > 0 {
      NotLoweredCovers(l, ops[0]);
      StepSolventIff(l, ops[0]);
      StepKeepsInv(l, ops[0]);
      NeverLoweredCovers(Step(l, ops[0]), ops[1..]);
    }
  }

  /** On a run in which no reservation lowers a limit, the ledger is solvent throughout. */
  lemma {:induction false} Solvency(ops: seq<Op>)
    requires LimitsNeverLowered(EMPTY, ops)
    ensures AlwaysSolvent(EMPTY, ops)
  {
    EmptyInv();
    NeverLoweredCovers(EMPTY, ops);
    RunSolventIff(EMPTY, ops);
  }

  lemma {:induction false} Reached(ops: seq<Op>)
    requires LimitsAlwaysCover(EMPTY, ops)
    ensures Inv(Run(EMPTY, ops)) && Solvent(Run(EMPTY, ops))
  {
    hide Run, Inv;
    EmptyInv();
    RunKeepsInv(EMPTY, ops);
    RunSolventIff(EMPTY, ops);
  }

  /**
   Commit is never refused: in a state reached with covering limits, committing a
   reserved grant succeeds and charges the scope with exactly what was recorded.
   */
  lemma {:induction false} CommitNeverRefused(ops: seq<Op>, i: nat)
    requires LimitsAlwaysCover(EMPTY, ops)
    requires i < |Run(EMPTY, ops).grants| && Run(EMPTY, ops).grants[i].state == Reserved
    ensures var l := Run(EMPTY, ops);
            var g := l.grants[i];
            var used := UsageTotal(l.entries, g.id);
            && g.scope in l.scopes
            && Commit(l, g.id).1 == Ok(GrantReceipt(g.(state := Committed, committed := Some(used))))
            && Commit(l, g.id).0.scopes[g.scope].usage == Add(l.scopes[g.scope].usage, used)
  {
    hide Run, Inv, Solvent, LimitsAlwaysCover, AlwaysSolvent, Add, FitsBudget, UsageTotal, FindGrant;
    Reached(ops);
    SolventCommits(Run(EMPTY, ops), i);
  }

  lemma {:induction false} ReservedAtLeast(grants: seq<Grant>, i: nat)
    requires i < |grants| && grants[i].state == Reserved
    requires forall j :: 0 <= j < |grants| ==> ValidAmount(grants[j].requested)
    ensures forall d: Dimension :: grants[i].requested.Value(d) <= ReservedTotal(grants, grants[i].scope).Value(d)
  {
    var s := grants[i].scope;
    var xs := ReservedShares(grants, s);
    TotalUpdate(xs, i, NOTHING);
    TotalPrefix(xs[i := NOTHING], |xs|);
    forall d: Dimension ensures xs[i].Value(d) <= Total(xs).Value(d) {
      assert Add(Total(xs[i := NOTHING]), xs[i]).Value(d) == Add(Total(xs), NOTHING).Value(d);
      assert Total(xs[i := NOTHING]).Value(d) >= 0;
    }
  }

  lemma {:induction false} CoveredCommits(l: Ledger, i: nat)
    requires Inv(l) && i < |l.grants| && l.grants[i].state == Reserved && CoveredAt(l, l.grants[i].scope)
    ensures var g := l.grants[i];
            var used := UsageTotal(l.entries, g.id);
            && FitsBudget(l.scopes[g.scope].limit, l.scopes[g.scope].usage, used)
            && FindGrant(l.grants, g.id) == Some(i)
  {
    hide EntriesSound, Balanced, MirrorsUsage, MirrorsGrants, ReservedTotal, UsageTotal, Add, FitsBudget;
    var g := l.grants[i];
    assert GrantSound(l.scopes, l.entries, g);
    FindUnique(l.grants, i);
    forall j | 0 <= j < |l.grants| ensures ValidAmount(l.grants[j].requested) {
      assert GrantSound(l.scopes, l.entries, l.grants[j]);
    }
    ReservedAtLeast(l.grants, i);
  }

  lemma {:induction false} SolventCommits(l: Ledger, i: nat)
    requires Inv(l) && Solvent(l) && i < |l.grants| && l.grants[i].state == Reserved
    ensures var g := l.grants[i];
            var used := UsageTotal(l.entries, g.id);
            && g.scope in l.scopes
            && FitsBudget(l.scopes[g.scope].limit, l.scopes[g.scope].usage, used)
            && FindGrant(l.grants, g.id) == Some(i)
  {
    hide GrantsUnique, EntriesSound, Balanced, MirrorsUsage, MirrorsGrants, CoveredAt, UsageTotal, FitsBudget,
         FindGrant;
    assert GrantSound(l.scopes, l.entries, l.grants[i]);
    CoveredCommits(l, i);
  }

  // ----- what a lowered limit does -----

  const EXAMPLE_SCOPE := ScopeId(Session, "owner", SessionWindow)
  const FIVE := NOTHING.(tokens := Some(5))
  const ONE := NOTHING.(tokens := Some(1))
  const EXAMPLE_GRANT := Grant("g", EXAMPLE_SCOPE, "p", "r", FIVE, None, Reserved, "a", None)
  const EXAMPLE_ENTRY := Entry("e", "g", FIVE, "s", "i", "u")

  // A grant of five tokens, all of them used, under the given limit.
  function Example(limit: Amount, log: seq<Event>): Ledger {
    Ledger(map[EXAMPLE_SCOPE := Scope(limit, NOTHING)], [EXAMPLE_GRANT], [EXAMPLE_ENTRY], log)
  }

  lemma {:induction false} ExampleTotals()
    ensures ReservedTotal([EXAMPLE_GRANT], EXAMPLE_SCOPE) == FIVE
    ensures UsageTotal([EXAMPLE_ENTRY], "g") == FIVE
    ensures UsageTotal([], "g") == NOTHING
  {
    assert [FIVE][..0] == [];
    assert Total([FIVE]) == FIVE;
    assert ReservedShares([EXAMPLE_GRANT], EXAMPLE_SCOPE) == [FIVE];
    assert UsageShares([EXAMPLE_ENTRY], "g") == [FIVE];
    NoUsage([], "g");
  }

  lemma {:induction false} ExampleReserved() returns (op: Op, log: seq<Event>)
    ensures Step(EMPTY, op) == Example(FIVE, log).(entries := [])
  {
    hide ReservedTotal;
    op := ReserveOp(ReserveRequest(EXAMPLE_SCOPE, FIVE, FIVE, "p", "r", "a", None), "g");
    log := [ReservedEvent(EXAMPLE_SCOPE, "g", FIVE, "r", None)];
    NothingCommitted([], EXAMPLE_SCOPE);
    assert Consumed(SetLimit(EMPTY, EXAMPLE_SCOPE, FIVE), EXAMPLE_SCOPE) == NOTHING;
  }

  lemma {:induction false} ExampleRecorded(log: seq<Event>) returns (op: Op)
    ensures Step(Example(FIVE, log).(entries := []), op) == Example(FIVE, log)
  {
    hide UsageTotal;
    op := RecordOp(UsageRequest("g", FIVE, "s", "i", "u"), "e");
    ExampleTotals();
  }

  lemma {:induction false} ExampleBuilt() returns (ops: seq<Op>, log: seq<Event>)
    ensures Run(EMPTY, ops) == Example(FIVE, log)
  {
    hide Step, Example;
    var first, events := ExampleReserved();
    var use := ExampleRecorded(events);
    ops, log := [first, use], events;
    assert ops[1..] == [use] && [use][1..] == [];
    assert Run(Example(FIVE, log).(entries := []), [use]) == Run(Example(FIVE, log), []);
  }

  lemma {:induction false} ExampleLowered(log: seq<Event>) returns (q: ReserveRequest, log': seq<Event>)
    ensures q.scope == EXAMPLE_SCOPE && !LimitCovers(Example(FIVE, log), ReserveOp(q, "h"))
    ensures Reserve(Example(FIVE, log), q, "h") == (Example(ONE, log'), Err(BudgetDenied))
  {
    hide ReservedTotal;
    var l := Example(FIVE, log);
    q := ReserveRequest(EXAMPLE_SCOPE, ONE, NOTHING, "p", "r", "b", None);
    log' := log + [DeniedEvent(EXAMPLE_SCOPE, "r", NOTHING)];
    ExampleTotals();
    assert Consumed(l, EXAMPLE_SCOPE) == FIVE;
    assert !Admits(ONE, Tokens, FIVE.Value(Tokens));
    assert SetLimit(l, EXAMPLE_SCOPE, ONE) == Example(ONE, log);
    assert Consumed(Example(ONE, log), EXAMPLE_SCOPE) == FIVE;
    assert !Admits(ONE, Tokens, FIVE.Value(Tokens) + NOTHING.Value(Tokens));
  }

  lemma {:induction false} ExampleCommits(log: seq<Event>)
    ensures Commit(Example(ONE, log), "g").1 == Err(BudgetDenied)
    ensures Commit(Example(FIVE, log), "g").1.Ok?
  {
    hide UsageTotal;
    ExampleTotals();
    assert !Admits(ONE, Tokens, NOTHING.Value(Tokens) + FIVE.Value(Tokens));
  }

  /**
   Lowering a limit can make a commit fail that would have succeeded just before: after
   some run a grant is reserved and can be committed; then a reservation on its scope that
   is itself denied lowers the limit, and the commit is refused.
   */
  lemma {:induction false} LoweredLimitRefusesCommit()
    ensures exists ops, q: ReserveRequest, id, i ::
              var l := Run(EMPTY, ops);
              && 0 <= i < |l.grants| && l.grants[i].state == Reserved && l.grants[i].scope == q.scope
              && Commit(l, l.grants[i].id).1.Ok?
              && !LimitCovers(l, ReserveOp(q, id))
              && Reserve(l, q, id).1 == Err(BudgetDenied)
              && Commit(Reserve(l, q, id).0, l.grants[i].id).1 == Err(BudgetDenied)
  {
    hide LimitCovers, Step, Commit, Run, Reserve;
    var ops, log := ExampleBuilt();
    var q, log' := ExampleLowered(log);
    ExampleCommits(log);
    ExampleCommits(log');
    var l := Run(EMPTY, ops);
    assert l.grants[0] == EXAMPLE_GRANT;
    assert Reserve(l, q, "h").1 == Err(BudgetDenied)
           && Commit(Reserve(l, q, "h").0, l.grants[0].id).1 == Err(BudgetDenied);
  }
}
