/** Exactly when a commit is refused, in one state and on some continuation of a run. */
module BudgetRefusal {
  import opened Common
  import opened BudgetAmounts
  import opened BudgetLedger
  import opened BudgetInvariants
  import opened BudgetSolvency

  /** The scope's limit in this dimension is below the value. */
  predicate Exceeds(limit: Amount, d: Dimension, value: int) {
    limit.At(d).Some? && value > limit.At(d).value
  }

  /**
   In every reachable state, committing a reserved grant is refused exactly when in some
   limited dimension what the scope has used and what the grant has recorded exceed the
   limit together; otherwise it succeeds.
   */
  lemma {:induction false} CommitRefusedIff(ops: seq<Op>, i: nat)
    requires i < |Run(EMPTY, ops).grants| && Run(EMPTY, ops).grants[i].state == Reserved
    ensures var l := Run(EMPTY, ops);
            var g := l.grants[i];
            var r := Commit(l, g.id).1;
            && g.scope in l.scopes
            && (r == Err(BudgetDenied) <==>
                  exists d: Dimension :: Exceeds(l.scopes[g.scope].limit, d,
                    l.scopes[g.scope].usage.Value(d) + UsageTotal(l.entries, g.id).Value(d)))
            && (r.Ok? || r == Err(BudgetDenied))
  {
    hide Run, EntriesSound, Balanced, MirrorsUsage, MirrorsGrants, UsageTotal, FitsBudget, CommitRow, FindGrant;
    EmptyInv();
    RunKeepsInv(EMPTY, ops);
    var l := Run(EMPTY, ops);
    var g := l.grants[i];
    assert GrantSound(l.scopes, l.entries, g);
    FindUnique(l.grants, i);
    var limit, usage, used := l.scopes[g.scope].limit, l.scopes[g.scope].usage, UsageTotal(l.entries, g.id);
    assert forall d: Dimension :: Exceeds(limit, d, usage.Value(d) + used.Value(d))
                             <==> !Admits(limit, d, usage.Value(d) + used.Value(d));
  }

  /** No reservation of the run carries a limit for the scope. */
  ghost predicate LeavesLimit(ops: seq<Op>, s: ScopeId) {
    forall i :: 0 <= i < |ops| ==> (ops[i].ReserveOp? ==> ops[i].reserve.scope != s)
  }

  /** On some continuation that leaves the scope's limit alone, a commit on the scope is refused. */
  ghost predicate CommitCanFail(l: Ledger, s: ScopeId) {
    exists ops, i :: LeavesLimit(ops, s) && RefusedAfter(l, ops, s, i)
  }

  ghost predicate RefusedAfter(l: Ledger, ops: seq<Op>, s: ScopeId, i: int) {
    var l' := Run(l, ops);
    HeldBy(l'.grants, s, i) && Commit(l', l'.grants[i].id).1 == Err(BudgetDenied)
  }

  ghost predicate Holding(l: Ledger, s: ScopeId) {
    exists i :: HeldBy(l.grants, s, i)
  }

  // ----- a covered scope stays covered -----

  lemma {:induction false} StepKeepsCovered(l: Ledger, op: Op, s: ScopeId)
    requires Inv(l) && CoveredAt(l, s) && (op.ReserveOp? ==> op.reserve.scope != s)
    ensures CoveredAt(Step(l, op), s)
  {
    hide Inv, ReservedTotal, UsageTotal, Reserve, ReserveObjective, FitsBudget, FitsReservedGrant, Add, FindGrant;
    match op
    case ReserveOp(q, id) => ReserveElsewhereCovered(l, q, id, s);
    case ObjectiveOp(q, id) => ObjectiveCovered(l, q, id, s);
    case RecordOp(q, id) => assert Consumed(Step(l, op), s) == Consumed(l, s);
    case CommitOp(g) =>
      var r := FindGrant(l.grants, g);
      if r.Some? && l.grants[r.value].state == Reserved { CommitCovered(l, r.value, s); }
    case ReleaseOp(g) =>
      var r := FindGrant(l.grants, g);
      if r.Some? && l.grants[r.value].state == Reserved { ReleaseCovered(l, r.value, s); }
  }

  // A reservation on another scope changes neither row nor reserved total of this one.
  lemma {:induction false} ReserveElsewhere(l: Ledger, q: ReserveRequest, id: string, s: ScopeId)
    requires s in l.scopes && q.scope != s
    ensures var l' := Reserve(l, q, id).0;
            && s in l'.scopes && l'.scopes[s] == l.scopes[s]
            && ReservedTotal(l'.grants, s) == ReservedTotal(l.grants, s)
            && (forall i :: HeldBy(l'.grants, s, i) <==> HeldBy(l.grants, s, i))
  {
    hide ReservedTotal, FitsBudget, Add, ValidAmount, FindGrant, FindGrantByKey;
    var g := Grant(id, q.scope, q.principal, q.reason, q.requested, None, Reserved, q.key, q.expiresAt);
    ReservedSnoc(l.grants, g, s);
    AddNothing(ReservedTotal(l.grants, s));
  }

  lemma {:induction false} ReserveElsewhereCovered(l: Ledger, q: ReserveRequest, id: string, s: ScopeId)
    requires CoveredAt(l, s) && q.scope != s
    ensures CoveredAt(Reserve(l, q, id).0, s)
  {
    hide Reserve, ReservedTotal, Add;
    ReserveElsewhere(l, q, id, s);
  }

  // An objective reservation leaves a scope alone, or takes the whole remainder of its own.
  lemma {:induction false} ObjectiveEffect(l: Ledger, q: ObjectiveRequest, id: string, s: ScopeId)
    requires s in l.scopes
    ensures var l' := ReserveObjective(l, q, id).0;
            && s in l'.scopes && l'.scopes[s] == l.scopes[s]
            && (|| (&& ReservedTotal(l'.grants, s) == ReservedTotal(l.grants, s)
                    && forall i :: HeldBy(l'.grants, s, i) <==> HeldBy(l.grants, s, i))
                || (&& RemainingBudget(l.scopes[s].limit, Consumed(l, s)).Some?
                    && var rest := RemainingBudget(l.scopes[s].limit, Consumed(l, s)).value;
                       ReservedTotal(l'.grants, s) == Add(ReservedTotal(l.grants, s), rest)))
  {
    hide ReservedTotal, Add, ValidAmount, FindGrant, FindGrantByKey, RemainingBudget;
    var t := ObjectiveScope(q.objective);
    var l1 := if t in l.scopes then l else SetLimit(l, t, q.limit);
    var rest := RemainingBudget(q.limit, Consumed(l1, t));
    if rest.Some? {
      var g := Grant(id, t, q.principal, "objective attempt", rest.value, None, Reserved, q.key, q.expiresAt);
      ReservedSnoc(l.grants, g, s);
      AddNothing(ReservedTotal(l.grants, s));
    }
  }

  lemma {:induction false} ObjectiveCovered(l: Ledger, q: ObjectiveRequest, id: string, s: ScopeId)
    requires CoveredAt(l, s)
    ensures CoveredAt(ReserveObjective(l, q, id).0, s)
  {
    hide ReserveObjective, ReservedTotal, Add, RemainingBudget;
    ObjectiveEffect(l, q, id, s);
    RemainingBudgetMeaning(l.scopes[s].limit, Consumed(l, s));
  }

  lemma {:induction false} CoveredNeverRefused(l: Ledger, ops: seq<Op>, s: ScopeId, i: int)
    requires Inv(l) && CoveredAt(l, s) && LeavesLimit(ops, s)
    ensures !RefusedAfter(l, ops, s, i)
    decreases |ops|
  {
    hide Inv, CoveredAt, Step, Commit;
    if |ops| > 0 {
      StepKeepsInv(l, ops[0]);
      StepKeepsCovered(l, ops[0], s);
      CoveredNeverRefused(Step(l, ops[0]), ops[1..], s, i);
    } else if HeldBy(l.grants, s, i) {
      CoveredAccepts(l, i);
    }
  }

  lemma {:induction false} CoveredAccepts(l: Ledger, i: nat)
    requires Inv(l) && i < |l.grants| && l.grants[i].state == Reserved && CoveredAt(l, l.grants[i].scope)
    ensures Commit(l, l.grants[i].id).1.Ok?
  {
    hide Inv, FitsBudget, UsageTotal, FindGrant, Consumed, CommitRow;
    CoveredCommits(l, i);
  }

  // ----- a scope that holds no grant and is not covered never gets one -----

  ghost predicate Spent(l: Ledger, s: ScopeId) {
    s in l.scopes && !CoveredAt(l, s) && !Holding(l, s)
  }

  lemma {:induction false} StepKeepsSpent(l: Ledger, op: Op, s: ScopeId)
    requires Spent(l, s) && (op.ReserveOp? ==> op.reserve.scope != s)
    ensures Spent(Step(l, op), s)
  {
    hide ReservedTotal, UsageTotal, Reserve, ReserveObjective, RemainingBudget, FitsBudget, FitsReservedGrant, Add,
         FindGrant;
    match op
    case ReserveOp(q, id) => ReserveElsewhere(l, q, id, s);
    case ObjectiveOp(q, id) =>
      ObjectiveEffect(l, q, id, s);
      RemainingBudgetMeaning(l.scopes[s].limit, Consumed(l, s));
    case RecordOp(q, id) =>
    case CommitOp(g) =>
      var r := FindGrant(l.grants, g);
      if r.Some? && Step(l, op) != l { SettleElsewhereSpent(l, r.value, Step(l, op), s); }
    case ReleaseOp(g) =>
      var r := FindGrant(l.grants, g);
      if r.Some? && Step(l, op) != l { SettleElsewhereSpent(l, r.value, Step(l, op), s); }
  }

  lemma {:induction false} SettleElsewhereSpent(l: Ledger, i: nat, l': Ledger, s: ScopeId)
    requires Spent(l, s) && i < |l.grants| && l.grants[i].state == Reserved
    requires |l'.grants| == |l.grants| && l'.grants == l.grants[i := l'.grants[i]] && l'.grants[i].state != Reserved
    requires s in l'.scopes && (l.grants[i].scope != s ==> l'.scopes[s] == l.scopes[s])
    ensures Spent(l', s)
  {
    hide ReservedTotal, Add;
    assert !HeldBy(l.grants, s, i);
    ReservedUpdate(l.grants, i, l'.grants[i], s);
    forall j ensures !HeldBy(l'.grants, s, j) {
      assert !HeldBy(l.grants, s, j);
    }
  }

  lemma {:induction false} SpentNeverRefused(l: Ledger, ops: seq<Op>, s: ScopeId, i: int)
    requires Spent(l, s) && LeavesLimit(ops, s)
    ensures !RefusedAfter(l, ops, s, i)
    decreases |ops|
  {
    hide CoveredAt, Step, Commit;
    if |ops| > 0 {
      StepKeepsSpent(l, ops[0], s);
      SpentNeverRefused(Step(l, ops[0]), ops[1..], s, i);
    }
  }

  // ----- from any other state some commit can be made to fail -----

  function Only(d: Dimension, x: int): (a: Amount)
    ensures forall e: Dimension :: a.Value(e) == if e == d then x else 0
  {
    match d
    case Tokens => NOTHING.(tokens := Some(x))
    case CostMicros => NOTHING.(costMicros := Some(x))
    case WallTimeMs => NOTHING.(wallTimeMs := Some(x))
    case ToolCalls => NOTHING.(toolCalls := Some(x))
  }

  function Longest(entries: seq<Entry>): (n: nat)
    ensures forall i :: 0 <= i < |entries| ==> |entries[i].id| <= n && |entries[i].key| <= n
  {
    if |entries| == 0 then 0
    else
      var last := entries[|entries| - 1];
      var n := Longest(entries[..|entries| - 1]);
      var m := if |last.id| <= |last.key| then |last.key| else |last.id|;
      if m <= n then n else m
  }

  /** A text that no entry has as its id or key. */
  function Fresh(entries: seq<Entry>): (r: string)
    ensures r != "" && forall i :: 0 <= i < |entries| ==> entries[i].id != r && entries[i].key != r
  {
    var r := seq(Longest(entries) + 1, _ => 'x');
    assert forall i :: 0 <= i < |entries| ==> |entries[i].id| < |r| && |entries[i].key| < |r|;
    r
  }

  // Records what is left of a grant in one dimension.
  lemma {:induction false} TopUp(l: Ledger, i: nat, d: Dimension) returns (op: Op, e: Entry)
    requires Inv(l) && i < |l.grants| && l.grants[i].state == Reserved
    ensures op.RecordOp? && Step(l, op) == InsertEntry(l, e)
    ensures UsageTotal(Step(l, op).entries, l.grants[i].id).Value(d) == l.grants[i].requested.Value(d)
  {
    hide EntriesSound, Balanced, MirrorsUsage, MirrorsGrants, UsageTotal, ValidAmount, FitsReservedGrant, FindGrant,
         Add;
    var g := l.grants[i];
    assert GrantSound(l.scopes, l.entries, g);
    var used := UsageTotal(l.entries, g.id);
    var delta := Only(d, g.requested.Value(d) - used.Value(d));
    var name := Fresh(l.entries);
    op := RecordOp(UsageRequest(g.id, delta, "s", "i", name), name);
    e := Entry(name, g.id, delta, "s", "i", name);
    FindUnique(l.grants, i);
    assert ValidAmount(delta) && FitsReservedGrant(g.requested, used, delta);
    UsageSnoc(l.entries, e, g.id);
  }

  ghost function Held(grants: seq<Grant>, s: ScopeId): set<int> {
    set i | 0 <= i < |grants| && HeldBy(grants, s, i)
  }

  lemma {:induction false} NothingHeld(grants: seq<Grant>, s: ScopeId)
    requires forall i :: !HeldBy(grants, s, i)
    ensures ReservedTotal(grants, s) == NOTHING
    decreases |grants|
  {
    if |grants| > 0 {
      var n := |grants| - 1;
      forall i ensures !HeldBy(grants[..n], s, i) { assert !HeldBy(grants, s, i); }
      NothingHeld(grants[..n], s);
      assert !HeldBy(grants, s, n);
      assert ReservedShares(grants, s)[..n] == ReservedShares(grants[..n], s);
    }
  }

  /** The scope is over its limit in dimension `d`. */
  predicate Over(l: Ledger, s: ScopeId, d: Dimension) {
    s in l.scopes && Exceeds(l.scopes[s].limit, d, Consumed(l, s).Value(d))
  }

  // An accepted commit of a grant used up in the dimension moves its share from reserved to
  // used: the scope is still over its limit, and another grant of the scope is held.
  lemma {:induction false} CommitLeavesOver(l: Ledger, i: nat, s: ScopeId, d: Dimension)
    requires Inv(l) && HeldBy(l.grants, s, i) && Over(l, s, d)
    requires UsageTotal(l.entries, l.grants[i].id).Value(d) == l.grants[i].requested.Value(d)
    requires Commit(l, l.grants[i].id).1 != Err(BudgetDenied)
    ensures var l' := Step(l, CommitOp(l.grants[i].id));
            Over(l', s, d) && Holding(l', s) && Held(l'.grants, s) == Held(l.grants, s) - {i}
  {
    hide EntriesSound, Balanced, MirrorsUsage, MirrorsGrants, UsageTotal, ReservedTotal, FitsBudget, FindGrant, Add;
    var g := l.grants[i];
    assert GrantSound(l.scopes, l.entries, g);
    FindUnique(l.grants, i);
    var used := UsageTotal(l.entries, g.id);
    var l' := CommitRow(l, i, used);
    assert Step(l, CommitOp(g.id)) == l';
    assert Admits(l.scopes[s].limit, d, l.scopes[s].usage.Value(d) + used.Value(d));
    ReservedUpdate(l.grants, i, l'.grants[i], s);
    forall j ensures HeldBy(l'.grants, s, j) <==> HeldBy(l.grants, s, j) && j != i {}
    if !Holding(l', s) {
      NothingHeld(l'.grants, s);
    }
  }

  lemma {:induction false} OverCanFail(l: Ledger, s: ScopeId, d: Dimension, i: int) returns (ops: seq<Op>, j: int)
    requires Inv(l) && Over(l, s, d) && HeldBy(l.grants, s, i)
    ensures LeavesLimit(ops, s) && RefusedAfter(l, ops, s, j)
    decreases |Held(l.grants, s)|
  {
    hide Inv, Step, Commit, UsageTotal, Consumed, Exceeds, InsertEntry, LeavesLimit;
    var record, e := TopUp(l, i, d);
    var l1 := Step(l, record);
    StepKeepsInv(l, record);
    EntryKeepsOver(l, e, s, d);
    var g := l.grants[i].id;
    RunOne(l, record);
    RecordLeaves(record, s);
    if Commit(l1, g).1 == Err(BudgetDenied) {
      ops, j := [record], i;
    } else {
      var commit := CommitOp(g);
      CommitLeavesOver(l1, i, s, d);
      var l2 := Step(l1, commit);
      StepKeepsInv(l1, commit);
      var k :| HeldBy(l2.grants, s, k);
      assert i in Held(l.grants, s) && Held(l2.grants, s) < Held(l.grants, s);
      SmallerSet(Held(l2.grants, s), Held(l.grants, s));
      var rest;
      rest, j := OverCanFail(l2, s, d, k);
      ops := [record, commit] + rest;
      LeavesMore(record, commit, rest, s);
      RunConcat(l, [record, commit], rest);
      RunPair(l, record, commit);
    }
  }

  lemma {:induction false} EntryKeepsOver(l: Ledger, e: Entry, s: ScopeId, d: Dimension)
    requires Over(l, s, d)
    ensures Over(InsertEntry(l, e), s, d) && InsertEntry(l, e).grants == l.grants
  {
  }

  lemma {:induction false} SmallerSet<T>(a: set<T>, b: set<T>)
    requires a < b
    ensures |a| < |b|
  {
    assert b == a + (b - a);
  }

  lemma {:induction false} RecordLeaves(op: Op, s: ScopeId)
    requires op.RecordOp?
    ensures LeavesLimit([op], s)
  {
  }

  lemma {:induction false} LeavesMore(record: Op, commit: Op, rest: seq<Op>, s: ScopeId)
    requires record.RecordOp? && commit.CommitOp? && LeavesLimit(rest, s)
    ensures LeavesLimit([record, commit] + rest, s)
  {
  }

  lemma {:induction false} RunOne(l: Ledger, op: Op)
    ensures Run(l, [op]) == Step(l, op)
  {
    hide Step;
    assert [op][1..] == [];
  }

  lemma {:induction false} RunPair(l: Ledger, x: Op, y: Op)
    ensures Run(l, [x, y]) == Step(Step(l, x), y)
  {
    hide Step;
    assert [x, y][1..] == [y];
    RunOne(Step(l, x), y);
  }

  /**
   In every reachable state: some continuation that leaves a scope's limit alone ends in a
   refused commit on the scope exactly when the scope holds a reserved grant and is not
   covered.
   */
  lemma {:induction false} CommitCanFailIff(ops: seq<Op>, s: ScopeId)
    requires s in Run(EMPTY, ops).scopes
    ensures var l := Run(EMPTY, ops);
            CommitCanFail(l, s) <==> Holding(l, s) && !CoveredAt(l, s)
  {
    hide Run, Inv, LeavesLimit, RefusedAfter, Consumed;
    EmptyInv();
    RunKeepsInv(EMPTY, ops);
    var l := Run(EMPTY, ops);
    if Holding(l, s) && !CoveredAt(l, s) {
      var i :| HeldBy(l.grants, s, i);
      var d: Dimension :| !Admits(l.scopes[s].limit, d, Consumed(l, s).Value(d));
      assert Over(l, s, d);
      var more, j := OverCanFail(l, s, d, i);
    }
    if CommitCanFail(l, s) {
      var more, j :| LeavesLimit(more, s) && RefusedAfter(l, more, s, j);
      if CoveredAt(l, s) { CoveredNeverRefused(l, more, s, j); }
      if !CoveredAt(l, s) && !Holding(l, s) { SpentNeverRefused(l, more, s, j); }
    }
  }
}
