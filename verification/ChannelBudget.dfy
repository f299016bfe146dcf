/**
 Deliveries and jobs together with the budget ledger: a job that ends commits its budget
 grant in the same transaction, and a refused commit undoes the whole of it.
 */
module ChannelBudget {
  import opened Common
  import B = BudgetLedger
  import BI = BudgetInvariants
  import BA = BudgetAmounts
  import D = ChannelDelivery
  import O = ChannelOutcome

  datatype Joint = Joint(board: D.Board, ledger: B.Ledger)

  const START := Joint(D.EMPTY, B.EMPTY)

  /** A channel or scheduler call, whose own `charged` is not used, or a budget call. */
  datatype Op = Channel(channel: D.Op) | Budget(budget: B.Op)

  /** The row of the job that a call may end. */
  function EndedBy(b: D.Board, op: D.Op): (r: Option<nat>)
    ensures r.Some? ==> r.value < |b.jobs|
  {
    match op
    case CompleteOp(id, _, _, _) => DeliveryJob(b, id)
    case FailOp(id, _, _, _) => DeliveryJob(b, id)
    case CompleteJobOp(id, _, _) => D.FindJob(b.jobs, id)
    case FailJobOp(id, _, _) => D.FindJob(b.jobs, id)
    case CancelJobOp(id, _) => D.FindJob(b.jobs, id)
    case _ => None
  }

  function DeliveryJob(b: D.Board, id: string): (r: Option<nat>)
    ensures r.Some? ==> r.value < |b.jobs|
  {
    match D.FindDelivery(b, id)
    case None => None
    case Some(k) =>
      match D.JobOf(b, b.deliveries[k])
      case Err(_) => None
      case Ok(i) => Some(i)
  }

  /** Whether the ledger accepts the commit of the job's grant; a job without one has nothing to commit. */
  function Accepts(l: B.Ledger, j: D.Job): bool {
    j.grant.Some? ==> B.Commit(l, j.grant.value).1.Ok?
  }

  /** The call with the ledger's answer. */
  function Answered(b: D.Board, l: B.Ledger, op: D.Op): D.Op {
    var i := EndedBy(b, op);
    var charged := i.Some? ==> Accepts(l, b.jobs[i.value]);
    match op
    case CompleteOp(id, lease, now, _) => D.CompleteOp(id, lease, now, charged)
    case FailOp(id, lease, now, _) => D.FailOp(id, lease, now, charged)
    case CompleteJobOp(id, lease, _) => D.CompleteJobOp(id, lease, charged)
    case FailJobOp(id, lease, _) => D.FailJobOp(id, lease, charged)
    case CancelJobOp(id, _) => D.CancelJobOp(id, charged)
    case _ => op
  }

  /** The job in row `i` ends in this step. */
  predicate Ends(b: D.Board, b': D.Board, i: nat) {
    i < |b.jobs| && i < |b'.jobs| && !D.Terminal(b.jobs[i].state) && D.Terminal(b'.jobs[i].state)
  }

  /** The ledger call a channel call makes, if it ends a job that has a grant. */
  function Charge(b: D.Board, b': D.Board, op: D.Op): Option<B.Op> {
    var i := EndedBy(b, op);
    if i.Some? && Ends(b, b', i.value) && b.jobs[i.value].grant.Some?
    then Some(B.CommitOp(b.jobs[i.value].grant.value))
    else None
  }

  function Step(s: Joint, op: Op): Joint {
    match op
    case Budget(bop) => s.(ledger := B.Step(s.ledger, bop))
    case Channel(dop) =>
      var board := D.Step(s.board, Answered(s.board, s.ledger, dop));
      match Charge(s.board, board, dop)
      case None => Joint(board, s.ledger)
      case Some(commit) => Joint(board, B.Step(s.ledger, commit))
  }

  function Run(s: Joint, ops: seq<Op>): Joint
    decreases |ops|
  {
    if |ops| == 0 then s else Run(Step(s, ops[0]), ops[1..])
  }

  // ----- each side on its own -----

  ghost predicate Inv(s: Joint) {
    D.Inv(s.board) && BI.Inv(s.ledger)
  }

  lemma {:induction false} StepKeepsInv(s: Joint, op: Op)
    requires Inv(s)
    ensures Inv(Step(s, op))
  {
    hide D.Inv, BI.Inv, D.Step, B.Step, Answered, Charge;
    match op
    case Budget(bop) => BI.StepKeepsInv(s.ledger, bop);
    case Channel(dop) =>
      var answered := Answered(s.board, s.ledger, dop);
      D.StepKeepsInv(s.board, answered);
      var commit := Charge(s.board, D.Step(s.board, answered), dop);
      if commit.Some? { BI.StepKeepsInv(s.ledger, commit.value); }
  }

  /**
   Whatever happens jointly, the board and the ledger each go through a run of their own,
   so what holds on every run of either holds here.
   */
  lemma {:induction false} JointRunProjects(s: Joint, ops: seq<Op>) returns (dops: seq<D.Op>, bops: seq<B.Op>)
    ensures Run(s, ops).board == D.Run(s.board, dops)
    ensures Run(s, ops).ledger == B.Run(s.ledger, bops)
    decreases |ops|
  {
    hide D.Step, B.Step, Answered, Charge;
    if |ops| == 0 {
      return [], [];
    }
    dops, bops := JointRunProjects(Step(s, ops[0]), ops[1..]);
    match ops[0] {
      case Budget(bop) =>
        bops := [bop] + bops;
      case Channel(dop) =>
        var answered := Answered(s.board, s.ledger, dop);
        dops := [answered] + dops;
        var commit := Charge(s.board, D.Step(s.board, answered), dop);
        if commit.Some? { bops := [commit.value] + bops; }
    }
  }

  lemma {:induction false} RunKeepsInv(s: Joint, ops: seq<Op>)
    requires Inv(s)
    ensures Inv(Run(s, ops))
    decreases |ops|
  {
    hide Inv, Step;
    if |ops| > 0 {
      StepKeepsInv(s, ops[0]);
      RunKeepsInv(Step(s, ops[0]), ops[1..]);
    }
  }

  lemma {:induction false} StartInv()
    ensures Inv(START)
  {
    D.EmptyInv();
    BI.EmptyInv();
  }

  // ----- settlement is all or nothing -----

  predicate ChargedIn(op: D.Op) {
    match op
    case CompleteOp(_, _, _, charged) => charged
    case FailOp(_, _, _, charged) => charged
    case CompleteJobOp(_, _, charged) => charged
    case FailJobOp(_, _, charged) => charged
    case CancelJobOp(_, charged) => charged
    case _ => true
  }

  // Only the job a call names can end, and only if its grant is charged.
  lemma {:induction false} OnlyNamedJobEnds(b: D.Board, op: D.Op, i: nat)
    requires D.Inv(b) && Ends(b, D.Step(b, op), i)
    ensures EndedBy(b, op) == Some(i) && D.Settles(b.jobs[i], ChargedIn(op))
  {
    hide D.JobsUnique, D.DeliveriesUnique, D.AllAgree, D.JobKey, D.FindJob, D.FindDelivery, D.FindDeliveryByKey;
    if op.CompleteOp? || op.FailOp? {
      var r := D.FindDelivery(b, op.id);
      if r.Some? { D.JobRow(b, r.value); }
    }
  }

  lemma {:induction false} AnsweredNames(s: Joint, op: D.Op)
    ensures EndedBy(s.board, Answered(s.board, s.ledger, op)) == EndedBy(s.board, op)
    ensures EndedBy(s.board, op).Some? ==>
              ChargedIn(Answered(s.board, s.ledger, op)) == Accepts(s.ledger, s.board.jobs[EndedBy(s.board, op).value])
  {
    hide B.Commit, D.FindJob, D.FindDelivery, D.JobOf;
  }

  /** A job that ends has its grant committed in the same step, and the ledger accepted it. */
  lemma {:induction false} EndingCommits(s: Joint, op: Op, i: nat)
    requires Inv(s) && Ends(s.board, Step(s, op).board, i) && s.board.jobs[i].grant.Some?
    ensures var grant := s.board.jobs[i].grant.value;
            && B.Commit(s.ledger, grant).1.Ok?
            && Step(s, op).ledger == B.Commit(s.ledger, grant).0
  {
    hide D.Inv, BI.Inv, D.Step, B.Commit, Answered, EndedBy;
    var dop := op.channel;
    var answered := Answered(s.board, s.ledger, dop);
    OnlyNamedJobEnds(s.board, answered, i);
    AnsweredNames(s, dop);
  }

  /** When the ledger refuses the commit, no job ends and the ledger stays as it is. */
  lemma {:induction false} RefusedChargeEndsNothing(s: Joint, op: D.Op)
    requires Inv(s) && EndedBy(s.board, op).Some?
    requires !Accepts(s.ledger, s.board.jobs[EndedBy(s.board, op).value])
    ensures Step(s, Channel(op)).ledger == s.ledger
    ensures forall i :: 0 <= i < |s.board.jobs| ==> !Ends(s.board, Step(s, Channel(op)).board, i)
  {
    hide D.Inv, BI.Inv, D.Step, B.Commit, Answered, EndedBy, Ends;
    var answered := Answered(s.board, s.ledger, op);
    AnsweredNames(s, op);
    forall i | 0 <= i < |s.board.jobs| ensures !Ends(s.board, D.Step(s.board, answered), i) {
      if Ends(s.board, D.Step(s.board, answered), i) { OnlyNamedJobEnds(s.board, answered, i); }
    }
  }

  /** A channel call that ends no job leaves the ledger as it is. */
  lemma {:induction false} OnlyEndingCharges(s: Joint, op: D.Op)
    requires forall i :: 0 <= i < |s.board.jobs| ==> !Ends(s.board, Step(s, Channel(op)).board, i)
    ensures Step(s, Channel(op)).ledger == s.ledger
  {
    hide D.Step, Answered;
  }

  // ----- no ended job leaves its grant reserved -----

  ghost predicate GrantSettled(l: B.Ledger, grant: string) {
    forall k :: 0 <= k < |l.grants| && l.grants[k].id == grant ==> l.grants[k].state != B.Reserved
  }

  ghost predicate EndedSettled(s: Joint) {
    forall i :: 0 <= i < |s.board.jobs| && D.Terminal(s.board.jobs[i].state) && s.board.jobs[i].grant.Some? ==>
      GrantSettled(s.ledger, s.board.jobs[i].grant.value)
  }

  /** The identifier generated for a grant is not one that a job already names. */
  ghost predicate FreshGrant(s: Joint, op: Op) {
    op.Budget? && (op.budget.ReserveOp? || op.budget.ObjectiveOp?) ==>
      forall i :: 0 <= i < |s.board.jobs| ==> s.board.jobs[i].grant != Some(op.budget.id)
  }

  ghost predicate AlwaysFresh(s: Joint, ops: seq<Op>)
    decreases |ops|
  {
    |ops| > 0 ==> FreshGrant(s, ops[0]) && AlwaysFresh(Step(s, ops[0]), ops[1..])
  }

  // A ledger step that inserts no grant of this id leaves the grant settled.
  lemma {:induction false} LedgerKeepsSettled(l: B.Ledger, op: B.Op, grant: string)
    requires GrantSettled(l, grant)
    requires op.ReserveOp? || op.ObjectiveOp? ==> op.id != grant
    ensures GrantSettled(B.Step(l, op), grant)
  {
    hide B.ReservedTotal, B.UsageTotal, BA.FitsBudget, BA.FitsReservedGrant, BA.RemainingBudget, BA.Add, BA.ValidAmount;
  }

  lemma {:induction false} CommitSettles(l: B.Ledger, grant: string)
    requires BI.Inv(l) && B.Commit(l, grant).1.Ok?
    ensures GrantSettled(B.Commit(l, grant).0, grant)
  {
    hide BI.GrantsSound, BI.EntriesSound, BI.Balanced, BI.MirrorsUsage, BI.MirrorsGrants;
    hide B.UsageTotal, BA.FitsBudget, BA.Add;
  }

  // A step keeps the grants that jobs name, and new jobs have not ended.
  lemma {:induction false} JobGrantsStay(b: D.Board, op: D.Op, i: nat)
    requires D.Inv(b) && i < |D.Step(b, op).jobs|
    ensures i < |b.jobs| ==> D.Step(b, op).jobs[i].grant == b.jobs[i].grant
    ensures i >= |b.jobs| ==> !D.Terminal(D.Step(b, op).jobs[i].state)
  {
    hide D.JobsUnique, D.DeliveriesUnique, D.AllAgree, D.JobKey, D.FindJob, D.FindDelivery, D.FindDeliveryByKey;
  }

  lemma {:induction false} StepKeepsSettled(s: Joint, op: Op)
    requires Inv(s) && EndedSettled(s) && FreshGrant(s, op)
    ensures EndedSettled(Step(s, op))
  {
    hide D.Inv, BI.Inv, D.Step, B.Step, Answered, Charge, D.Terminal, GrantSettled, B.Commit;
    var s' := Step(s, op);
    forall i | 0 <= i < |s'.board.jobs| && D.Terminal(s'.board.jobs[i].state) && s'.board.jobs[i].grant.Some?
      ensures GrantSettled(s'.ledger, s'.board.jobs[i].grant.value)
    {
      JobSettled(s, op, i);
    }
  }

  lemma {:induction false} JobSettled(s: Joint, op: Op, i: nat)
    requires Inv(s) && EndedSettled(s) && FreshGrant(s, op)
    requires var jobs := Step(s, op).board.jobs;
             i < |jobs| && D.Terminal(jobs[i].state) && jobs[i].grant.Some?
    ensures GrantSettled(Step(s, op).ledger, Step(s, op).board.jobs[i].grant.value)
  {
    hide D.Inv, BI.Inv, D.Step, B.Step, Answered, Charge, D.Terminal, GrantSettled, B.Commit;
    var grant := Step(s, op).board.jobs[i].grant.value;
    match op
    case Budget(bop) => LedgerKeepsSettled(s.ledger, bop, grant);
    case Channel(dop) =>
      var answered := Answered(s.board, s.ledger, dop);
      JobGrantsStay(s.board, answered, i);
      if D.Terminal(s.board.jobs[i].state) {
        var commit := Charge(s.board, D.Step(s.board, answered), dop);
        if commit.Some? {
          ChargeIsCommit(s.board, D.Step(s.board, answered), dop);
          LedgerKeepsSettled(s.ledger, commit.value, grant);
        }
      } else {
        EndingCommits(s, op, i);
        CommitSettles(s.ledger, grant);
      }
  }

  lemma {:induction false} ChargeIsCommit(b: D.Board, b': D.Board, op: D.Op)
    ensures Charge(b, b', op).Some? ==> Charge(b, b', op).value.CommitOp?
  {
  }

  lemma {:induction false} RunKeepsSettled(s: Joint, ops: seq<Op>)
    requires Inv(s) && EndedSettled(s) && AlwaysFresh(s, ops)
    ensures EndedSettled(Run(s, ops))
    decreases |ops|
  {
    hide Inv, EndedSettled, FreshGrant, Step;
    if |ops| > 0 {
      StepKeepsInv(s, ops[0]);
      StepKeepsSettled(s, ops[0]);
      RunKeepsSettled(Step(s, ops[0]), ops[1..]);
    }
  }

  /** On every run with fresh grant identifiers, a job that has ended leaves no grant of its reserved. */
  lemma {:induction false} EndedJobsAreSettled(ops: seq<Op>)
    requires AlwaysFresh(START, ops)
    ensures EndedSettled(Run(START, ops))
  {
    hide AlwaysFresh, Run, Inv;
    StartInv();
    RunKeepsSettled(START, ops);
  }

  // ----- which deliveries can still be sent -----

  ghost predicate CanBeSent(s: Joint, k: nat) {
    exists more :: k < |Run(s, more).board.deliveries| && Run(s, more).board.deliveries[k].state == D.Sent
  }

  // A replayed reservation without limits lifts the limits of the grant's scope.
  lemma {:induction false} LimitsLifted(l: B.Ledger, j: D.Job) returns (op: B.Op)
    requires BI.Inv(l)
    ensures Accepts(B.Step(l, op), j)
  {
    hide BI.EntriesSound, BI.Balanced, BI.MirrorsUsage, BI.MirrorsGrants, B.UsageTotal, B.ReservedTotal;
    op := B.ReleaseOp("");
    if j.grant.Some? && B.FindGrant(l.grants, j.grant.value).Some? {
      var i := B.FindGrant(l.grants, j.grant.value).value;
      var g := l.grants[i];
      assert BI.GrantSound(l.scopes, l.entries, g);
      BI.FindUnique(l.grants, i);
      op := B.ReserveOp(B.ReserveRequest(g.scope, BA.NOTHING, BA.NOTHING, "p", "r", g.key, None), "");
      Unlimited(B.Step(l, op), i);
    } else {
      UnknownGrant(l, j);
    }
  }

  lemma {:induction false} Unlimited(l: B.Ledger, i: nat)
    requires i < |l.grants| && l.grants[i].scope in l.scopes && l.scopes[l.grants[i].scope].limit == BA.NOTHING
    requires B.FindGrant(l.grants, l.grants[i].id) == Some(i)
    ensures B.Commit(l, l.grants[i].id).1.Ok?
  {
    hide B.UsageTotal, B.FindGrant, B.CommitRow;
  }

  lemma {:induction false} UnknownGrant(l: B.Ledger, j: D.Job)
    requires j.grant.Some? ==> B.FindGrant(l.grants, j.grant.value).None?
    ensures Accepts(B.Step(l, B.ReleaseOp("")), j)
  {
    hide B.UsageTotal, BA.FitsBudget;
  }

  // Expiry, claim and completion of a job whose grant the ledger accepts happen as on the board alone.
  lemma {:induction false} SentJointly(s: Joint, k: nat, i: nat) returns (more: seq<Op>)
    requires Inv(s) && O.Carries(s.board, k, i) && !O.Lost(s.board.jobs[i]) && Accepts(s.ledger, s.board.jobs[i])
    ensures k < |Run(s, more).board.deliveries| && Run(s, more).board.deliveries[k].state == D.Sent
  {
    hide O.Carries, D.Step, D.Inv, BI.Inv, B.Commit;
    O.CarriesRow(s.board, k, i);
    match s.board.jobs[i].state {
      case JobSucceeded =>
        more := SentAtOnce(s, k, i);
      case JobRunning =>
        var expire := D.ExpireOp(s.board.jobs[i].id);
        O.ExpireFrees(s.board, k, i);
        var s1 := Joint(D.Step(s.board, expire), s.ledger);
        assert Step(s, Channel(expire)) == s1;
        SameGrant(s.board, expire, i);
        D.StepKeepsInv(s.board, expire);
        var rest := ClaimedJointly(s1, k, i);
        more := [Channel(expire)] + rest;
      case _ =>
        more := ClaimedJointly(s, k, i);
    }
  }

  lemma {:induction false} SameGrant(b: D.Board, op: D.Op, i: nat)
    requires D.Inv(b) && i < |b.jobs| && (op.ExpireOp? || op.ClaimJobOp?)
    ensures i < |D.Step(b, op).jobs| && D.Step(b, op).jobs[i].grant == b.jobs[i].grant
  {
    hide D.JobsUnique, D.DeliveriesUnique, D.AllAgree, D.FindJob;
  }

  lemma {:induction false} ClaimedJointly(s: Joint, k: nat, i: nat) returns (more: seq<Op>)
    requires Inv(s) && O.Carries(s.board, k, i) && i < |s.board.jobs|
    requires var state := s.board.jobs[i].state; state == D.JobPending || state == D.JobReady || state == D.JobRetry
    requires Accepts(s.ledger, s.board.jobs[i])
    ensures k < |Run(s, more).board.deliveries| && Run(s, more).board.deliveries[k].state == D.Sent
  {
    hide O.Carries, D.Step, D.Inv, BI.Inv, D.Holds, B.Commit;
    var claim := D.ClaimJobOp(s.board.jobs[i].id, O.WORKER);
    O.ClaimHolds(s.board, k, i);
    var s1 := Joint(D.Step(s.board, claim), s.ledger);
    assert Step(s, Channel(claim)) == s1;
    SameGrant(s.board, claim, i);
    D.StepKeepsInv(s.board, claim);
    var rest := SentAtOnce(s1, k, i);
    more := [Channel(claim)] + rest;
  }

  lemma {:induction false} SentAtOnce(s: Joint, k: nat, i: nat) returns (more: seq<Op>)
    requires Inv(s) && O.Carries(s.board, k, i) && Accepts(s.ledger, s.board.jobs[i])
    requires s.board.jobs[i].state == D.JobSucceeded || D.Holds(s.board.jobs[i], O.WORKER)
    ensures k < |Run(s, more).board.deliveries| && Run(s, more).board.deliveries[k].state == D.Sent
  {
    hide D.Step, D.Inv, BI.Inv, B.Commit, D.FindDelivery, D.JobOf, D.JobKey, Charge;
    O.CarriesRow(s.board, k, i);
    var complete := D.CompleteOp(s.board.deliveries[k].id, O.WORKER, 0, true);
    O.CompleteSends(s.board, k, i);
    DeliveryJobRow(s.board, k, i);
    assert Answered(s.board, s.ledger, complete) == complete;
    more := [Channel(complete)];
    assert more[1..] == [];
    assert Run(s, more) == Step(s, Channel(complete));
  }

  lemma {:induction false} DeliveryJobRow(b: D.Board, k: nat, i: nat)
    requires O.Carries(b, k, i)
    ensures DeliveryJob(b, b.deliveries[k].id) == Some(i)
  {
    hide D.JobKey, D.AllAgree;
    D.JobRow(b, k);
    assert D.FindDelivery(b, b.deliveries[k].id) == Some(k);
  }

  /**
   In every state reached jointly: a pending delivery can still be sent exactly when its job
   is a channel delivery job that has neither failed nor been cancelled. A refused budget
   commit only delays it: raising the scope's limit lets the commit through.
   */
  lemma {:induction false} CanBeSentIff(ops: seq<Op>, k: nat)
    requires var b := Run(START, ops).board; k < |b.deliveries| && b.deliveries[k].state == D.Pending
    ensures var b := Run(START, ops).board;
            && D.JobOf(b, b.deliveries[k]).Ok?
            && (CanBeSent(Run(START, ops), k) <==> !O.Lost(b.jobs[D.JobOf(b, b.deliveries[k]).value]))
  {
    hide Run, D.Inv, BI.Inv, D.JobOf, D.Agrees, B.Step;
    StartInv();
    RunKeepsInv(START, ops);
    var s := Run(START, ops);
    D.JobRow(s.board, k);
    var i := D.JobOf(s.board, s.board.deliveries[k]).value;
    if O.Lost(s.board.jobs[i]) {
      assert O.Stranded(s.board, k);
      forall more ensures k < |Run(s, more).board.deliveries| && Run(s, more).board.deliveries[k].state == D.Pending {
        var dops, _ := JointRunProjects(s, more);
        O.StrandedStays(s.board, dops, k);
      }
    } else {
      var lift := LimitsLifted(s.ledger, s.board.jobs[i]);
      var s1 := s.(ledger := B.Step(s.ledger, lift));
      StepKeepsInv(s, Budget(lift));
      var rest := SentJointly(s1, k, i);
      RunCons(s, Budget(lift), rest);
      assert CanBeSent(s, k);
    }
  }

  lemma {:induction false} RunCons(s: Joint, op: Op, rest: seq<Op>)
    ensures Run(s, [op] + rest) == Run(Step(s, op), rest)
  {
    hide Step;
    assert ([op] + rest)[1..] == rest;
  }
}
