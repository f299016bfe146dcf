/** Which pending deliveries can still be sent, and runs that show what can go wrong. */
module ChannelOutcome {
  import opened Common
  import opened Tables
  import opened ChannelDelivery

  /** Some continuation, by any users of deliveries and scheduler, sends the delivery. */
  ghost predicate CanBeSent(b: Board, k: nat) {
    exists more :: k < |Run(b, more).deliveries| && Run(b, more).deliveries[k].state == Sent
  }

  /** A job that can no longer carry its delivery: of another kind, or ended without success. */
  predicate Lost(j: Job) {
    j.kind != ChannelDeliveryJob || j.state == JobFailed || j.state == JobCancelled
  }

  ghost predicate Stranded(b: Board, k: nat) {
    k < |b.deliveries| && b.deliveries[k].state == Pending
    && exists i :: Agrees(b.jobs, b.deliveries[k], i) && Lost(b.jobs[i])
  }

  // ----- a delivery whose job is lost never changes again -----

  lemma {:induction false} StepAdvancesJobs(b: Board, op: Op)
    requires Inv(b)
    ensures JobsAdvance(b.jobs, Step(b, op).jobs)
  {
    hide JobsUnique, DeliveriesUnique, AllAgree, FindJob, FindDelivery, FindDeliveryByKey, JobOf, JobKey,
         EnqueueJob, JobStep;
    var b' := Step(b, op);
    match op
    case SubmitOp(q) =>
      if b' != b {
        EnqueueAdvances(b.jobs, JobRequest(q.jobId, ChannelDeliveryJob, q.due, q.principal, q.maxAttempts, q.retries,
                                           Some(JobKey(q.id, q.key)), q.grant));
      }
    case CompleteOp(id, _, _, _) => SettledDelivery(b, id, b');
    case FailOp(id, _, _, _) => SettledDelivery(b, id, b');
    case _ => JobStepAdvances(b.jobs, op);
  }

  // A completion or failure changes at most the job of its delivery.
  lemma {:induction false} SettledDelivery(b: Board, id: string, b': Board)
    requires Inv(b)
    requires b'.jobs == b.jobs
          || (FindDelivery(b, id).Some? && JobOf(b, b.deliveries[FindDelivery(b, id).value]).Ok?
              && var i := FindJob(b.jobs, b.jobs[JobOf(b, b.deliveries[FindDelivery(b, id).value]).value].id);
                 && i.Some? && |b'.jobs| == |b.jobs| && b'.jobs == b.jobs[i.value := b'.jobs[i.value]]
                 && !Terminal(b.jobs[i.value].state)
                 && b'.jobs[i.value].id == b.jobs[i.value].id
                 && b'.jobs[i.value].kind == b.jobs[i.value].kind
                 && b'.jobs[i.value].key == b.jobs[i.value].key)
    ensures JobsAdvance(b.jobs, b'.jobs)
  {
    hide JobsUnique, DeliveriesUnique, AllAgree, FindJob, FindDelivery, JobOf;
    if b'.jobs != b.jobs {
      ChangeAdvances(b.jobs, b.jobs[JobOf(b, b.deliveries[FindDelivery(b, id).value]).value].id, b'.jobs);
    }
  }

  lemma {:induction false} StepKeepsStranded(b: Board, op: Op, k: nat)
    requires Inv(b) && Stranded(b, k)
    ensures Stranded(Step(b, op), k) && Step(b, op).deliveries[k] == b.deliveries[k]
  {
    hide JobsUnique, AllAgree, JobKey, EnqueueJob, JobStep, FindDeliveryByKey;
    var i :| Agrees(b.jobs, b.deliveries[k], i) && Lost(b.jobs[i]);
    StepAdvancesJobs(b, op);
    StrandedUntouched(b, op, k, i);
    assert Agrees(Step(b, op).jobs, b.deliveries[k], i);
  }

  lemma {:induction false} StrandedUntouched(b: Board, op: Op, k: nat, i: int)
    requires Inv(b) && k < |b.deliveries| && b.deliveries[k].state == Pending
    requires Agrees(b.jobs, b.deliveries[k], i) && Lost(b.jobs[i])
    ensures k < |Step(b, op).deliveries| && Step(b, op).deliveries[k] == b.deliveries[k]
  {
    hide AllAgree, JobKey, EnqueueJob, JobStep, FindDeliveryByKey, FindDelivery;
    JobRow(b, k);
    assert JobOf(b, b.deliveries[k]).value == i;
  }

  lemma {:induction false} StrandedStays(b: Board, ops: seq<Op>, k: nat)
    requires Inv(b) && Stranded(b, k)
    ensures k < |Run(b, ops).deliveries| && Run(b, ops).deliveries[k] == b.deliveries[k]
    decreases |ops|
  {
    hide Inv, Stranded, Step;
    if |ops| > 0 {
      StepKeepsInv(b, ops[0]);
      StepKeepsStranded(b, ops[0], k);
      StrandedStays(Step(b, ops[0]), ops[1..], k);
    } else {
      StrandedIndex(b, k);
    }
  }

  lemma {:induction false} StrandedIndex(b: Board, k: nat)
    requires Stranded(b, k)
    ensures k < |b.deliveries| && b.deliveries[k].state == Pending
  {
  }

  // ----- any other pending delivery can be sent -----

  const WORKER := Lease("worker", "token")

  /** The delivery is pending and carried by the job in row `i`. */
  ghost predicate Carries(b: Board, k: nat, i: nat) {
    && Inv(b) && k < |b.deliveries| && b.deliveries[k].state == Pending
    && Agrees(b.jobs, b.deliveries[k], i) && b.jobs[i].kind == ChannelDeliveryJob
  }

  lemma {:induction false} ExpireFrees(b: Board, k: nat, i: nat)
    requires Carries(b, k, i) && b.jobs[i].state == JobRunning
    ensures Carries(Step(b, ExpireOp(b.jobs[i].id)), k, i)
    ensures Step(b, ExpireOp(b.jobs[i].id)).jobs[i].state == JobReady
  {
    hide JobKey, DeliveriesUnique, AllAgree;
    StepKeepsInv(b, ExpireOp(b.jobs[i].id));
    assert FindJob(b.jobs, b.jobs[i].id) == Some(i);
  }

  lemma {:induction false} ClaimHolds(b: Board, k: nat, i: nat)
    requires Carries(b, k, i)
    requires b.jobs[i].state == JobPending || b.jobs[i].state == JobReady || b.jobs[i].state == JobRetry
    ensures Carries(Step(b, ClaimJobOp(b.jobs[i].id, WORKER)), k, i)
    ensures Holds(Step(b, ClaimJobOp(b.jobs[i].id, WORKER)).jobs[i], WORKER)
  {
    hide JobKey, DeliveriesUnique, AllAgree;
    StepKeepsInv(b, ClaimJobOp(b.jobs[i].id, WORKER));
    assert FindJob(b.jobs, b.jobs[i].id) == Some(i);
  }

  lemma {:induction false} CompleteSends(b: Board, k: nat, i: nat)
    requires Carries(b, k, i) && (b.jobs[i].state == JobSucceeded || Holds(b.jobs[i], WORKER))
    ensures var b' := Step(b, CompleteOp(b.deliveries[k].id, WORKER, 0, true));
            k < |b'.deliveries| && b'.deliveries[k].state == Sent
  {
    hide JobKey, AllAgree, JobsUnique, FindJob;
    assert FindDelivery(b, b.deliveries[k].id) == Some(k);
    assert FindJob(b.jobs, b.jobs[i].id) == Some(i) by { RowFound(b.jobs, i); }
    assert JobOf(b, b.deliveries[k]) == Ok(i);
  }

  lemma {:induction false} RowFound(jobs: seq<Job>, i: nat)
    requires JobsUnique(jobs) && i < |jobs|
    ensures FindJob(jobs, jobs[i].id) == Some(i)
  {
  }

  lemma {:induction false} ClaimedThenSent(b: Board, k: nat, i: nat) returns (more: seq<Op>)
    requires Carries(b, k, i)
    requires b.jobs[i].state == JobPending || b.jobs[i].state == JobReady || b.jobs[i].state == JobRetry
    ensures k < |Run(b, more).deliveries| && Run(b, more).deliveries[k].state == Sent
  {
    hide Carries, Holds, Step, Agrees;
    CarriesRow(b, k, i);
    var claim := ClaimJobOp(b.jobs[i].id, WORKER);
    ClaimHolds(b, k, i);
    var b1 := Step(b, claim);
    CarriesRow(b1, k, i);
    CompleteSends(b1, k, i);
    var complete := CompleteOp(b1.deliveries[k].id, WORKER, 0, true);
    more := [claim, complete];
    RunTwo(b, claim, complete);
  }

  lemma {:induction false} CarriesRow(b: Board, k: nat, i: nat)
    requires Carries(b, k, i)
    ensures k < |b.deliveries| && i < |b.jobs|
  {
  }

  lemma {:induction false} RunTwo(b: Board, x: Op, y: Op)
    ensures Run(b, [x]) == Step(b, x)
    ensures Run(b, [x, y]) == Step(Step(b, x), y)
  {
    hide Step;
    assert [x, y][1..] == [y] && [y][1..] == [] && [x][1..] == [];
    assert Run(Step(b, x), [y]) == Run(Step(Step(b, x), y), []);
  }

  lemma {:induction false} SentSomehow(b: Board, k: nat, i: nat) returns (more: seq<Op>)
    requires Carries(b, k, i) && !Lost(b.jobs[i])
    ensures k < |Run(b, more).deliveries| && Run(b, more).deliveries[k].state == Sent
  {
    hide Carries, Step, Agrees;
    CarriesRow(b, k, i);
    match b.jobs[i].state {
      case JobSucceeded =>
        CompleteSends(b, k, i);
        var complete := CompleteOp(b.deliveries[k].id, WORKER, 0, true);
        RunTwo(b, complete, complete);
        more := [complete];
      case JobRunning =>
        ExpireFrees(b, k, i);
        var expire := ExpireOp(b.jobs[i].id);
        var rest := ClaimedThenSent(Step(b, expire), k, i);
        more := [expire] + rest;
        assert more[1..] == rest;
      case _ =>
        more := ClaimedThenSent(b, k, i);
    }
  }

  /**
   In every reachable state: a pending delivery can still be sent exactly when its job is a
   channel delivery job that has neither failed nor been cancelled. Otherwise it stays as
   it is, pending, on every continuation, although its job has ended.
   */
  lemma {:induction false} CanBeSentIff(ops: seq<Op>, k: nat)
    requires k < |Run(EMPTY, ops).deliveries| && Run(EMPTY, ops).deliveries[k].state == Pending
    ensures var b := Run(EMPTY, ops);
            && JobOf(b, b.deliveries[k]).Ok?
            && (CanBeSent(b, k) <==> !Lost(b.jobs[JobOf(b, b.deliveries[k]).value]))
            && (!CanBeSent(b, k) ==>
                  forall more :: k < |Run(b, more).deliveries| && Run(b, more).deliveries[k] == b.deliveries[k])
  {
    hide Run, JobsUnique, DeliveriesUnique, AllAgree, Agrees, JobOf;
    EmptyInv();
    RunKeepsInv(EMPTY, ops);
    var b := Run(EMPTY, ops);
    JobRow(b, k);
    var i := JobOf(b, b.deliveries[k]).value;
    if Lost(b.jobs[i]) {
      assert Stranded(b, k);
      forall more ensures k < |Run(b, more).deliveries| && Run(b, more).deliveries[k] == b.deliveries[k] {
        StrandedStays(b, more, k);
      }
    } else {
      var more := SentSomehow(b, k, i);
      assert CanBeSent(b, k);
    }
  }

  // ----- runs that reach the odd cases -----

  function Submission(id: string, key: Option<string>): SubmitRequest {
    SubmitRequest(id, "connector", "kind", "channel", "principal", key, "job", true, 1, false, None, true)
  }

  function SubmittedJob(id: string, key: Option<string>): Job {
    Job("job", ChannelDeliveryJob, JobReady, None, 0, 1, false, Some(JobKey(id, key)), None)
  }

  lemma {:induction false} FirstSubmission(id: string, key: Option<string>)
    requires id != "" && key != Some("")
    ensures Step(EMPTY, SubmitOp(Submission(id, key)))
         == Board([Delivery(id, Pending, Some("job"), key, None)], [SubmittedJob(id, key)])
  {
    hide JobKey;
  }

  /** A job failed or cancelled through the scheduler leaves its delivery pending for good. */
  lemma {:induction false} StrandedExists(cancelled: bool)
    ensures exists ops ::
              var b := Run(EMPTY, ops);
              && |b.deliveries| == 1 && b.deliveries[0].state == Pending && |b.jobs| == 1
              && b.deliveries[0].job == Some(b.jobs[0].id)
              && b.jobs[0].state == (if cancelled then JobCancelled else JobFailed)
              && !CanBeSent(b, 0)
  {
    hide Run, CanBeSent, JobKey, Step;
    var submit, claim := SubmitOp(Submission("x", None)), ClaimJobOp("job", WORKER);
    var end := if cancelled then CancelJobOp("job", true) else FailJobOp("job", WORKER, true);
    FirstSubmission("x", None);
    var d := Delivery("x", Pending, Some("job"), None, None);
    var ended := JobEnds(d, SubmittedJob("x", None), cancelled);
    RunThree(EMPTY, submit, claim, end);
    assert Run(EMPTY, [submit, claim, end]) == Board([d], [ended]);
    assert JobOf(Board([d], [ended]), d) == Ok(0);
    CanBeSentIff([submit, claim, end], 0);
  }

  lemma {:induction false} JobEnds(d: Delivery, job: Job, cancelled: bool) returns (ended: Job)
    requires job.kind == ChannelDeliveryJob && job.state == JobReady && job.grant.None? && !job.retries
    ensures var end := if cancelled then CancelJobOp(job.id, true) else FailJobOp(job.id, WORKER, true);
            Step(Step(Board([d], [job]), ClaimJobOp(job.id, WORKER)), end) == Board([d], [ended])
    ensures ended.id == job.id && ended.state == if cancelled then JobCancelled else JobFailed
  {
    var running := job.(state := JobRunning, lease := Some(WORKER), attempt := job.attempt + 1);
    assert Step(Board([d], [job]), ClaimJobOp(job.id, WORKER)) == Board([d], [running]);
    ended := running.(state := if cancelled then JobCancelled else JobFailed, lease := None);
  }

  lemma {:induction false} RunThree(b: Board, x: Op, y: Op, z: Op)
    ensures Run(b, [x, y, z]) == Step(Step(Step(b, x), y), z)
  {
    hide Step;
    assert [x, y, z][1..] == [y, z];
    RunTwo(Step(b, x), y, z);
  }

  /** Two deliveries can share a job: the id of one is the idempotency key of the other. */
  lemma {:induction false} SharedJobExists()
    ensures exists ops ::
              var ds := Run(EMPTY, ops).deliveries;
              && |ds| == 2 && ds[0].id != ds[1].id && ds[0].job == ds[1].job && ds[0].job.Some?
              && ds[0].key == None && ds[1].key == Some(ds[0].id)
  {
    hide Run, JobKey;
    var one, two := SubmitOp(Submission("x", None)), SubmitOp(Submission("y", Some("x")));
    FirstSubmission("x", None);
    assert JobKey("x", None) == JobKey("y", Some("x")) by { SameTag(); }
    var b := Step(EMPTY, one);
    assert Find(b.jobs, (j: Job) => j.key == Some(JobKey("y", Some("x")))) == Some(0);
    RunTwo(EMPTY, one, two);
    assert Step(b, two).deliveries == b.deliveries + [Delivery("y", Pending, Some("job"), Some("x"), None)];
    assert Run(EMPTY, [one, two]).deliveries[1].key == Some("x");
  }

  lemma {:induction false} SameTag()
    ensures JobKey("x", None) == JobKey("y", Some("x"))
  {
  }
}
