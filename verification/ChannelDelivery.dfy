/** Channel deliveries and the scheduler jobs that carry them. */
module ChannelDelivery {
  import opened Common
  import opened Tables

  datatype JobKind = ChannelDeliveryJob | SessionTurnJob | TeamJob | OtherJob
  datatype JobState = JobPending | JobReady | JobRunning | JobRetry | JobSucceeded | JobFailed | JobCancelled
  datatype Lease = Lease(worker: string, token: string)

  datatype Job = Job(
    id: string,
    kind: JobKind,
    state: JobState,
    lease: Option<Lease>,
    attempt: nat,
    maxAttempts: int,
    retries: bool,
    key: Option<string>,
    grant: Option<string>)

  datatype DeliveryState = Pending | Sent | Failed

  datatype Delivery = Delivery(
    id: string,
    state: DeliveryState,
    job: Option<string>,
    key: Option<string>,
    finishedAt: Option<int>)

  datatype Board = Board(deliveries: seq<Delivery>, jobs: seq<Job>)

  const EMPTY := Board([], [])

  datatype Error = EmptyField | NoCapability | NotFound | MissingJob | DuplicateId | InvalidJob | WrongKind | WrongState
                 | BudgetRefused
  datatype Receipt = NoReceipt | Acknowledged(delivery: Delivery, job: Job) | JobReceipt(item: Job)
  type Outcome = Result<Receipt, Error>

  datatype JobRequest = JobRequest(
    id: string,
    kind: JobKind,
    due: bool,
    principal: string,
    maxAttempts: int,
    retries: bool,
    key: Option<string>,
    grant: Option<string>)

  datatype SubmitRequest = SubmitRequest(
    id: string,
    connector: string,
    kind: string,
    channel: string,
    principal: string,
    key: Option<string>,
    jobId: string,
    due: bool,
    maxAttempts: int,
    retries: bool,
    grant: Option<string>,
    capable: bool)

  // ----- scheduler -----

  function FindJob(jobs: seq<Job>, id: string): (r: Option<nat>)
    ensures r.Some? ==> r.value < |jobs| && jobs[r.value].id == id
    ensures r.None? ==> forall i :: 0 <= i < |jobs| ==> jobs[i].id != id
  {
    Find(jobs, (j: Job) => j.id == id)
  }

  predicate Terminal(s: JobState) {
    s == JobSucceeded || s == JobFailed || s == JobCancelled
  }

  /** Enqueues a job, or returns the one already enqueued under its idempotency key. */
  function EnqueueJob(jobs: seq<Job>, q: JobRequest): Result<(seq<Job>, Job), Error> {
    if q.principal == "" || q.maxAttempts <= 0 then Err(InvalidJob)
    else
      var existing := if q.key.None? then None else Find(jobs, (j: Job) => j.key == q.key);
      if existing.Some? then Ok((jobs, jobs[existing.value]))
      else if FindJob(jobs, q.id).Some? then Err(DuplicateId)
      else
        var job := Job(q.id, q.kind, if q.due then JobReady else JobPending, None, 0, q.maxAttempts, q.retries, q.key,
                       q.grant);
        Ok((jobs + [job], job))
  }

  predicate Holds(j: Job, lease: Lease) {
    j.state == JobRunning && j.lease == Some(lease)
  }

  /** A job that ends commits its budget grant; `charged` is whether that commit is accepted. */
  predicate Settles(j: Job, charged: bool) {
    j.grant.Some? ==> charged
  }

  /**
   None when the caller does not hold the job; a job that has succeeded is returned as it
   is; a refused budget commit undoes the completion.
   */
  function CompleteJob(jobs: seq<Job>, id: string, lease: Lease, charged: bool)
    : Result<Option<(seq<Job>, Job)>, Error>
  {
    match FindJob(jobs, id)
    case None => Ok(None)
    case Some(i) =>
      var j := jobs[i];
      if j.kind == SessionTurnJob || j.kind == TeamJob then Err(InvalidJob)
      else if j.state == JobSucceeded then Ok(Some((jobs, j)))
      else if !Holds(j, lease) then Ok(None)
      else if !Settles(j, charged) then Err(BudgetRefused)
      else
        var done := j.(state := JobSucceeded, lease := None);
        Ok(Some((jobs[i := done], done)))
  }

  /** Schedules a retry, which charges nothing, or ends the job, which commits its grant. */
  function FailJob(jobs: seq<Job>, id: string, lease: Lease, charged: bool)
    : Result<Option<(seq<Job>, Job)>, Error>
  {
    match FindJob(jobs, id)
    case None => Ok(None)
    case Some(i) =>
      var j := jobs[i];
      var retry := j.attempt < j.maxAttempts && j.retries;
      if !Holds(j, lease) || j.kind == SessionTurnJob then Ok(None)
      else if !retry && !Settles(j, charged) then Err(BudgetRefused)
      else
        var next := j.(state := if retry then JobRetry else JobFailed, lease := None);
        Ok(Some((jobs[i := next], next)))
  }

  function ClaimJob(jobs: seq<Job>, id: string, lease: Lease): seq<Job> {
    match FindJob(jobs, id)
    case None => jobs
    case Some(i) =>
      var j := jobs[i];
      if j.state == JobPending || j.state == JobReady || j.state == JobRetry
      then jobs[i := j.(state := JobRunning, lease := Some(lease), attempt := j.attempt + 1)]
      else jobs
  }

  function ExpireLease(jobs: seq<Job>, id: string): seq<Job> {
    match FindJob(jobs, id)
    case None => jobs
    case Some(i) => if jobs[i].state == JobRunning then jobs[i := jobs[i].(state := JobReady, lease := None)] else jobs
  }

  function CancelJob(jobs: seq<Job>, id: string, charged: bool): seq<Job> {
    match FindJob(jobs, id)
    case None => jobs
    case Some(i) =>
      if jobs[i].kind == SessionTurnJob || Terminal(jobs[i].state) || !Settles(jobs[i], charged) then jobs
      else jobs[i := jobs[i].(state := JobCancelled, lease := None)]
  }

  // ----- deliveries -----

  function Tag(id: string, key: Option<string>): string {
    key.GetOr(id)
  }

  function JobKey(id: string, key: Option<string>): string {
    "channel.delivery:" + Tag(id, key) + ":job"
  }

  function FindDelivery(b: Board, id: string): (r: Option<nat>)
    ensures r.Some? ==> r.value < |b.deliveries| && b.deliveries[r.value].id == id
    ensures r.None? ==> forall i :: 0 <= i < |b.deliveries| ==> b.deliveries[i].id != id
  {
    Find(b.deliveries, (d: Delivery) => d.id == id)
  }

  function FindDeliveryByKey(b: Board, key: Option<string>): (r: Option<nat>)
    ensures r.Some? ==> r.value < |b.deliveries| && b.deliveries[r.value].key == key
    ensures r.None? && key.Some? ==> forall i :: 0 <= i < |b.deliveries| ==> b.deliveries[i].key != key
  {
    if key.None? then None else Find(b.deliveries, (d: Delivery) => d.key == key)
  }

  /** The job of a delivery, or the error of a delivery without one. */
  function JobOf(b: Board, d: Delivery): (r: Result<nat, Error>)
    ensures r.Ok? ==> r.value < |b.jobs| && d.job == Some(b.jobs[r.value].id)
  {
    if d.job.None? then Err(MissingJob)
    else
      match FindJob(b.jobs, d.job.value)
      case None => Err(NotFound)
      case Some(i) => Ok(i)
  }

  function Submit(b: Board, q: SubmitRequest): (Board, Outcome) {
    if q.connector == "" || q.kind == "" || q.channel == "" || q.principal == "" || q.id == "" || q.jobId == ""
       || q.key == Some("")
    then (b, Err(EmptyField))
    else if !q.capable then (b, Err(NoCapability))
    else
      match FindDeliveryByKey(b, q.key)
      case Some(i) =>
        var d := b.deliveries[i];
        (match JobOf(b, d)
         case Err(e) => (b, Err(e))
         case Ok(j) => (b, Ok(Acknowledged(d, b.jobs[j]))))
      case None =>
        if FindDelivery(b, q.id).Some? then (b, Err(DuplicateId))
        else
          var request := JobRequest(q.jobId, ChannelDeliveryJob, q.due, q.principal, q.maxAttempts, q.retries,
                                    Some(JobKey(q.id, q.key)), q.grant);
          match EnqueueJob(b.jobs, request)
          case Err(e) => (b, Err(e))
          case Ok((jobs, job)) =>
            var d := Delivery(q.id, Pending, Some(job.id), q.key, None);
            (Board(b.deliveries + [d], jobs), Ok(Acknowledged(d, job)))
  }

  function Complete(b: Board, id: string, lease: Lease, now: int, charged: bool): (Board, Outcome) {
    if id == "" || lease.worker == "" || lease.token == "" then (b, Err(EmptyField))
    else
      match FindDelivery(b, id)
      case None => (b, Err(NotFound))
      case Some(i) =>
        var d := b.deliveries[i];
        match JobOf(b, d)
        case Err(e) => (b, Err(e))
        case Ok(j) =>
          var job := b.jobs[j];
          if job.kind != ChannelDeliveryJob then (b, Err(WrongKind))
          else if d.state == Sent && job.state == JobSucceeded then (b, Ok(Acknowledged(d, job)))
          else if d.state != Pending then (b, Err(WrongState))
          else
            match CompleteJob(b.jobs, job.id, lease, charged)
            case Err(e) => (b, Err(e))
            case Ok(None) => (b, Ok(NoReceipt))
            case Ok(Some((jobs, done))) =>
              var sent := d.(state := Sent, finishedAt := Some(now));
              (Board(b.deliveries[i := sent], jobs), Ok(Acknowledged(sent, done)))
  }

  function Fail(b: Board, id: string, lease: Lease, now: int, charged: bool): (Board, Outcome) {
    if id == "" || lease.worker == "" || lease.token == "" then (b, Err(EmptyField))
    else
      match FindDelivery(b, id)
      case None => (b, Err(NotFound))
      case Some(i) =>
        var d := b.deliveries[i];
        match JobOf(b, d)
        case Err(e) => (b, Err(e))
        case Ok(j) =>
          var job := b.jobs[j];
          if job.kind != ChannelDeliveryJob then (b, Err(WrongKind))
          else if d.state == Failed && job.state == JobFailed then (b, Ok(Acknowledged(d, job)))
          else if d.state != Pending then (b, Err(WrongState))
          else
            match FailJob(b.jobs, job.id, lease, charged)
            case Err(e) => (b, Err(e))
            case Ok(None) => (b, Ok(NoReceipt))
            case Ok(Some((jobs, next))) =>
              var terminal := next.state == JobFailed;
              var d' := d.(state := if terminal then Failed else Pending,
                           finishedAt := if terminal then Some(now) else None);
              (Board(b.deliveries[i := d'], jobs), Ok(Acknowledged(d', next)))
  }

  // ----- runs: deliveries and every other user of the scheduler -----

  datatype Op =
    | SubmitOp(submit: SubmitRequest)
    | CompleteOp(id: string, lease: Lease, now: int, charged: bool)
    | FailOp(id: string, lease: Lease, now: int, charged: bool)
    | EnqueueJobOp(job: JobRequest)
    | ClaimJobOp(id: string, lease: Lease)
    | CompleteJobOp(id: string, lease: Lease, charged: bool)
    | FailJobOp(id: string, lease: Lease, charged: bool)
    | CancelJobOp(id: string, charged: bool)
    | ExpireOp(id: string)

  /** What a direct call of the scheduler does to the jobs. */
  function JobStep(jobs: seq<Job>, op: Op): seq<Job> {
    match op
    case EnqueueJobOp(q) => (match EnqueueJob(jobs, q) case Ok((more, _)) => more case Err(_) => jobs)
    case ClaimJobOp(id, lease) => ClaimJob(jobs, id, lease)
    case CompleteJobOp(id, lease, charged) =>
      (match CompleteJob(jobs, id, lease, charged) case Ok(Some((next, _))) => next case _ => jobs)
    case FailJobOp(id, lease, charged) =>
      (match FailJob(jobs, id, lease, charged) case Ok(Some((next, _))) => next case _ => jobs)
    case CancelJobOp(id, charged) => CancelJob(jobs, id, charged)
    case ExpireOp(id) => ExpireLease(jobs, id)
    case _ => jobs
  }

  function Step(b: Board, op: Op): Board {
    match op
    case SubmitOp(q) => Submit(b, q).0
    case CompleteOp(id, lease, now, charged) => Complete(b, id, lease, now, charged).0
    case FailOp(id, lease, now, charged) => Fail(b, id, lease, now, charged).0
    case _ => b.(jobs := JobStep(b.jobs, op))
  }

  function Run(b: Board, ops: seq<Op>): Board
    decreases |ops|
  {
    if |ops| == 0 then b else Run(Step(b, ops[0]), ops[1..])
  }

  // ----- the invariant -----

  ghost predicate JobsUnique(jobs: seq<Job>) {
    forall i, j :: 0 <= i < j < |jobs| ==>
      jobs[i].id != jobs[j].id && !(jobs[i].key.Some? && jobs[i].key == jobs[j].key)
  }

  ghost predicate DeliveriesUnique(deliveries: seq<Delivery>) {
    forall i, j :: 0 <= i < j < |deliveries| ==>
      deliveries[i].id != deliveries[j].id && !(deliveries[i].key.Some? && deliveries[i].key == deliveries[j].key)
  }

  /** Jobs stay, keep their identity, and never leave a terminal state. */
  ghost predicate JobsAdvance(jobs: seq<Job>, jobs': seq<Job>) {
    && |jobs| <= |jobs'|
    && forall i :: 0 <= i < |jobs| ==>
         && jobs'[i].id == jobs[i].id && jobs'[i].kind == jobs[i].kind && jobs'[i].key == jobs[i].key
         && (Terminal(jobs[i].state) ==> jobs'[i].state == jobs[i].state)
  }

  /** The delivery's job exists under the delivery's key and agrees with its state. */
  ghost predicate Agrees(jobs: seq<Job>, d: Delivery, i: int) {
    && 0 <= i < |jobs|
    && d.id != ""
    && d.job == Some(jobs[i].id)
    && jobs[i].key == Some(JobKey(d.id, d.key))
    && (d.state == Sent ==> jobs[i].state == JobSucceeded)
    && (d.state == Failed ==> jobs[i].state == JobFailed)
    && (d.finishedAt.Some? <==> d.state != Pending)
  }

  ghost predicate HasJob(jobs: seq<Job>, d: Delivery) {
    exists i :: Agrees(jobs, d, i)
  }

  ghost predicate AllAgree(jobs: seq<Job>, deliveries: seq<Delivery>) {
    forall k :: 0 <= k < |deliveries| ==> HasJob(jobs, deliveries[k])
  }

  ghost predicate Inv(b: Board) {
    JobsUnique(b.jobs) && DeliveriesUnique(b.deliveries) && AllAgree(b.jobs, b.deliveries)
  }

  lemma {:induction false} EnqueueAdvances(jobs: seq<Job>, q: JobRequest)
    requires JobsUnique(jobs) && EnqueueJob(jobs, q).Ok?
    ensures var (jobs', job) := EnqueueJob(jobs, q).value;
            && JobsUnique(jobs') && JobsAdvance(jobs, jobs')
            && (q.key.Some? ==> job.key == q.key)
            && exists i :: 0 <= i < |jobs'| && jobs'[i] == job
  {
    var (jobs', job) := EnqueueJob(jobs, q).value;
    if jobs' != jobs { assert jobs'[|jobs|] == job; }
  }

  lemma {:induction false} UpdateAdvances(jobs: seq<Job>, i: nat, j: Job)
    requires JobsUnique(jobs) && i < |jobs| && !Terminal(jobs[i].state)
    requires j.id == jobs[i].id && j.kind == jobs[i].kind && j.key == jobs[i].key
    ensures JobsUnique(jobs[i := j]) && JobsAdvance(jobs, jobs[i := j])
  {
  }

  lemma {:induction false} JobStepAdvances(jobs: seq<Job>, op: Op)
    requires JobsUnique(jobs)
    ensures JobsUnique(JobStep(jobs, op)) && JobsAdvance(jobs, JobStep(jobs, op))
  {
    hide JobsUnique, FindJob, EnqueueJob;
    match op
    case EnqueueJobOp(q) => if EnqueueJob(jobs, q).Ok? { EnqueueAdvances(jobs, q); }
    case ClaimJobOp(id, lease) => ChangeAdvances(jobs, id, JobStep(jobs, op));
    case CompleteJobOp(id, lease, _) => ChangeAdvances(jobs, id, JobStep(jobs, op));
    case FailJobOp(id, lease, _) => ChangeAdvances(jobs, id, JobStep(jobs, op));
    case CancelJobOp(id, _) => ChangeAdvances(jobs, id, JobStep(jobs, op));
    case ExpireOp(id) => ChangeAdvances(jobs, id, JobStep(jobs, op));
    case _ =>
  }

  // No change, or one change to a job that is not terminal.
  lemma {:induction false} ChangeAdvances(jobs: seq<Job>, id: string, jobs': seq<Job>)
    requires JobsUnique(jobs)
    requires jobs' == jobs || (FindJob(jobs, id).Some? && var i := FindJob(jobs, id).value;
               && |jobs'| == |jobs| && jobs' == jobs[i := jobs'[i]]
               && !Terminal(jobs[i].state)
               && jobs'[i].id == jobs[i].id && jobs'[i].kind == jobs[i].kind && jobs'[i].key == jobs[i].key)
    ensures JobsUnique(jobs') && JobsAdvance(jobs, jobs')
  {
    if jobs' != jobs {
      var i := FindJob(jobs, id).value;
      UpdateAdvances(jobs, i, jobs'[i]);
    }
  }

  lemma {:induction false} AgreementStays(jobs: seq<Job>, jobs': seq<Job>, deliveries: seq<Delivery>)
    requires AllAgree(jobs, deliveries) && JobsAdvance(jobs, jobs')
    ensures AllAgree(jobs', deliveries)
  {
    hide JobKey;
    forall k | 0 <= k < |deliveries| ensures HasJob(jobs', deliveries[k]) {
      assert HasJob(jobs, deliveries[k]);
      var i :| Agrees(jobs, deliveries[k], i);
      assert Agrees(jobs', deliveries[k], i);
    }
  }

  lemma {:induction false} ChangedDelivery(jobs: seq<Job>, deliveries: seq<Delivery>, k: nat, d: Delivery, i: nat)
    requires DeliveriesUnique(deliveries) && AllAgree(jobs, deliveries) && k < |deliveries|
    requires d.id == deliveries[k].id && d.key == deliveries[k].key && Agrees(jobs, d, i)
    ensures DeliveriesUnique(deliveries[k := d]) && AllAgree(jobs, deliveries[k := d])
  {
    hide Agrees;
    var deliveries' := deliveries[k := d];
    forall n | 0 <= n < |deliveries'| ensures HasJob(jobs, deliveries'[n]) {
      if n != k { assert HasJob(jobs, deliveries[n]); }
    }
  }

  lemma {:induction false} SubmitKeepsInv(b: Board, q: SubmitRequest)
    requires Inv(b)
    ensures Inv(Submit(b, q).0)
  {
    hide JobsUnique, EnqueueJob, JobKey, Agrees, FindDelivery, FindDeliveryByKey, JobOf;
    var b' := Submit(b, q).0;
    if b' != b {
      var request := JobRequest(q.jobId, ChannelDeliveryJob, q.due, q.principal, q.maxAttempts, q.retries,
                                Some(JobKey(q.id, q.key)), q.grant);
      EnqueueAdvances(b.jobs, request);
      AgreementStays(b.jobs, b'.jobs, b.deliveries);
      var (jobs, job) := EnqueueJob(b.jobs, request).value;
      var i :| 0 <= i < |jobs| && jobs[i] == job;
      var d := b'.deliveries[|b.deliveries|];
      NewDeliveryAgrees(jobs, d, i);
      forall k | 0 <= k < |b'.deliveries| ensures HasJob(b'.jobs, b'.deliveries[k]) {
        if k < |b.deliveries| { assert b'.deliveries[k] == b.deliveries[k]; }
      }
    }
  }

  lemma {:induction false} NewDeliveryAgrees(jobs: seq<Job>, d: Delivery, i: nat)
    requires i < |jobs| && d.job == Some(jobs[i].id) && jobs[i].key == Some(JobKey(d.id, d.key))
    requires d.id != "" && d.state == Pending && d.finishedAt == None
    ensures Agrees(jobs, d, i)
  {
  }

  // The row a lookup by job id finds is the row the delivery agrees with.
  lemma {:induction false} JobRow(b: Board, k: nat)
    requires Inv(b) && k < |b.deliveries|
    ensures JobOf(b, b.deliveries[k]).Ok? && Agrees(b.jobs, b.deliveries[k], JobOf(b, b.deliveries[k]).value)
    ensures FindJob(b.jobs, b.jobs[JobOf(b, b.deliveries[k]).value].id) == Some(JobOf(b, b.deliveries[k]).value)
  {
    hide JobKey;
    var d := b.deliveries[k];
    assert HasJob(b.jobs, d);
    var i :| Agrees(b.jobs, d, i);
    assert JobOf(b, d).Ok?;
  }

  lemma {:induction false} CompleteKeepsInv(b: Board, id: string, lease: Lease, now: int, charged: bool)
    requires Inv(b)
    ensures Inv(Complete(b, id, lease, now, charged).0)
  {
    hide JobsUnique, DeliveriesUnique, AllAgree, FindJob, FindDelivery, JobOf, JobKey;
    var b' := Complete(b, id, lease, now, charged).0;
    var r := FindDelivery(b, id);
    if b' != b {
      var k := r.value;
      JobRow(b, k);
      var j := JobOf(b, b.deliveries[k]).value;
      ChangeAdvances(b.jobs, b.jobs[j].id, b'.jobs);
      AgreementStays(b.jobs, b'.jobs, b.deliveries);
      ChangedDelivery(b'.jobs, b.deliveries, k, b'.deliveries[k], j);
    }
  }

  lemma {:induction false} FailKeepsInv(b: Board, id: string, lease: Lease, now: int, charged: bool)
    requires Inv(b)
    ensures Inv(Fail(b, id, lease, now, charged).0)
  {
    hide JobsUnique, DeliveriesUnique, AllAgree, FindJob, FindDelivery, JobOf, JobKey;
    var b' := Fail(b, id, lease, now, charged).0;
    var r := FindDelivery(b, id);
    if b' != b {
      var k := r.value;
      JobRow(b, k);
      var j := JobOf(b, b.deliveries[k]).value;
      ChangeAdvances(b.jobs, b.jobs[j].id, b'.jobs);
      AgreementStays(b.jobs, b'.jobs, b.deliveries);
      ChangedDelivery(b'.jobs, b.deliveries, k, b'.deliveries[k], j);
    }
  }

  lemma {:induction false} StepKeepsInv(b: Board, op: Op)
    requires Inv(b)
    ensures Inv(Step(b, op))
  {
    hide JobsUnique, DeliveriesUnique, AllAgree, Submit, Complete, Fail, JobStep;
    match op
    case SubmitOp(q) => SubmitKeepsInv(b, q);
    case CompleteOp(id, lease, now, charged) => CompleteKeepsInv(b, id, lease, now, charged);
    case FailOp(id, lease, now, charged) => FailKeepsInv(b, id, lease, now, charged);
    case _ =>
      JobStepAdvances(b.jobs, op);
      AgreementStays(b.jobs, JobStep(b.jobs, op), b.deliveries);
  }

  lemma {:induction false} RunKeepsInv(b: Board, ops: seq<Op>)
    requires Inv(b)
    ensures Inv(Run(b, ops))
    decreases |ops|
  {
    hide Inv, Step;
    if |ops| > 0 {
      StepKeepsInv(b, ops[0]);
      RunKeepsInv(Step(b, ops[0]), ops[1..]);
    }
  }

  // ----- agreement and finality on every run -----

  /**
   Agreement: every delivery has a job; a sent delivery's job has succeeded, a failed
   delivery's job has failed, and a delivery is finished exactly when it is one of these.
   */
  lemma {:induction false} DeliveriesAgreeWithJobs(ops: seq<Op>)
    ensures var b := Run(EMPTY, ops);
            forall k :: 0 <= k < |b.deliveries| ==> HasJob(b.jobs, b.deliveries[k])
  {
    hide Run, HasJob;
    EmptyInv();
    RunKeepsInv(EMPTY, ops);
  }

  lemma {:induction false} EmptyInv()
    ensures Inv(EMPTY)
  {
  }

  lemma {:induction false} StepKeepsFinal(b: Board, op: Op, k: nat)
    requires k < |b.deliveries| && b.deliveries[k].state != Pending
    ensures k < |Step(b, op).deliveries| && Step(b, op).deliveries[k] == b.deliveries[k]
  {
    hide EnqueueJob, CompleteJob, FailJob, JobStep, JobKey, JobOf, FindDeliveryByKey;
  }

  /** A sent or failed delivery never changes again. */
  lemma {:induction false} FinalDeliveriesStay(b: Board, ops: seq<Op>, k: nat)
    requires k < |b.deliveries| && b.deliveries[k].state != Pending
    ensures k < |Run(b, ops).deliveries| && Run(b, ops).deliveries[k] == b.deliveries[k]
    decreases |ops|
  {
    hide Step;
    if |ops| > 0 {
      StepKeepsFinal(b, ops[0], k);
      FinalDeliveriesStay(Step(b, ops[0]), ops[1..], k);
    }
  }

  lemma {:induction false} SameJobKey(a: Delivery, b: Delivery)
    ensures JobKey(a.id, a.key) == JobKey(b.id, b.key) <==> Tag(a.id, a.key) == Tag(b.id, b.key)
  {
    var x, y := JobKey(a.id, a.key), JobKey(b.id, b.key);
    var n := |"channel.delivery:"|;
    assert x[n..|x| - 4] == Tag(a.id, a.key) && y[n..|y| - 4] == Tag(b.id, b.key);
  }

  /**
   Two deliveries share a job exactly when one was submitted without an idempotency key
   and its id is the other's idempotency key.
   */
  lemma {:induction false} SharedJobIff(ops: seq<Op>, k: nat, n: nat)
    requires k < n < |Run(EMPTY, ops).deliveries|
    ensures var a, b := Run(EMPTY, ops).deliveries[k], Run(EMPTY, ops).deliveries[n];
            a.job == b.job <==> (a.key.None? && b.key == Some(a.id)) || (b.key.None? && a.key == Some(b.id))
  {
    hide Run, JobKey;
    EmptyInv();
    RunKeepsInv(EMPTY, ops);
    var r := Run(EMPTY, ops);
    var a, b := r.deliveries[k], r.deliveries[n];
    assert HasJob(r.jobs, a) && HasJob(r.jobs, b);
    var i :| Agrees(r.jobs, a, i);
    var j :| Agrees(r.jobs, b, j);
    SameJobKey(a, b);
    assert a.job == b.job <==> i == j;
    assert i == j <==> JobKey(a.id, a.key) == JobKey(b.id, b.key);
  }
}
