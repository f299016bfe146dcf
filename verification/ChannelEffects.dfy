/**
 What each channel and scheduler transaction answers and writes, row by row, in every
 state whose keys are unique, as those of all runs are.
 */
module ChannelEffects {
  import opened Common
  import opened Tables
  import I = ChannelIntake
  import D = ChannelDelivery

  // ----- bindings -----

  predicate PutComplete(q: I.PutRequest) {
    && q.sender.connector != "" && q.sender.channel != "" && q.sender.identity != "" && q.kind != ""
    && q.principal != "" && q.id != "" && q.key != Some("")
  }

  /** Neither the key nor the sender of the request has a binding. */
  ghost predicate BindingFree(c: I.Channel, q: I.PutRequest) {
    forall i :: 0 <= i < |c.bindings| ==>
      c.bindings[i].sender != q.sender && !(q.key.Some? && c.bindings[i].key == q.key)
  }

  /** A new sender is bound, actively, to the principal of the request; nothing else changes. */
  lemma {:induction false} PutBinds(c: I.Channel, q: I.PutRequest)
    requires PutComplete(q) && q.capable && BindingFree(c, q)
    requires forall i :: 0 <= i < |c.bindings| ==> c.bindings[i].id != q.id
    ensures var (c', r) := I.PutBinding(c, q);
            && r.Ok? && r.value.BindingReceipt?
            && var b := r.value.binding;
               && b.id == q.id && b.sender == q.sender && b.kind == q.kind && b.principal == q.principal
               && b.active && b.key == q.key
               && c' == c.(bindings := c.bindings + [b])
  {
  }

  /**
   A binding found by the request's key, or else by its sender, is returned as it is if it
   names the same sender, kind and principal, and is a conflict otherwise.
   */
  lemma {:induction false} PutRepeats(c: I.Channel, q: I.PutRequest, i: nat)
    requires I.BindingsUnique(c.bindings) && PutComplete(q) && q.capable && i < |c.bindings|
    requires var b := c.bindings[i];
             || (q.key.Some? && b.key == q.key)
             || (b.sender == q.sender
                 && forall j :: 0 <= j < |c.bindings| ==> !(q.key.Some? && c.bindings[j].key == q.key))
    ensures var b := c.bindings[i];
            I.PutBinding(c, q)
            == (c, if b.sender == q.sender && b.kind == q.kind && b.principal == q.principal
                   then Ok(I.BindingReceipt(b)) else Err(I.BindingConflict))
  {
    var byKey := I.BindingByKey(c, q.key);
    if byKey.Some? {
      assert byKey.value == i;
    } else {
      assert I.BindingOf(c, q.sender) == Some(i);
    }
  }

  /** Revoking makes exactly this binding inactive. */
  lemma {:induction false} RevokeDeactivates(c: I.Channel, i: nat)
    requires I.BindingsUnique(c.bindings) && i < |c.bindings| && c.bindings[i].id != ""
    ensures var b := c.bindings[i];
            var (c', r) := I.RevokeBinding(c, b.id);
            && r == Ok(I.BindingReceipt(b.(active := false)))
            && c' == c.(bindings := c.bindings[i := b.(active := false)])
  {
    assert Find(c.bindings, (b: I.Binding) => b.id == c.bindings[i].id) == Some(i);
  }

  // ----- inbound events -----

  predicate IngestComplete(q: I.IngestRequest) {
    && q.sender.connector != "" && q.sender.channel != "" && q.sender.identity != "" && q.kind != ""
    && q.external != "" && q.id != "" && q.principal != Some("") && q.key != Some("")
  }

  ghost predicate InboundFree(c: I.Channel, q: I.IngestRequest) {
    forall i :: 0 <= i < |c.inbound| ==>
      && !(q.key.Some? && c.inbound[i].key == q.key)
      && !(c.inbound[i].sender.connector == q.sender.connector && c.inbound[i].sender.channel == q.sender.channel
           && c.inbound[i].external == q.external)
  }

  /** The principal of the sender's active binding, if it has one. */
  ghost predicate BoundTo(c: I.Channel, s: I.Sender, principal: Option<string>) {
    if principal.Some?
    then exists i :: 0 <= i < |c.bindings| && c.bindings[i].sender == s && c.bindings[i].active
                     && c.bindings[i].principal == principal.value
    else forall i :: 0 <= i < |c.bindings| ==> !(c.bindings[i].sender == s && c.bindings[i].active)
  }

  /**
   A new event is stored as received, under the principal the request names, or else under
   that of the sender's active binding.
   */
  lemma {:induction false} IngestStores(c: I.Channel, q: I.IngestRequest)
    requires IngestComplete(q) && q.capable && InboundFree(c, q)
    requires forall i :: 0 <= i < |c.inbound| ==> c.inbound[i].id != q.id
    ensures var (c', r) := I.Ingest(c, q);
            && r.Ok? && r.value.InboundReceipt?
            && var e := r.value.event;
               && e.id == q.id && e.sender == q.sender && e.external == q.external && e.key == q.key
               && e.state == I.Received
               && (if q.principal.Some? then e.principal == q.principal else BoundTo(c, q.sender, e.principal))
               && c' == c.(inbound := c.inbound + [e])
  {
    var active := Find(c.bindings, (b: I.Binding) => b.sender == q.sender && b.active);
    if active.Some? {
      assert c.bindings[active.value].sender == q.sender && c.bindings[active.value].active;
    }
  }

  /** An event known by the request's key, or else by its external id, is returned as it is. */
  lemma {:induction false} IngestRepeats(c: I.Channel, q: I.IngestRequest, i: nat)
    requires I.InboundUnique(c.inbound) && IngestComplete(q) && q.capable && i < |c.inbound|
    requires var e := c.inbound[i];
             || (q.key.Some? && e.key == q.key)
             || (I.SameExternal(e, q.sender, q.external)
                 && forall j :: 0 <= j < |c.inbound| ==> !(q.key.Some? && c.inbound[j].key == q.key))
    ensures I.Ingest(c, q) == (c, Ok(I.InboundReceipt(c.inbound[i])))
  {
    assert I.ExistingInbound(c, q) == Some(i);
  }

  /** A state update changes exactly this event's state. */
  lemma {:induction false} UpdateSetsState(c: I.Channel, i: nat, state: I.InboundState)
    requires I.InboundUnique(c.inbound) && i < |c.inbound| && c.inbound[i].id != ""
    ensures var e := c.inbound[i];
            var (c', r) := I.UpdateState(c, e.id, state);
            && r.Ok? && r.value.InboundReceipt?
            && r.value.event == e.(state := state)
            && c' == c.(inbound := c.inbound[i := e.(state := state)])
  {
    assert Find(c.inbound, (e: I.Inbound) => e.id == c.inbound[i].id) == Some(i);
  }

  // ----- projections -----

  ghost predicate ProjectionFree(c: I.Channel, q: I.ProjectRequest) {
    forall k :: 0 <= k < |c.projections| ==>
      && !(q.key.Some? && c.projections[k].key == q.key)
      && !(c.projections[k].inbound == q.inbound && c.projections[k].kind == q.kind)
  }

  /**
   A new projection whose target succeeds is stored as requested. Its action runs exactly
   when the kind is not to ignore, and the event, and no other, becomes projected or ignored
   accordingly.
   */
  lemma {:induction false} ProjectionRuns(c: I.Channel, q: I.ProjectRequest, i: nat)
    requires I.InboundUnique(c.inbound) && i < |c.inbound| && c.inbound[i].id == q.inbound
    requires q.inbound != "" && q.id != "" && q.key != Some("") && q.target.Some? && ProjectionFree(c, q)
    requires forall k :: 0 <= k < |c.projections| ==> c.projections[k].id != q.id
    ensures var (c', r) := I.Project(c, q);
            && r.Ok? && r.value.ProjectionReceipt?
            && var p := r.value.projection;
               && p.id == q.id && p.inbound == q.inbound && p.kind == q.kind && p.target == q.target.value
               && p.key == q.key
               && c'.projections == c.projections + [p]
               && c'.actions == (if q.kind.Ignored? then c.actions else c.actions + [(q.inbound, q.kind)])
               && c'.bindings == c.bindings
               && |c'.inbound| == |c.inbound|
               && (forall j :: 0 <= j < |c.inbound| && j != i ==> c'.inbound[j] == c.inbound[j])
               && c'.inbound[i] == c.inbound[i].(state := c'.inbound[i].state)
               && (c'.inbound[i].state == I.IgnoredState <==> q.kind.Ignored?)
               && (c'.inbound[i].state == I.ProjectedState <==> !q.kind.Ignored?)
  {
    assert Find(c.inbound, (e: I.Inbound) => e.id == q.inbound) == Some(i);
    assert I.ExistingProjection(c, q).None?;
  }

  /** A repeat returns the earlier projection and runs nothing. */
  lemma {:induction false} ProjectionRepeats(c: I.Channel, q: I.ProjectRequest, i: nat, k: nat)
    requires I.ProjectionsUnique(c.projections) && i < |c.inbound| && c.inbound[i].id == q.inbound
    requires q.inbound != "" && q.id != "" && q.key != Some("") && k < |c.projections|
    requires var p := c.projections[k];
             || (q.key.Some? && p.key == q.key)
             || (p.inbound == q.inbound && p.kind == q.kind
                 && forall j :: 0 <= j < |c.projections| ==> !(q.key.Some? && c.projections[j].key == q.key))
    ensures I.Project(c, q) == (c, Ok(I.ProjectionReceipt(c.projections[k])))
  {
    assert I.ExistingProjection(c, q) == Some(k);
  }

  /** A target that fails leaves no trace. */
  lemma {:induction false} ProjectionFails(c: I.Channel, q: I.ProjectRequest)
    requires q.target.None? && ProjectionFree(c, q)
    ensures I.Project(c, q).0 == c && I.Project(c, q).1.Err?
  {
  }

  // ----- jobs -----

  /** A new job waits until it is due, with no lease and no attempt; a known key returns its job. */
  lemma {:induction false} EnqueueStores(jobs: seq<D.Job>, q: D.JobRequest)
    requires q.principal != "" && q.maxAttempts > 0 && forall i :: 0 <= i < |jobs| ==> jobs[i].id != q.id
    requires forall i :: 0 <= i < |jobs| ==> !(q.key.Some? && jobs[i].key == q.key)
    ensures D.EnqueueJob(jobs, q).Ok?
    ensures var (jobs', j) := D.EnqueueJob(jobs, q).value;
            && jobs' == jobs + [j]
            && j.id == q.id && j.kind == q.kind && j.lease == None && j.attempt == 0
            && j.maxAttempts == q.maxAttempts && j.retries == q.retries && j.key == q.key && j.grant == q.grant
            && (j.state == D.JobReady <==> q.due) && (j.state == D.JobPending <==> !q.due)
  {
  }

  lemma {:induction false} EnqueueRepeats(jobs: seq<D.Job>, q: D.JobRequest, i: nat)
    requires q.principal != "" && q.maxAttempts > 0 && D.JobsUnique(jobs)
    requires i < |jobs| && q.key.Some? && jobs[i].key == q.key
    ensures D.EnqueueJob(jobs, q) == Ok((jobs, jobs[i]))
  {
    assert Find(jobs, (j: D.Job) => j.key == q.key) == Some(i);
  }

  /** Claiming takes a waiting job, counts the attempt and gives the lease; no other job is touched. */
  lemma {:induction false} ClaimTakes(jobs: seq<D.Job>, i: nat, lease: D.Lease)
    requires D.JobsUnique(jobs) && i < |jobs|
    ensures var waiting := jobs[i].state == D.JobPending || jobs[i].state == D.JobReady || jobs[i].state == D.JobRetry;
            D.ClaimJob(jobs, jobs[i].id, lease)
            == if waiting
               then jobs[i := jobs[i].(state := D.JobRunning, lease := Some(lease), attempt := jobs[i].attempt + 1)]
               else jobs
  {
    assert D.FindJob(jobs, jobs[i].id) == Some(i);
  }

  /** An expired lease makes a running job ready again. */
  lemma {:induction false} ExpiryFrees(jobs: seq<D.Job>, i: nat)
    requires D.JobsUnique(jobs) && i < |jobs|
    ensures D.ExpireLease(jobs, jobs[i].id)
         == if jobs[i].state == D.JobRunning then jobs[i := jobs[i].(state := D.JobReady, lease := None)] else jobs
  {
    assert D.FindJob(jobs, jobs[i].id) == Some(i);
  }

  /** The outcome of completing, failing or cancelling an ordinary job. */
  lemma {:induction false} JobsEnd(jobs: seq<D.Job>, i: nat, lease: D.Lease, charged: bool)
    requires D.JobsUnique(jobs) && i < |jobs| && (jobs[i].kind == D.ChannelDeliveryJob || jobs[i].kind == D.OtherJob)
    ensures var j := jobs[i];
            var held := j.state == D.JobRunning && j.lease == Some(lease);
            var refused := j.grant.Some? && !charged;
            var done := j.(state := D.JobSucceeded, lease := None);
            D.CompleteJob(jobs, j.id, lease, charged)
            == if j.state == D.JobSucceeded then Ok(Some((jobs, j)))
               else if !held then Ok(None)
               else if refused then Err(D.BudgetRefused)
               else Ok(Some((jobs[i := done], done)))
    ensures var j := jobs[i];
            var held := j.state == D.JobRunning && j.lease == Some(lease);
            var refused := j.grant.Some? && !charged;
            var spent := j.attempt >= j.maxAttempts || !j.retries;
            var next := j.(state := if spent then D.JobFailed else D.JobRetry, lease := None);
            D.FailJob(jobs, j.id, lease, charged)
            == if !held then Ok(None)
               else if spent && refused then Err(D.BudgetRefused)
               else Ok(Some((jobs[i := next], next)))
    ensures var j := jobs[i];
            var ended := j.state == D.JobSucceeded || j.state == D.JobFailed || j.state == D.JobCancelled;
            D.CancelJob(jobs, j.id, charged)
            == if ended || (j.grant.Some? && !charged) then jobs
               else jobs[i := j.(state := D.JobCancelled, lease := None)]
  {
    assert D.FindJob(jobs, jobs[i].id) == Some(i);
  }

  // ----- deliveries -----

  predicate SubmitComplete(q: D.SubmitRequest) {
    && q.connector != "" && q.kind != "" && q.channel != "" && q.principal != "" && q.id != "" && q.jobId != ""
    && q.key != Some("") && q.maxAttempts > 0
  }

  /** A new delivery is pending, on the job already enqueued under its key or on a new one of its own. */
  lemma {:induction false} SubmitStores(b: D.Board, q: D.SubmitRequest)
    requires D.Inv(b) && SubmitComplete(q) && q.capable
    requires forall k :: 0 <= k < |b.deliveries| ==>
               b.deliveries[k].id != q.id && !(q.key.Some? && b.deliveries[k].key == q.key)
    requires forall i :: 0 <= i < |b.jobs| ==> b.jobs[i].id != q.jobId
    ensures var (b', r) := D.Submit(b, q);
            && r.Ok? && r.value.Acknowledged?
            && var d, j := r.value.delivery, r.value.job;
               && b'.deliveries == b.deliveries + [d]
               && d.id == q.id && d.state == D.Pending && d.job == Some(j.id) && d.key == q.key && d.finishedAt == None
               && j.key == Some("channel.delivery:" + (if q.key.Some? then q.key.value else q.id) + ":job")
               && if exists i :: 0 <= i < |b.jobs| && b.jobs[i].key == j.key then b'.jobs == b.jobs && j in b.jobs
                  else
                    && b'.jobs == b.jobs + [j]
                    && j.id == q.jobId && j.kind == D.ChannelDeliveryJob && j.lease == None && j.attempt == 0
                    && j.maxAttempts == q.maxAttempts && j.retries == q.retries && j.grant == q.grant
                    && (j.state == D.JobReady <==> q.due) && (j.state == D.JobPending <==> !q.due)
  {
    hide D.Inv;
    var request := D.JobRequest(q.jobId, D.ChannelDeliveryJob, q.due, q.principal, q.maxAttempts, q.retries,
                                Some(D.JobKey(q.id, q.key)), q.grant);
    var existing := Find(b.jobs, (j: D.Job) => j.key == request.key);
    if existing.Some? {
      assert b.jobs[existing.value] in b.jobs;
    } else {
      EnqueueStores(b.jobs, request);
    }
  }

  /** A repeated key returns the delivery and its job as they are. */
  lemma {:induction false} SubmitRepeats(b: D.Board, q: D.SubmitRequest, k: nat, i: nat)
    requires D.Inv(b) && SubmitComplete(q) && q.capable
    requires k < |b.deliveries| && q.key.Some? && b.deliveries[k].key == q.key && D.Agrees(b.jobs, b.deliveries[k], i)
    ensures D.Submit(b, q) == (b, Ok(D.Acknowledged(b.deliveries[k], b.jobs[i])))
  {
    hide D.AllAgree, D.JobKey;
    assert D.FindDeliveryByKey(b, q.key) == Some(k);
    JobRowIs(b, k, i);
  }

  lemma {:induction false} JobRowIs(b: D.Board, k: nat, i: nat)
    requires D.Inv(b) && k < |b.deliveries| && D.Agrees(b.jobs, b.deliveries[k], i)
    ensures D.FindDelivery(b, b.deliveries[k].id) == Some(k)
    ensures D.JobOf(b, b.deliveries[k]) == Ok(i) && D.FindJob(b.jobs, b.jobs[i].id) == Some(i)
  {
    hide D.AllAgree, D.JobKey;
    D.JobRow(b, k);
  }

  /** The delivery is pending on a channel delivery job in row `i`, and the caller names a lease. */
  ghost predicate PendingOn(b: D.Board, k: nat, i: nat, lease: D.Lease) {
    && D.Inv(b) && k < |b.deliveries| && b.deliveries[k].state == D.Pending
    && D.Agrees(b.jobs, b.deliveries[k], i) && b.jobs[i].kind == D.ChannelDeliveryJob
    && lease.worker != "" && lease.token != ""
  }

  /**
   Failing a pending delivery: without the job's lease nothing happens. With it, the job is
   retried and the delivery stays pending while an attempt is left; otherwise job and
   delivery fail together, at the time of the call, unless the budget refuses.
   */
  lemma {:induction false} FailDecides(b: D.Board, k: nat, i: nat, lease: D.Lease, now: int, charged: bool)
    requires PendingOn(b, k, i, lease)
    ensures var d, j := b.deliveries[k], b.jobs[i];
            var (b', r) := D.Fail(b, d.id, lease, now, charged);
            var held := j.state == D.JobRunning && j.lease == Some(lease);
            var spent := j.attempt >= j.maxAttempts || !j.retries;
            if !held then (b', r) == (b, Ok(D.NoReceipt))
            else if !spent then
              && b'.deliveries == b.deliveries
              && b'.jobs == b.jobs[i := j.(state := D.JobRetry, lease := None)]
              && r == Ok(D.Acknowledged(d, b'.jobs[i]))
            else if j.grant.Some? && !charged then (b', r) == (b, Err(D.BudgetRefused))
            else
              && b'.deliveries == b.deliveries[k := d.(state := D.Failed, finishedAt := Some(now))]
              && b'.jobs == b.jobs[i := j.(state := D.JobFailed, lease := None)]
              && r == Ok(D.Acknowledged(b'.deliveries[k], b'.jobs[i]))
  {
    hide D.JobsUnique, D.DeliveriesUnique, D.AllAgree, D.JobKey, D.FindJob, D.FindDelivery, D.JobOf;
    JobRowIs(b, k, i);
    assert b.deliveries[k].finishedAt == None;
    assert b.deliveries[k := b.deliveries[k]] == b.deliveries;
  }

  /**
   Completing a pending delivery: it is sent if its job has succeeded already, or succeeds
   now because the caller holds it and the budget accepts.
   */
  lemma {:induction false} CompleteDecides(b: D.Board, k: nat, i: nat, lease: D.Lease, now: int, charged: bool)
    requires PendingOn(b, k, i, lease)
    ensures var d, j := b.deliveries[k], b.jobs[i];
            var (b', r) := D.Complete(b, d.id, lease, now, charged);
            var held := j.state == D.JobRunning && j.lease == Some(lease);
            if j.state != D.JobSucceeded && !held then (b', r) == (b, Ok(D.NoReceipt))
            else if held && j.grant.Some? && !charged then (b', r) == (b, Err(D.BudgetRefused))
            else
              && b'.deliveries == b.deliveries[k := d.(state := D.Sent, finishedAt := Some(now))]
              && b'.jobs == b.jobs[i := if held then j.(state := D.JobSucceeded, lease := None) else j]
              && r == Ok(D.Acknowledged(b'.deliveries[k], b'.jobs[i]))
  {
    hide D.JobsUnique, D.DeliveriesUnique, D.AllAgree, D.JobKey, D.FindJob, D.FindDelivery, D.JobOf;
    JobRowIs(b, k, i);
    assert b.jobs[i := b.jobs[i]] == b.jobs;
  }

  /** Repeating the call that finished a delivery returns it; the other call is refused. */
  lemma {:induction false} FinishedAnswers(b: D.Board, k: nat, i: nat, lease: D.Lease, now: int, charged: bool)
    requires D.Inv(b) && k < |b.deliveries| && b.deliveries[k].state != D.Pending
    requires D.Agrees(b.jobs, b.deliveries[k], i) && b.jobs[i].kind == D.ChannelDeliveryJob
    requires lease.worker != "" && lease.token != ""
    ensures var d := b.deliveries[k];
            var repeated := (b, Ok(D.Acknowledged(d, b.jobs[i])));
            var refused := (b, Err(D.WrongState));
            && D.Complete(b, d.id, lease, now, charged) == (if d.state == D.Sent then repeated else refused)
            && D.Fail(b, d.id, lease, now, charged) == (if d.state == D.Failed then repeated else refused)
  {
    hide D.JobsUnique, D.DeliveriesUnique, D.AllAgree, D.JobKey, D.FindJob, D.FindDelivery, D.JobOf;
    JobRowIs(b, k, i);
  }

  // ----- refusals -----

  /** A request with a missing part, or without the capability, is refused and changes nothing. */
  lemma {:induction false} IncompleteRefused(c: I.Channel, p: I.PutRequest, q: I.IngestRequest, b: D.Board,
                                             s: D.SubmitRequest)
    ensures !PutComplete(p) ==> I.PutBinding(c, p) == (c, Err(I.EmptyField))
    ensures PutComplete(p) && !p.capable ==> I.PutBinding(c, p) == (c, Err(I.NoCapability))
    ensures !IngestComplete(q) ==> I.Ingest(c, q) == (c, Err(I.EmptyField))
    ensures IngestComplete(q) && !q.capable ==> I.Ingest(c, q) == (c, Err(I.NoCapability))
    ensures !SubmitComplete(s) && s.maxAttempts > 0 ==> D.Submit(b, s) == (b, Err(D.EmptyField))
    ensures SubmitComplete(s) && !s.capable ==> D.Submit(b, s) == (b, Err(D.NoCapability))
  {
  }

  /** A new delivery whose job cannot be enqueued is not stored. */
  lemma {:induction false} UnenqueuedRefused(b: D.Board, q: D.SubmitRequest)
    requires forall k :: 0 <= k < |b.deliveries| ==>
               b.deliveries[k].id != q.id && !(q.key.Some? && b.deliveries[k].key == q.key)
    ensures q.maxAttempts <= 0 ==> D.Submit(b, q).0 == b && D.Submit(b, q).1.Err?
    ensures SubmitComplete(q) && q.capable && (exists i :: 0 <= i < |b.jobs| && b.jobs[i].id == q.jobId)
            && (forall i :: 0 <= i < |b.jobs| ==> b.jobs[i].key != Some(D.JobKey(q.id, q.key))) ==>
              D.Submit(b, q) == (b, Err(D.DuplicateId))
  {
    hide D.JobKey;
  }

  /** What is not there cannot be revoked, updated or projected. */
  lemma {:induction false} UnknownIntakeRefused(c: I.Channel, id: string, state: I.InboundState, q: I.ProjectRequest)
    ensures (forall i :: 0 <= i < |c.bindings| ==> c.bindings[i].id != id) ==>
              I.RevokeBinding(c, id).0 == c && I.RevokeBinding(c, id).1.Err?
    ensures (forall i :: 0 <= i < |c.inbound| ==> c.inbound[i].id != id) ==>
              I.UpdateState(c, id, state).0 == c && I.UpdateState(c, id, state).1.Err?
    ensures (forall i :: 0 <= i < |c.inbound| ==> c.inbound[i].id != q.inbound) ==>
              I.Project(c, q).0 == c && I.Project(c, q).1.Err?
  {
    hide I.ExistingProjection;
  }

  /** Nor completed or failed. */
  lemma {:induction false} UnknownDeliveryRefused(b: D.Board, id: string, lease: D.Lease, now: int, charged: bool)
    requires forall k :: 0 <= k < |b.deliveries| ==> b.deliveries[k].id != id
    ensures D.Complete(b, id, lease, now, charged).0 == b && D.Complete(b, id, lease, now, charged).1.Err?
    ensures D.Fail(b, id, lease, now, charged).0 == b && D.Fail(b, id, lease, now, charged).1.Err?
  {
  }
}
