/** The channel service's tables, updated in place by one transaction at a time. */
module ChannelService {
  import opened Common
  import opened Tables
  import I = ChannelIntake
  import D = ChannelDelivery

  class IntakeTables {
    var bindings: seq<I.Binding>
    var inbound: seq<I.Inbound>
    var projections: seq<I.Projection>
    var actions: seq<(string, I.TargetKind)>

    function Value(): I.Channel
      reads this
    {
      I.Channel(bindings, inbound, projections, actions)
    }

    constructor ()
      ensures Value() == I.EMPTY && I.Inv(Value())
    {
      bindings, inbound, projections, actions := [], [], [], [];
    }

    method PutChannelBinding(q: I.PutRequest) returns (r: I.Outcome)
      modifies `bindings
      ensures (Value(), r) == I.PutBinding(old(Value()), q)
      ensures old(I.Inv(Value())) ==> I.Inv(Value())
    {
      hide I.Inv;
      if old(I.Inv(Value())) { I.PutKeepsInv(Value(), q); }
      if !I.SenderGiven(q.sender) || q.kind == "" || q.principal == "" || q.id == "" || q.key == Some("") {
        return Err(I.EmptyField);
      }
      if !q.capable {
        return Err(I.NoCapability);
      }
      var existing := I.BindingByKey(Value(), q.key);
      if existing.None? {
        existing := I.BindingOf(Value(), q.sender);
      }
      if existing.Some? {
        var record := bindings[existing.value];
        if !I.Agrees(record, q) {
          return Err(I.BindingConflict);
        }
        return Ok(I.BindingReceipt(record));
      }
      if Find(bindings, (b: I.Binding) => b.id == q.id).Some? {
        return Err(I.DuplicateId);
      }
      var binding := I.Binding(q.id, q.sender, q.kind, q.principal, true, q.key);
      bindings := bindings + [binding];
      return Ok(I.BindingReceipt(binding));
    }

    method RevokeChannelBinding(id: string) returns (r: I.Outcome)
      modifies `bindings
      ensures (Value(), r) == I.RevokeBinding(old(Value()), id)
      ensures old(I.Inv(Value())) ==> I.Inv(Value())
    {
      hide I.Inv;
      if old(I.Inv(Value())) { I.StepKeepsInv(Value(), I.RevokeOp(id)); }
      if id == "" {
        return Err(I.EmptyField);
      }
      var found := Find(bindings, (b: I.Binding) => b.id == id);
      if found.None? {
        return Err(I.NotFound);
      }
      bindings := bindings[found.value := bindings[found.value].(active := false)];
      return Ok(I.BindingReceipt(bindings[found.value]));
    }

    method IngestChannelInboundEvent(q: I.IngestRequest) returns (r: I.Outcome)
      modifies `inbound
      ensures (Value(), r) == I.Ingest(old(Value()), q)
      ensures old(I.Inv(Value())) ==> I.Inv(Value())
    {
      hide I.Inv;
      if old(I.Inv(Value())) { I.IngestKeepsInv(Value(), q); }
      if !I.SenderGiven(q.sender) || q.kind == "" || q.external == "" || q.id == ""
         || q.principal == Some("") || q.key == Some("") {
        return Err(I.EmptyField);
      }
      if !q.capable {
        return Err(I.NoCapability);
      }
      var existing := I.ExistingInbound(Value(), q);
      if existing.Some? {
        return Ok(I.InboundReceipt(inbound[existing.value]));
      }
      if Find(inbound, (e: I.Inbound) => e.id == q.id).Some? {
        return Err(I.DuplicateId);
      }
      var principal := q.principal;
      if principal.None? {
        principal := I.ActivePrincipal(Value(), q.sender);
      }
      var event := I.Inbound(q.id, q.sender, q.external, principal, I.Received, q.key);
      inbound := inbound + [event];
      return Ok(I.InboundReceipt(event));
    }

    method UpdateChannelInboundEventState(id: string, state: I.InboundState) returns (r: I.Outcome)
      modifies `inbound
      ensures (Value(), r) == I.UpdateState(old(Value()), id, state)
      ensures old(I.Inv(Value())) ==> I.Inv(Value())
    {
      hide I.Inv;
      if old(I.Inv(Value())) { I.StepKeepsInv(Value(), I.UpdateOp(id, state)); }
      if id == "" {
        return Err(I.EmptyField);
      }
      var found := Find(inbound, (e: I.Inbound) => e.id == id);
      if found.None? {
        return Err(I.NotFound);
      }
      inbound := inbound[found.value := inbound[found.value].(state := state)];
      return Ok(I.InboundReceipt(inbound[found.value]));
    }

    method ProjectChannelInboundEvent(q: I.ProjectRequest) returns (r: I.Outcome)
      modifies `inbound, `projections, `actions
      ensures (Value(), r) == I.Project(old(Value()), q)
      ensures old(I.Inv(Value())) ==> I.Inv(Value())
    {
      hide I.Inv;
      if old(I.Inv(Value())) { I.ProjectKeepsInv(Value(), q); }
      if q.inbound == "" || q.id == "" || q.key == Some("") {
        return Err(I.EmptyField);
      }
      var found := Find(inbound, (e: I.Inbound) => e.id == q.inbound);
      if found.None? {
        return Err(I.NotFound);
      }
      var existing := I.ExistingProjection(Value(), q);
      if existing.Some? {
        return Ok(I.ProjectionReceipt(projections[existing.value]));
      }
      if q.target.None? {
        return Err(I.TargetFailed);
      }
      if Find(projections, (p: I.Projection) => p.id == q.id).Some? {
        return Err(I.DuplicateId);
      }
      if q.kind != I.Ignored {
        actions := actions + [(q.inbound, q.kind)];
      }
      var projection := I.Projection(q.id, q.inbound, q.kind, q.target.value, q.key);
      projections := projections + [projection];
      var state := if q.kind == I.Ignored then I.IgnoredState else I.ProjectedState;
      inbound := inbound[found.value := inbound[found.value].(state := state)];
      return Ok(I.ProjectionReceipt(projection));
    }
  }

  class DeliveryTables {
    var deliveries: seq<D.Delivery>
    var jobs: seq<D.Job>

    function Value(): D.Board
      reads this
    {
      D.Board(deliveries, jobs)
    }

    constructor ()
      ensures Value() == D.EMPTY && D.Inv(Value())
    {
      deliveries, jobs := [], [];
    }

    method SubmitChannelDelivery(q: D.SubmitRequest) returns (r: D.Outcome)
      modifies this
      ensures (Value(), r) == D.Submit(old(Value()), q)
      ensures old(D.Inv(Value())) ==> D.Inv(Value())
    {
      hide D.Inv, D.JobKey, D.EnqueueJob;
      if old(D.Inv(Value())) { D.SubmitKeepsInv(Value(), q); }
      if q.connector == "" || q.kind == "" || q.channel == "" || q.principal == "" || q.id == "" || q.jobId == ""
         || q.key == Some("") {
        return Err(D.EmptyField);
      }
      if !q.capable {
        return Err(D.NoCapability);
      }
      var existing := D.FindDeliveryByKey(Value(), q.key);
      if existing.Some? {
        var job := D.JobOf(Value(), deliveries[existing.value]);
        if job.Err? {
          return Err(job.error);
        }
        return Ok(D.Acknowledged(deliveries[existing.value], jobs[job.value]));
      }
      if D.FindDelivery(Value(), q.id).Some? {
        return Err(D.DuplicateId);
      }
      var before := deliveries;
      deliveries := deliveries + [D.Delivery(q.id, D.Pending, None, q.key, None)];
      var request := D.JobRequest(q.jobId, D.ChannelDeliveryJob, q.due, q.principal, q.maxAttempts, q.retries,
                                  Some(D.JobKey(q.id, q.key)), q.grant);
      var enqueued := D.EnqueueJob(jobs, request);
      if enqueued.Err? {
        deliveries := before;
        return Err(enqueued.error);
      }
      jobs := enqueued.value.0;
      var job := enqueued.value.1;
      deliveries := deliveries[|before| := deliveries[|before|].(job := Some(job.id))];
      assert deliveries == before + [D.Delivery(q.id, D.Pending, Some(job.id), q.key, None)];
      return Ok(D.Acknowledged(deliveries[|before|], job));
    }

    method CompleteChannelDelivery(id: string, lease: D.Lease, now: int, charged: bool) returns (r: D.Outcome)
      modifies this
      ensures (Value(), r) == D.Complete(old(Value()), id, lease, now, charged)
      ensures old(D.Inv(Value())) ==> D.Inv(Value())
    {
      hide D.Inv, D.CompleteJob;
      if old(D.Inv(Value())) { D.CompleteKeepsInv(Value(), id, lease, now, charged); }
      if id == "" || lease.worker == "" || lease.token == "" {
        return Err(D.EmptyField);
      }
      var found := D.FindDelivery(Value(), id);
      if found.None? {
        return Err(D.NotFound);
      }
      var delivery := deliveries[found.value];
      var row := D.JobOf(Value(), delivery);
      if row.Err? {
        return Err(row.error);
      }
      var job := jobs[row.value];
      if job.kind != D.ChannelDeliveryJob {
        return Err(D.WrongKind);
      }
      if delivery.state == D.Sent && job.state == D.JobSucceeded {
        return Ok(D.Acknowledged(delivery, job));
      }
      if delivery.state != D.Pending {
        return Err(D.WrongState);
      }
      var completed := D.CompleteJob(jobs, job.id, lease, charged);
      if completed.Err? {
        return Err(completed.error);
      }
      if completed.value.None? {
        return Ok(D.NoReceipt);
      }
      jobs := completed.value.value.0;
      deliveries := deliveries[found.value := delivery.(state := D.Sent, finishedAt := Some(now))];
      return Ok(D.Acknowledged(deliveries[found.value], completed.value.value.1));
    }

    method FailChannelDelivery(id: string, lease: D.Lease, now: int, charged: bool) returns (r: D.Outcome)
      modifies this
      ensures (Value(), r) == D.Fail(old(Value()), id, lease, now, charged)
      ensures old(D.Inv(Value())) ==> D.Inv(Value())
    {
      hide D.Inv, D.FailJob;
      if old(D.Inv(Value())) { D.FailKeepsInv(Value(), id, lease, now, charged); }
      if id == "" || lease.worker == "" || lease.token == "" {
        return Err(D.EmptyField);
      }
      var found := D.FindDelivery(Value(), id);
      if found.None? {
        return Err(D.NotFound);
      }
      var delivery := deliveries[found.value];
      var row := D.JobOf(Value(), delivery);
      if row.Err? {
        return Err(row.error);
      }
      var job := jobs[row.value];
      if job.kind != D.ChannelDeliveryJob {
        return Err(D.WrongKind);
      }
      if delivery.state == D.Failed && job.state == D.JobFailed {
        return Ok(D.Acknowledged(delivery, job));
      }
      if delivery.state != D.Pending {
        return Err(D.WrongState);
      }
      var failed := D.FailJob(jobs, job.id, lease, charged);
      if failed.Err? {
        return Err(failed.error);
      }
      if failed.value.None? {
        return Ok(D.NoReceipt);
      }
      var next := failed.value.value.1;
      jobs := failed.value.value.0;
      if next.state == D.JobFailed {
        delivery := delivery.(state := D.Failed, finishedAt := Some(now));
      } else {
        delivery := delivery.(finishedAt := None);
      }
      deliveries := deliveries[found.value := delivery];
      return Ok(D.Acknowledged(delivery, next));
    }
  }
}
