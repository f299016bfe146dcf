/**
 The budget service: tables updated in place by one transaction at a time. Every
 transaction is proved to do to the tables, and to answer, exactly what the ledger
 functions say; the theorems about runs are about those functions.
 */
module BudgetService {
  import opened Common
  import opened BudgetAmounts
  import L = BudgetLedger
  import opened BudgetInvariants

  class Tables {
    var scopes: map<L.ScopeId, L.Scope>
    var grants: seq<L.Grant>
    var entries: seq<L.Entry>
    var log: seq<L.Event>

    function Value(): L.Ledger
      reads this
    {
      L.Ledger(scopes, grants, entries, log)
    }

    constructor ()
      ensures Value() == L.EMPTY && Inv(Value())
    {
      scopes, grants, entries, log := map[], [], [], [];
      new;
      EmptyInv();
    }

    /** Sum of the requests of a scope's reserved grants. */
    method ReservedBudget(scope: L.ScopeId) returns (total: Amount)
      ensures total == L.ReservedTotal(grants, scope)
    {
      total := NOTHING;
      ghost var shares := L.ReservedShares(grants, scope);
      for i := 0 to |grants|
        invariant total == Total(shares[..i])
      {
        assert shares[..i + 1][..i] == shares[..i];
        var row := grants[i];
        if row.scope == scope && row.state == L.Reserved {
          total := Add(total, row.requested);
        } else {
          AddNothing(total);
        }
      }
      assert shares[..|grants|] == shares;
    }

    /** Sum of the usage entries of a grant. */
    method BudgetUsageTotal(grant: string) returns (total: Amount)
      ensures total == L.UsageTotal(entries, grant)
    {
      total := NOTHING;
      ghost var shares := L.UsageShares(entries, grant);
      for i := 0 to |entries|
        invariant total == Total(shares[..i])
      {
        assert shares[..i + 1][..i] == shares[..i];
        if entries[i].grant == grant {
          total := Add(total, entries[i].usage);
        } else {
          AddNothing(total);
        }
      }
      assert shares[..|entries|] == shares;
    }

    method AppendEvent(e: L.Event)
      modifies `log
      ensures log == old(log) + [e]
    {
      log := log + [e];
    }

    method ReserveBudget(q: L.ReserveRequest, id: string) returns (r: L.Outcome)
      modifies this
      ensures (Value(), r) == L.Reserve(old(Value()), q, id)
      ensures old(Inv(Value())) ==> Inv(Value())
    {
      hide Inv, L.ReservedTotal, Add, FitsBudget, ValidAmount;
      if old(Inv(Value())) { ReserveKeepsInv(Value(), q, id); }
      if !ValidAmount(q.limit) || !ValidAmount(q.requested) {
        return Err(L.InvalidAmount);
      }
      var before := scopes;
      var usage := if q.scope in scopes then scopes[q.scope].usage else NOTHING;
      scopes := scopes[q.scope := L.Scope(q.limit, usage)];
      var existing := L.FindGrantByKey(grants, q.scope, q.key);
      if existing.Some? {
        return Ok(L.GrantReceipt(grants[existing.value]));
      }
      var scope := scopes[q.scope];
      var reserved := ReservedBudget(q.scope);
      if !FitsBudget(scope.limit, Add(scope.usage, reserved), q.requested) {
        AppendEvent(L.DeniedEvent(q.scope, q.reason, q.requested));
        return Err(L.BudgetDenied);
      }
      if L.FindGrant(grants, id).Some? {
        scopes := before;
        return Err(L.DuplicateId);
      }
      var grant := L.Grant(id, q.scope, q.principal, q.reason, q.requested, None, L.Reserved, q.key, q.expiresAt);
      grants := grants + [grant];
      AppendEvent(L.ReservedEvent(q.scope, id, q.requested, q.reason, None));
      return Ok(L.GrantReceipt(grant));
    }

    method ReserveRemainingObjectiveBudget(q: L.ObjectiveRequest, id: string) returns (r: L.Outcome)
      modifies this
      ensures (Value(), r) == L.ReserveObjective(old(Value()), q, id)
      ensures old(Inv(Value())) ==> Inv(Value())
    {
      hide Inv, L.ReservedTotal, Add, RemainingBudget, ValidAmount;
      if old(Inv(Value())) { ObjectiveKeepsInv(Value(), q, id); }
      if !ValidAmount(q.limit) {
        return Err(L.InvalidAmount);
      }
      var before := scopes;
      var scopeId := L.ObjectiveScope(q.objective);
      if scopeId !in scopes {
        scopes := scopes[scopeId := L.Scope(q.limit, NOTHING)];
      }
      var scope := scopes[scopeId];
      if scope.limit != q.limit {
        return Err(L.LimitMismatch);
      }
      var existing := L.FindGrantByKey(grants, scopeId, q.key);
      if existing.Some? {
        return Ok(L.GrantReceipt(grants[existing.value]));
      }
      var reserved := ReservedBudget(scopeId);
      var remaining := RemainingBudget(q.limit, Add(scope.usage, reserved));
      if remaining.None? {
        return Ok(L.NoGrant);
      }
      if L.FindGrant(grants, id).Some? {
        scopes := before;
        return Err(L.DuplicateId);
      }
      var grant := L.Grant(id, scopeId, q.principal, "objective attempt", remaining.value, None, L.Reserved, q.key,
                           q.expiresAt);
      grants := grants + [grant];
      AppendEvent(L.ReservedEvent(scopeId, id, remaining.value, "objective attempt", Some(q.objective)));
      return Ok(L.GrantReceipt(grant));
    }

    method ObjectiveBudgetHasRemaining(objective: string, limit: Amount) returns (r: Result<bool, L.Error>)
      ensures r == L.ObjectiveHasRemaining(Value(), objective, limit)
    {
      if !ValidAmount(limit) {
        return Err(L.InvalidAmount);
      }
      var scopeId := L.ObjectiveScope(objective);
      if scopeId !in scopes {
        return Ok(RemainingBudget(limit, NOTHING).Some?);
      }
      if scopes[scopeId].limit != limit {
        return Err(L.LimitMismatch);
      }
      var reserved := ReservedBudget(scopeId);
      return Ok(RemainingBudget(limit, Add(scopes[scopeId].usage, reserved)).Some?);
    }

    method RecordBudgetUsage(q: L.UsageRequest, id: string) returns (r: L.Outcome)
      modifies `entries
      ensures (Value(), r) == L.RecordUsage(old(Value()), q, id)
      ensures old(Inv(Value())) ==> Inv(Value())
    {
      hide Inv, L.UsageTotal, FitsReservedGrant, ValidAmount;
      if old(Inv(Value())) { RecordKeepsInv(Value(), q, id); }
      if !ValidAmount(q.usage) {
        return Err(L.InvalidAmount);
      }
      if q.source == "" || q.sourceId == "" || q.key == "" {
        return Err(L.EmptyIdentity);
      }
      var existing := L.FindEntry(entries, q.grant, q.key);
      if existing.Some? {
        var entry := entries[existing.value];
        if entry.usage != q.usage || entry.source != q.source || entry.sourceId != q.sourceId {
          return Err(L.ConflictingEntry);
        }
        return Ok(L.EntryReceipt(entry, false));
      }
      var found := L.FindGrant(grants, q.grant);
      if found.None? {
        return Err(L.NotFound);
      }
      var grant := grants[found.value];
      if grant.state != L.Reserved {
        return Err(L.NotReserved);
      }
      var used := BudgetUsageTotal(grant.id);
      if !FitsReservedGrant(grant.requested, used, q.usage) {
        return Err(L.BudgetDenied);
      }
      if L.EntryIdTaken(entries, id) {
        return Err(L.DuplicateId);
      }
      var entry := L.Entry(id, q.grant, q.usage, q.source, q.sourceId, q.key);
      entries := entries + [entry];
      return Ok(L.EntryReceipt(entry, true));
    }

    method CommitBudgetGrant(grantId: string) returns (r: L.Outcome)
      modifies `scopes, `grants, `log
      ensures (Value(), r) == L.Commit(old(Value()), grantId)
      ensures old(Inv(Value())) ==> Inv(Value())
    {
      hide Inv, L.UsageTotal, FitsBudget, Add;
      if old(Inv(Value())) { StepKeepsInv(Value(), L.CommitOp(grantId)); }
      var found := L.FindGrant(grants, grantId);
      if found.None? {
        return Ok(L.NoGrant);
      }
      var grant := grants[found.value];
      if grant.state != L.Reserved {
        return Ok(L.GrantReceipt(grant));
      }
      var usage := BudgetUsageTotal(grant.id);
      if grant.scope !in scopes {
        return Err(L.NotFound);
      }
      var scope := scopes[grant.scope];
      if !FitsBudget(scope.limit, scope.usage, usage) {
        return Err(L.BudgetDenied);
      }
      scopes := scopes[grant.scope := scope.(usage := Add(scope.usage, usage))];
      grants := grants[found.value := grant.(state := L.Committed, committed := Some(usage))];
      AppendEvent(L.CommittedEvent(grant.scope, grantId, usage));
      return Ok(L.GrantReceipt(grants[found.value]));
    }

    method ReleaseBudget(grantId: string) returns (r: L.Outcome)
      modifies `grants, `log
      ensures (Value(), r) == L.Release(old(Value()), grantId)
      ensures old(Inv(Value())) ==> Inv(Value())
    {
      hide Inv;
      if old(Inv(Value())) { StepKeepsInv(Value(), L.ReleaseOp(grantId)); }
      var found := L.FindGrant(grants, grantId);
      if found.None? {
        return Ok(L.NoGrant);
      }
      var grant := grants[found.value];
      if grant.state == L.Reserved {
        grants := grants[found.value := grant.(state := L.Released)];
        AppendEvent(L.ReleasedEvent(grant.scope, grantId));
      }
      return Ok(L.GrantReceipt(grants[found.value]));
    }
  }
}
