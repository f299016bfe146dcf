/**
 What each budget transaction answers and leaves in the tables, for every ledger, in terms
 of plain sums over the rows: when a request is affordable, when usage still fits, and
 which rows and events are written.
 */
module BudgetEffects {
  import opened Common
  import opened BudgetAmounts
  import opened BudgetLedger
  import opened BudgetInvariants

  // ----- sums over rows -----

  /** What the scope's reserved grants ask for in one dimension. */
  function ReservedSum(grants: seq<Grant>, s: ScopeId, d: Dimension): int {
    if |grants| == 0 then 0
    else
      var g := grants[|grants| - 1];
      ReservedSum(grants[..|grants| - 1], s, d)
      + if g.scope == s && g.state == Reserved then g.requested.Value(d) else 0
  }

  /** What is recorded on the grant in one dimension. */
  function RecordedSum(entries: seq<Entry>, grant: string, d: Dimension): int {
    if |entries| == 0 then 0
    else
      var e := entries[|entries| - 1];
      RecordedSum(entries[..|entries| - 1], grant, d) + if e.grant == grant then e.usage.Value(d) else 0
  }

  /** What is charged to the scope in one dimension; nothing before its row exists. */
  function ChargedTo(l: Ledger, s: ScopeId, d: Dimension): int {
    if s in l.scopes then l.scopes[s].usage.Value(d) else 0
  }

  function Taken(l: Ledger, s: ScopeId, d: Dimension): int {
    ChargedTo(l, s, d) + ReservedSum(l.grants, s, d)
  }

  lemma {:induction false} ReservedSumIs(grants: seq<Grant>, s: ScopeId, d: Dimension)
    ensures ReservedTotal(grants, s).Value(d) == ReservedSum(grants, s, d)
    decreases |grants|
  {
    hide Add;
    if |grants| > 0 {
      var n := |grants| - 1;
      ReservedSumIs(grants[..n], s, d);
      assert ReservedShares(grants, s)[..n] == ReservedShares(grants[..n], s);
    }
  }

  lemma {:induction false} RecordedSumIs(entries: seq<Entry>, grant: string, d: Dimension)
    ensures UsageTotal(entries, grant).Value(d) == RecordedSum(entries, grant, d)
    decreases |entries|
  {
    hide Add;
    if |entries| > 0 {
      var n := |entries| - 1;
      RecordedSumIs(entries[..n], grant, d);
      assert UsageShares(entries, grant)[..n] == UsageShares(entries[..n], grant);
    }
  }

  lemma {:induction false} TakenIs(l: Ledger, s: ScopeId)
    requires s in l.scopes
    ensures forall d: Dimension :: Consumed(l, s).Value(d) == Taken(l, s, d)
  {
    hide Add, ReservedTotal, ReservedSum;
    forall d: Dimension ensures Consumed(l, s).Value(d) == Taken(l, s, d) { ReservedSumIs(l.grants, s, d); }
  }

  // ----- rows -----

  ghost predicate KeyFree(l: Ledger, s: ScopeId, key: string) {
    forall i :: 0 <= i < |l.grants| ==> !(l.grants[i].scope == s && l.grants[i].key == key)
  }

  ghost predicate GrantIdFree(l: Ledger, id: string) {
    forall i :: 0 <= i < |l.grants| ==> l.grants[i].id != id
  }

  /** The scope's row with another limit; a new row has nothing charged. */
  function Relimited(l: Ledger, s: ScopeId, limit: Amount): map<ScopeId, Scope> {
    l.scopes[s := Scope(limit, if s in l.scopes then l.scopes[s].usage else NOTHING)]
  }

  // ----- reservations -----

  /** Everything taken so far and the request together stay within every limit there is. */
  ghost predicate Affordable(l: Ledger, s: ScopeId, limit: Amount, requested: Amount) {
    forall d: Dimension :: limit.At(d).Some? ==> Taken(l, s, d) + requested.Value(d) <= limit.At(d).value
  }

  /** The grant that answers a new reservation. */
  ghost predicate Answers(g: Grant, q: ReserveRequest, id: string) {
    && g.id == id && g.scope == q.scope && g.principal == q.principal && g.reason == q.reason
    && g.requested == q.requested && g.key == q.key && g.expiresAt == q.expiresAt
    && g.state == Reserved && g.committed == None
  }

  /**
   A new reservation is granted exactly when it is affordable under the limit it carries;
   otherwise it is denied. Either way the limit is stored and one event is logged.
   */
  lemma {:induction false} ReserveDecides(l: Ledger, q: ReserveRequest, id: string)
    requires ValidAmount(q.limit) && ValidAmount(q.requested) && KeyFree(l, q.scope, q.key) && GrantIdFree(l, id)
    ensures var (l', r) := Reserve(l, q, id);
            && l'.scopes == Relimited(l, q.scope, q.limit) && l'.entries == l.entries
            && if Affordable(l, q.scope, q.limit, q.requested) then
                 && r.Ok? && r.value.GrantReceipt? && Answers(r.value.grant, q, id)
                 && l'.grants == l.grants + [r.value.grant]
                 && l'.log == l.log + [ReservedEvent(q.scope, id, q.requested, q.reason, None)]
               else
                 && r == Err(BudgetDenied)
                 && l'.grants == l.grants
                 && l'.log == l.log + [DeniedEvent(q.scope, q.reason, q.requested)]
  {
    hide ValidAmount, Consumed, FitsBudget, FindGrant, FindGrantByKey, ReservedSum;
    var l1 := SetLimit(l, q.scope, q.limit);
    TakenIs(l1, q.scope);
    assert forall d: Dimension :: Taken(l1, q.scope, d) == Taken(l, q.scope, d);
    assert FitsBudget(q.limit, Consumed(l1, q.scope), q.requested)
      <==> Affordable(l, q.scope, q.limit, q.requested) by {
      assert forall d: Dimension :: Admits(q.limit, d, Consumed(l1, q.scope).Value(d) + q.requested.Value(d)) <==>
        (q.limit.At(d).Some? ==> Taken(l, q.scope, d) + q.requested.Value(d) <= q.limit.At(d).value);
    }
    assert FindGrantByKey(l.grants, q.scope, q.key).None? && FindGrant(l.grants, id).None?;
  }

  /** The other answers: a taken key returns its grant and stores the limit; the rest changes nothing. */
  lemma {:induction false} ReserveOtherwise(l: Ledger, q: ReserveRequest, id: string)
    ensures !ValidAmount(q.limit) || !ValidAmount(q.requested) ==> Reserve(l, q, id) == (l, Err(InvalidAmount))
    ensures ValidAmount(q.limit) && ValidAmount(q.requested) && !KeyFree(l, q.scope, q.key) ==>
              var (l', r) := Reserve(l, q, id);
              && l' == l.(scopes := Relimited(l, q.scope, q.limit))
              && r.Ok? && r.value.GrantReceipt? && r.value.grant in l.grants
              && r.value.grant.scope == q.scope && r.value.grant.key == q.key
    ensures ValidAmount(q.limit) && ValidAmount(q.requested) && KeyFree(l, q.scope, q.key) && !GrantIdFree(l, id)
            && Affordable(l, q.scope, q.limit, q.requested) ==>
              Reserve(l, q, id) == (l, Err(DuplicateId))
  {
    hide ValidAmount, Consumed, FitsBudget, FindGrant, FindGrantByKey, ReservedSum;
    var l1 := SetLimit(l, q.scope, q.limit);
    TakenIs(l1, q.scope);
    assert forall d: Dimension :: Taken(l1, q.scope, d) == Taken(l, q.scope, d);
    if Affordable(l, q.scope, q.limit, q.requested) {
      assert forall d: Dimension :: Admits(q.limit, d, Consumed(l1, q.scope).Value(d) + q.requested.Value(d));
    }
  }

  // ----- objectives -----

  /** Some dimension is limited, and every limited one has room. */
  ghost predicate HasRoom(l: Ledger, s: ScopeId, limit: Amount) {
    && (exists d: Dimension :: limit.At(d).Some?)
    && (forall d: Dimension :: limit.At(d).Some? ==> Taken(l, s, d) < limit.At(d).value)
  }

  /** The whole room in every limited dimension, and nothing in the others. */
  ghost predicate WholeRoom(l: Ledger, s: ScopeId, limit: Amount, requested: Amount) {
    forall d: Dimension ::
      requested.At(d) == if limit.At(d).Some? then Some(limit.At(d).value - Taken(l, s, d)) else None
  }

  lemma {:induction false} RoomIs(l: Ledger, s: ScopeId, limit: Amount)
    requires s in l.scopes
    ensures RemainingBudget(limit, Consumed(l, s)).Some? <==> HasRoom(l, s, limit)
    ensures RemainingBudget(limit, Consumed(l, s)).Some? ==>
              WholeRoom(l, s, limit, RemainingBudget(limit, Consumed(l, s)).value)
  {
    hide Consumed, ReservedSum, RemainingBudget;
    TakenIs(l, s);
    RemainingBudgetMeaning(limit, Consumed(l, s));
    var rest := RemainingBudget(limit, Consumed(l, s));
    if rest.Some? {
      forall d: Dimension ensures
        rest.value.At(d) == if limit.At(d).Some? then Some(limit.At(d).value - Taken(l, s, d)) else None
      {
        assert limit.At(d).Some? ==> rest.value.Value(d) > 0;
      }
    }
  }

  ghost predicate LimitAgrees(l: Ledger, s: ScopeId, limit: Amount) {
    s in l.scopes ==> l.scopes[s].limit == limit
  }

  /** The scope rows after an objective call: a missing row is created with the limit. */
  function WithRow(l: Ledger, s: ScopeId, limit: Amount): map<ScopeId, Scope> {
    if s in l.scopes then l.scopes else l.scopes[s := Scope(limit, NOTHING)]
  }

  /**
   A new objective reservation is granted exactly when there is room, and then takes all of
   it; without room it returns no grant. A limit that does not match is refused.
   */
  lemma {:induction false} ObjectiveDecides(l: Ledger, q: ObjectiveRequest, id: string)
    requires ValidAmount(q.limit)
    ensures var s := ObjectiveScope(q.objective);
            var (l', r) := ReserveObjective(l, q, id);
            if !LimitAgrees(l, s, q.limit) then (l', r) == (l, Err(LimitMismatch))
            else if !KeyFree(l, s, q.key) then
              && l' == l.(scopes := WithRow(l, s, q.limit))
              && r.Ok? && r.value.GrantReceipt? && r.value.grant in l.grants
              && r.value.grant.scope == s && r.value.grant.key == q.key
            else if !HasRoom(l, s, q.limit) then (l', r) == (l.(scopes := WithRow(l, s, q.limit)), Ok(NoGrant))
            else if !GrantIdFree(l, id) then (l', r) == (l, Err(DuplicateId))
            else
              && r.Ok? && r.value.GrantReceipt?
              && var g := r.value.grant;
                 && g.id == id && g.scope == s && g.principal == q.principal && g.reason == "objective attempt"
                 && WholeRoom(l, s, q.limit, g.requested) && g.key == q.key && g.expiresAt == q.expiresAt
                 && g.state == Reserved && g.committed == None
                 && l' == Ledger(WithRow(l, s, q.limit), l.grants + [g], l.entries,
                                 l.log + [ReservedEvent(s, id, g.requested, "objective attempt", Some(q.objective))])
  {
    hide ValidAmount, Consumed, RemainingBudget, FindGrant, FindGrantByKey, ReservedSum, HasRoom, WholeRoom;
    var s := ObjectiveScope(q.objective);
    var l1 := if s in l.scopes then l else SetLimit(l, s, q.limit);
    assert l1 == l.(scopes := WithRow(l, s, q.limit));
    RoomIs(l1, s, q.limit);
    SameRoom(l, l1, s, q.limit);
  }

  lemma {:induction false} SameRoom(l: Ledger, l1: Ledger, s: ScopeId, limit: Amount)
    requires l1 == l.(scopes := WithRow(l, s, limit))
    ensures HasRoom(l1, s, limit) <==> HasRoom(l, s, limit)
    ensures forall a :: WholeRoom(l1, s, limit, a) <==> WholeRoom(l, s, limit, a)
  {
    hide ReservedSum;
    assert forall d: Dimension :: Taken(l1, s, d) == Taken(l, s, d);
  }

  /** The probe says whether there is room, also before the scope has a row. */
  lemma {:induction false} ProbeDecides(l: Ledger, objective: string, limit: Amount)
    requires Inv(l) && ValidAmount(limit)
    ensures var s := ObjectiveScope(objective);
            ObjectiveHasRemaining(l, objective, limit)
            == if LimitAgrees(l, s, limit) then Ok(HasRoom(l, s, limit)) else Err(LimitMismatch)
  {
    hide GrantsUnique, GrantsSound, EntriesSound, Balanced, MirrorsUsage, MirrorsGrants;
    hide ValidAmount, RemainingBudget, ReservedSum, HasRoom;
    var s := ObjectiveScope(objective);
    if s in l.scopes {
      RoomIs(l, s, limit);
    } else {
      var l1 := SetLimit(l, s, limit);
      NothingReservedYet(l, s);
      RoomIs(l1, s, limit);
      SameRoom(l, l1, s, limit);
      assert Consumed(l1, s) == NOTHING by { AddNothing(NOTHING); }
    }
  }

  lemma {:induction false} NothingReservedYet(l: Ledger, s: ScopeId)
    requires Inv(l) && s !in l.scopes
    ensures ReservedTotal(l.grants, s) == NOTHING
  {
    hide Inv;
    NoRowNoGrants(l, s);
    NothingCommitted(l.grants, s);
  }

  // ----- usage, commit, release -----

  /**
   New usage is recorded exactly on a reserved grant that still has it in every dimension;
   one entry is added and nothing else changes.
   */
  lemma {:induction false} RecordDecides(l: Ledger, q: UsageRequest, id: string, i: nat)
    requires ValidAmount(q.usage) && q.source != "" && q.sourceId != "" && q.key != ""
    requires GrantsUnique(l.grants) && i < |l.grants| && l.grants[i].id == q.grant
    requires forall k :: 0 <= k < |l.entries| ==> !(l.entries[k].grant == q.grant && l.entries[k].key == q.key)
    requires forall k :: 0 <= k < |l.entries| ==> l.entries[k].id != id
    ensures var (l', r) := RecordUsage(l, q, id);
            if l.grants[i].state != Reserved then (l', r) == (l, Err(NotReserved))
            else if exists d: Dimension ::
                      RecordedSum(l.entries, q.grant, d) + q.usage.Value(d) > l.grants[i].requested.Value(d)
              then (l', r) == (l, Err(BudgetDenied))
            else
              var e := Entry(id, q.grant, q.usage, q.source, q.sourceId, q.key);
              l' == l.(entries := l.entries + [e]) && r == Ok(EntryReceipt(e, true))
  {
    hide ValidAmount, UsageTotal, FitsReservedGrant, FindGrant, FindEntry, RecordedSum;
    FindUnique(l.grants, i);
    var used := UsageTotal(l.entries, q.grant);
    forall d: Dimension ensures used.Value(d) == RecordedSum(l.entries, q.grant, d) {
      RecordedSumIs(l.entries, q.grant, d);
    }
    assert FindEntry(l.entries, q.grant, q.key).None?;
  }

  /** The other answers of a record, none of which changes anything. */
  lemma {:induction false} RecordOtherwise(l: Ledger, q: UsageRequest, id: string)
    ensures !ValidAmount(q.usage) ==> RecordUsage(l, q, id) == (l, Err(InvalidAmount))
    ensures ValidAmount(q.usage) && (q.source == "" || q.sourceId == "" || q.key == "") ==>
              RecordUsage(l, q, id) == (l, Err(EmptyIdentity))
    ensures ValidAmount(q.usage) && q.source != "" && q.sourceId != "" && q.key != "" && GrantIdFree(l, q.grant)
            && (forall k :: 0 <= k < |l.entries| ==> l.entries[k].grant != q.grant) ==>
              RecordUsage(l, q, id) == (l, Err(NotFound))
  {
    hide ValidAmount, UsageTotal, FitsReservedGrant, FindGrant, FindEntry;
  }

  /** A repeated record returns the earlier entry, or is refused if it says something else. */
  lemma {:induction false} RecordRepeats(l: Ledger, q: UsageRequest, id: string, k: nat)
    requires ValidAmount(q.usage) && q.source != "" && q.sourceId != "" && q.key != "" && EntriesUnique(l.entries)
    requires k < |l.entries| && l.entries[k].grant == q.grant && l.entries[k].key == q.key
    ensures var e := l.entries[k];
            RecordUsage(l, q, id)
            == (l, if e.usage == q.usage && e.source == q.source && e.sourceId == q.sourceId
                   then Ok(EntryReceipt(e, false)) else Err(ConflictingEntry))
  {
    hide ValidAmount, UsageTotal, FitsReservedGrant, FindGrant;
    assert FindEntry(l.entries, q.grant, q.key) == Some(k);
  }

  ghost predicate EntriesUnique(entries: seq<Entry>) {
    forall i, j :: 0 <= i < j < |entries| ==>
      !(entries[i].grant == entries[j].grant && entries[i].key == entries[j].key)
  }

  /**
   A reserved grant is committed with what is recorded on it, which is charged to its scope,
   exactly when the limits allow; any other grant is returned as it is.
   */
  lemma {:induction false} CommitDecides(l: Ledger, i: nat)
    requires GrantsUnique(l.grants) && i < |l.grants| && l.grants[i].scope in l.scopes
    ensures var g, s := l.grants[i], l.scopes[l.grants[i].scope];
            var (l', r) := Commit(l, g.id);
            if g.state != Reserved then (l', r) == (l, Ok(GrantReceipt(g)))
            else if exists d: Dimension ::
                      s.limit.At(d).Some? && s.usage.Value(d) + RecordedSum(l.entries, g.id, d) > s.limit.At(d).value
              then (l', r) == (l, Err(BudgetDenied))
            else
              && l'.entries == l.entries
              && l'.scopes.Keys == l.scopes.Keys
              && (forall t :: t in l.scopes && t != g.scope ==> l'.scopes[t] == l.scopes[t])
              && l'.scopes[g.scope].limit == s.limit
              && |l'.grants| == |l.grants|
              && (forall j :: 0 <= j < |l.grants| && j != i ==> l'.grants[j] == l.grants[j])
              && l'.grants[i].committed.Some?
              && var used := l'.grants[i].committed.value;
                 && l'.grants[i] == g.(state := Committed, committed := Some(used))
                 && (forall d: Dimension :: used.Value(d) == RecordedSum(l.entries, g.id, d))
                 && (forall d: Dimension :: l'.scopes[g.scope].usage.Value(d) == s.usage.Value(d) + used.Value(d))
                 && l'.log == l.log + [CommittedEvent(g.scope, g.id, used)]
                 && r == Ok(GrantReceipt(l'.grants[i]))
  {
    hide UsageTotal, FitsBudget, FindGrant, RecordedSum, Add;
    var g := l.grants[i];
    FindUnique(l.grants, i);
    var used := UsageTotal(l.entries, g.id);
    forall d: Dimension ensures used.Value(d) == RecordedSum(l.entries, g.id, d) { RecordedSumIs(l.entries, g.id, d); }
    var s := l.scopes[g.scope];
    assert forall d: Dimension :: !Admits(s.limit, d, s.usage.Value(d) + used.Value(d)) <==>
      (s.limit.At(d).Some? && s.usage.Value(d) + RecordedSum(l.entries, g.id, d) > s.limit.At(d).value);
  }

  /** A reserved grant is released, which charges nothing; any other is returned as it is. */
  lemma {:induction false} ReleaseDecides(l: Ledger, i: nat)
    requires GrantsUnique(l.grants) && i < |l.grants|
    ensures var g := l.grants[i];
            var (l', r) := Release(l, g.id);
            if g.state != Reserved then (l', r) == (l, Ok(GrantReceipt(g)))
            else
              && l'.scopes == l.scopes && l'.entries == l.entries && |l'.grants| == |l.grants|
              && (forall j :: 0 <= j < |l.grants| && j != i ==> l'.grants[j] == l.grants[j])
              && l'.grants[i] == g.(state := Released)
              && l'.log == l.log + [ReleasedEvent(g.scope, g.id)]
              && r == Ok(GrantReceipt(l'.grants[i]))
  {
    FindUnique(l.grants, i);
  }

  /** An unknown grant is neither committed nor released. */
  lemma {:induction false} UnknownGrant(l: Ledger, id: string)
    requires GrantIdFree(l, id)
    ensures Commit(l, id) == (l, Ok(NoGrant)) && Release(l, id) == (l, Ok(NoGrant))
  {
  }
}
