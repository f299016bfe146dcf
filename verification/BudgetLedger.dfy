/**
 The budget ledger as a value: the scope, grant, usage-entry and event tables,
 and what each transaction does to them. Rows of a table are kept in insertion
 order. Generated identifiers are arguments; an identifier that is already a
 primary key makes the insert fail and rolls the transaction back.
 */
module BudgetLedger {
  import opened Common
  import opened BudgetAmounts
  import opened Tables

  datatype ScopeKind = Session | Turn | Objective | TeamRound | Plugin | Principal | ProviderModel
  datatype WindowKind = RunWindow | SessionWindow | DayWindow | MonthWindow

  // The stored identifier is a digest of these three components.
  datatype ScopeId = ScopeId(kind: ScopeKind, owner: string, window: WindowKind)

  datatype Scope = Scope(limit: Amount, usage: Amount)

  datatype GrantState = Reserved | Committed | Released

  datatype Grant = Grant(
    id: string,
    scope: ScopeId,
    principal: string,
    reason: string,
    requested: Amount,
    committed: Option<Amount>,
    state: GrantState,
    key: string,
    expiresAt: Option<int>)

  datatype Entry = Entry(id: string, grant: string, usage: Amount, source: string, sourceId: string, key: string)

  datatype Event =
    | ReservedEvent(scope: ScopeId, grant: string, requested: Amount, reason: string, objective: Option<string>)
    | DeniedEvent(scope: ScopeId, reason: string, requested: Amount)
    | CommittedEvent(scope: ScopeId, grant: string, usage: Amount)
    | ReleasedEvent(scope: ScopeId, grant: string)

  datatype Ledger = Ledger(
    scopes: map<ScopeId, Scope>,
    grants: seq<Grant>,
    entries: seq<Entry>,
    log: seq<Event>)

  const EMPTY := Ledger(map[], [], [], [])

  datatype Error = InvalidAmount | EmptyIdentity | ConflictingEntry | NotReserved | NotFound | LimitMismatch
                 | BudgetDenied | DuplicateId

  datatype Receipt = GrantReceipt(grant: Grant) | NoGrant | EntryReceipt(entry: Entry, created: bool)

  type Outcome = Result<Receipt, Error>

  datatype ReserveRequest = ReserveRequest(
    scope: ScopeId,
    limit: Amount,
    requested: Amount,
    principal: string,
    reason: string,
    key: string,
    expiresAt: Option<int>)

  datatype ObjectiveRequest = ObjectiveRequest(
    objective: string,
    principal: string,
    limit: Amount,
    key: string,
    expiresAt: Option<int>)

  datatype UsageRequest = UsageRequest(grant: string, usage: Amount, source: string, sourceId: string, key: string)

  // ----- lookups -----

  function FindGrant(grants: seq<Grant>, id: string): (r: Option<nat>)
    ensures r.Some? ==> r.value < |grants| && grants[r.value].id == id
    ensures r.None? ==> forall i :: 0 <= i < |grants| ==> grants[i].id != id
  {
    Find(grants, (g: Grant) => g.id == id)
  }

  function FindGrantByKey(grants: seq<Grant>, scope: ScopeId, key: string): (r: Option<nat>)
    ensures r.Some? ==> r.value < |grants| && grants[r.value].scope == scope && grants[r.value].key == key
    ensures r.None? ==> forall i :: 0 <= i < |grants| ==> !(grants[i].scope == scope && grants[i].key == key)
  {
    Find(grants, (g: Grant) => g.scope == scope && g.key == key)
  }

  function FindEntry(entries: seq<Entry>, grant: string, key: string): (r: Option<nat>)
    ensures r.Some? ==> r.value < |entries| && entries[r.value].grant == grant && entries[r.value].key == key
    ensures r.None? ==> forall i :: 0 <= i < |entries| ==> !(entries[i].grant == grant && entries[i].key == key)
  {
    Find(entries, (e: Entry) => e.grant == grant && e.key == key)
  }

  predicate EntryIdTaken(entries: seq<Entry>, id: string) {
    exists i :: 0 <= i < |entries| && entries[i].id == id
  }

  // ----- totals -----

  function ReservedShare(g: Grant, scope: ScopeId): Amount {
    if g.scope == scope && g.state == Reserved then g.requested else NOTHING
  }

  function ReservedShares(grants: seq<Grant>, scope: ScopeId): (r: seq<Amount>)
    ensures |r| == |grants|
    ensures forall i :: 0 <= i < |grants| ==> r[i] == ReservedShare(grants[i], scope)
  {
    seq(|grants|, i requires 0 <= i < |grants| => ReservedShare(grants[i], scope))
  }

  function ReservedTotal(grants: seq<Grant>, scope: ScopeId): Amount {
    Total(ReservedShares(grants, scope))
  }

  function UsageShare(e: Entry, grant: string): Amount {
    if e.grant == grant then e.usage else NOTHING
  }

  function UsageShares(entries: seq<Entry>, grant: string): (r: seq<Amount>)
    ensures |r| == |entries|
    ensures forall i :: 0 <= i < |entries| ==> r[i] == UsageShare(entries[i], grant)
  {
    seq(|entries|, i requires 0 <= i < |entries| => UsageShare(entries[i], grant))
  }

  function UsageTotal(entries: seq<Entry>, grant: string): Amount {
    Total(UsageShares(entries, grant))
  }

  // What a scope has used and promised so far.
  function Consumed(l: Ledger, scope: ScopeId): Amount
    requires scope in l.scopes
  {
    Add(l.scopes[scope].usage, ReservedTotal(l.grants, scope))
  }

  // ----- writes -----

  function SetLimit(l: Ledger, scope: ScopeId, limit: Amount): Ledger {
    var usage := if scope in l.scopes then l.scopes[scope].usage else NOTHING;
    l.(scopes := l.scopes[scope := Scope(limit, usage)])
  }

  function InsertGrant(l: Ledger, g: Grant, objective: Option<string>): Ledger {
    l.(grants := l.grants + [g],
       log := l.log + [ReservedEvent(g.scope, g.id, g.requested, g.reason, objective)])
  }

  function InsertEntry(l: Ledger, e: Entry): Ledger {
    l.(entries := l.entries + [e])
  }

  function CommitRow(l: Ledger, i: nat, usage: Amount): Ledger
    requires i < |l.grants| && l.grants[i].scope in l.scopes
  {
    var g := l.grants[i];
    var scope := l.scopes[g.scope];
    Ledger(
      l.scopes[g.scope := scope.(usage := Add(scope.usage, usage))],
      l.grants[i := g.(state := Committed, committed := Some(usage))],
      l.entries,
      l.log + [CommittedEvent(g.scope, g.id, usage)])
  }

  function ReleaseRow(l: Ledger, i: nat): Ledger
    requires i < |l.grants|
  {
    var g := l.grants[i];
    l.(grants := l.grants[i := g.(state := Released)], log := l.log + [ReleasedEvent(g.scope, g.id)])
  }

  // ----- transactions -----

  function Reserve(l: Ledger, q: ReserveRequest, id: string): (Ledger, Outcome) {
    if !ValidAmount(q.limit) || !ValidAmount(q.requested) then (l, Err(InvalidAmount))
    else
      var l1 := SetLimit(l, q.scope, q.limit);
      match FindGrantByKey(l1.grants, q.scope, q.key)
      case Some(i) => (l1, Ok(GrantReceipt(l1.grants[i])))
      case None =>
        if !FitsBudget(l1.scopes[q.scope].limit, Consumed(l1, q.scope), q.requested) then
          (l1.(log := l1.log + [DeniedEvent(q.scope, q.reason, q.requested)]), Err(BudgetDenied))
        else if FindGrant(l1.grants, id).Some? then (l, Err(DuplicateId))
        else
          var g := Grant(id, q.scope, q.principal, q.reason, q.requested, None, Reserved, q.key, q.expiresAt);
          (InsertGrant(l1, g, None), Ok(GrantReceipt(g)))
  }

  function ObjectiveScope(objective: string): ScopeId {
    ScopeId(Objective, objective, RunWindow)
  }

  function ReserveObjective(l: Ledger, q: ObjectiveRequest, id: string): (Ledger, Outcome) {
    if !ValidAmount(q.limit) then (l, Err(InvalidAmount))
    else
      var scope := ObjectiveScope(q.objective);
      var l1 := if scope in l.scopes then l else SetLimit(l, scope, q.limit);
      if l1.scopes[scope].limit != q.limit then (l, Err(LimitMismatch))
      else
        match FindGrantByKey(l1.grants, scope, q.key)
        case Some(i) => (l1, Ok(GrantReceipt(l1.grants[i])))
        case None =>
          match RemainingBudget(q.limit, Consumed(l1, scope))
          case None => (l1, Ok(NoGrant))
          case Some(requested) =>
            if FindGrant(l1.grants, id).Some? then (l, Err(DuplicateId))
            else
              var g := Grant(id, scope, q.principal, "objective attempt", requested, None, Reserved, q.key,
                             q.expiresAt);
              (InsertGrant(l1, g, Some(q.objective)), Ok(GrantReceipt(g)))
  }

  function ObjectiveHasRemaining(l: Ledger, objective: string, limit: Amount): Result<bool, Error> {
    if !ValidAmount(limit) then Err(InvalidAmount)
    else
      var scope := ObjectiveScope(objective);
      if scope !in l.scopes then Ok(RemainingBudget(limit, NOTHING).Some?)
      else if l.scopes[scope].limit != limit then Err(LimitMismatch)
      else Ok(RemainingBudget(limit, Consumed(l, scope)).Some?)
  }

  function RecordUsage(l: Ledger, q: UsageRequest, id: string): (Ledger, Outcome) {
    if !ValidAmount(q.usage) then (l, Err(InvalidAmount))
    else if q.source == "" || q.sourceId == "" || q.key == "" then (l, Err(EmptyIdentity))
    else
      match FindEntry(l.entries, q.grant, q.key)
      case Some(i) =>
        var e := l.entries[i];
        if e.usage != q.usage || e.source != q.source || e.sourceId != q.sourceId then (l, Err(ConflictingEntry))
        else (l, Ok(EntryReceipt(e, false)))
      case None =>
        match FindGrant(l.grants, q.grant)
        case None => (l, Err(NotFound))
        case Some(i) =>
          var g := l.grants[i];
          if g.state != Reserved then (l, Err(NotReserved))
          else if !FitsReservedGrant(g.requested, UsageTotal(l.entries, g.id), q.usage) then (l, Err(BudgetDenied))
          else if EntryIdTaken(l.entries, id) then (l, Err(DuplicateId))
          else
            var e := Entry(id, q.grant, q.usage, q.source, q.sourceId, q.key);
            (InsertEntry(l, e), Ok(EntryReceipt(e, true)))
  }

  function Commit(l: Ledger, grant: string): (Ledger, Outcome) {
    match FindGrant(l.grants, grant)
    case None => (l, Ok(NoGrant))
    case Some(i) =>
      var g := l.grants[i];
      if g.state != Reserved then (l, Ok(GrantReceipt(g)))
      else if g.scope !in l.scopes then (l, Err(NotFound))
      else
        var usage := UsageTotal(l.entries, g.id);
        if !FitsBudget(l.scopes[g.scope].limit, l.scopes[g.scope].usage, usage) then (l, Err(BudgetDenied))
        else (CommitRow(l, i, usage), Ok(GrantReceipt(g.(state := Committed, committed := Some(usage)))))
  }

  function Release(l: Ledger, grant: string): (Ledger, Outcome) {
    match FindGrant(l.grants, grant)
    case None => (l, Ok(NoGrant))
    case Some(i) =>
      var g := l.grants[i];
      if g.state != Reserved then (l, Ok(GrantReceipt(g)))
      else (ReleaseRow(l, i), Ok(GrantReceipt(g.(state := Released))))
  }

  // ----- runs -----

  datatype Op =
    | ReserveOp(reserve: ReserveRequest, id: string)
    | ObjectiveOp(objective: ObjectiveRequest, id: string)
    | RecordOp(usage: UsageRequest, id: string)
    | CommitOp(grant: string)
    | ReleaseOp(grant: string)

  function Perform(l: Ledger, op: Op): (Ledger, Outcome) {
    match op
    case ReserveOp(q, id) => Reserve(l, q, id)
    case ObjectiveOp(q, id) => ReserveObjective(l, q, id)
    case RecordOp(q, id) => RecordUsage(l, q, id)
    case CommitOp(g) => Commit(l, g)
    case ReleaseOp(g) => Release(l, g)
  }

  function Step(l: Ledger, op: Op): Ledger {
    Perform(l, op).0
  }

  function Run(l: Ledger, ops: seq<Op>): Ledger
    decreases |ops|
  {
    if |ops| == 0 then l else Run(Step(l, ops[0]), ops[1..])
  }

  lemma {:induction false} RunConcat(l: Ledger, a: seq<Op>, b: seq<Op>)
    ensures Run(l, a + b) == Run(Run(l, a), b)
    decreases |a|
  {
    if |a| == 0 {
      assert a + b == b;
    } else {
      assert (a + b)[1..] == a[1..] + b;
      RunConcat(Step(l, a[0]), a[1..], b);
    }
  }
}
