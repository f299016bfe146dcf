/**
 Channel bindings, inbound events and their projections. The only constraint an
 insert checks here is its primary key; that the other keys stay unique is proved.
 */
module ChannelIntake {
  import opened Common
  import opened Tables

  datatype Sender = Sender(connector: string, channel: string, identity: string)

  datatype Binding = Binding(
    id: string,
    sender: Sender,
    kind: string,
    principal: string,
    active: bool,
    key: Option<string>)

  datatype InboundState = Received | ProjectedState | IgnoredState | FailedState

  datatype Inbound = Inbound(
    id: string,
    sender: Sender,
    external: string,
    principal: Option<string>,
    state: InboundState,
    key: Option<string>)

  datatype TargetKind = SessionTurn | TeamMessage | WorkspaceTask | Ignored

  datatype Projection = Projection(
    id: string,
    inbound: string,
    kind: TargetKind,
    target: Option<string>,
    key: Option<string>)

  /** `actions` lists the target actions that have run, one per event and kind. */
  datatype Channel = Channel(
    bindings: seq<Binding>,
    inbound: seq<Inbound>,
    projections: seq<Projection>,
    actions: seq<(string, TargetKind)>)

  const EMPTY := Channel([], [], [], [])

  datatype Error = EmptyField | NoCapability | BindingConflict | NotFound | DuplicateId | TargetFailed
  datatype Receipt =
    | BindingReceipt(binding: Binding)
    | InboundReceipt(event: Inbound)
    | ProjectionReceipt(projection: Projection)
  type Outcome = Result<Receipt, Error>

  datatype PutRequest = PutRequest(
    id: string,
    sender: Sender,
    kind: string,
    principal: string,
    key: Option<string>,
    capable: bool)

  datatype IngestRequest = IngestRequest(
    id: string,
    sender: Sender,
    kind: string,
    external: string,
    principal: Option<string>,
    key: Option<string>,
    capable: bool)

  /** `target` is what the target's own transaction answers, none if it fails. */
  datatype ProjectRequest = ProjectRequest(
    id: string,
    inbound: string,
    kind: TargetKind,
    key: Option<string>,
    target: Option<Option<string>>)

  predicate SenderGiven(s: Sender) {
    s.connector != "" && s.channel != "" && s.identity != ""
  }

  // ----- transactions -----

  predicate Agrees(b: Binding, q: PutRequest) {
    b.sender == q.sender && b.kind == q.kind && b.principal == q.principal
  }

  function BindingByKey(c: Channel, key: Option<string>): Option<nat> {
    if key.None? then None else Find(c.bindings, (b: Binding) => b.key == key)
  }

  function BindingOf(c: Channel, s: Sender): Option<nat> {
    Find(c.bindings, (b: Binding) => b.sender == s)
  }

  function PutBinding(c: Channel, q: PutRequest): (Channel, Outcome) {
    if !SenderGiven(q.sender) || q.kind == "" || q.principal == "" || q.id == "" || q.key == Some("")
    then (c, Err(EmptyField))
    else if !q.capable then (c, Err(NoCapability))
    else
      var existing := if BindingByKey(c, q.key).Some? then BindingByKey(c, q.key) else BindingOf(c, q.sender);
      if existing.Some? then
        var b := c.bindings[existing.value];
        if Agrees(b, q) then (c, Ok(BindingReceipt(b))) else (c, Err(BindingConflict))
      else if Find(c.bindings, (b: Binding) => b.id == q.id).Some? then (c, Err(DuplicateId))
      else
        var b := Binding(q.id, q.sender, q.kind, q.principal, true, q.key);
        (c.(bindings := c.bindings + [b]), Ok(BindingReceipt(b)))
  }

  function RevokeBinding(c: Channel, id: string): (Channel, Outcome) {
    if id == "" then (c, Err(EmptyField))
    else
      match Find(c.bindings, (b: Binding) => b.id == id)
      case None => (c, Err(NotFound))
      case Some(i) =>
        var b := c.bindings[i].(active := false);
        (c.(bindings := c.bindings[i := b]), Ok(BindingReceipt(b)))
  }

  /** The principal of the sender's active binding. */
  function ActivePrincipal(c: Channel, s: Sender): Option<string> {
    match Find(c.bindings, (b: Binding) => b.sender == s && b.active)
    case None => None
    case Some(i) => Some(c.bindings[i].principal)
  }

  predicate SameExternal(e: Inbound, s: Sender, external: string) {
    e.sender.connector == s.connector && e.sender.channel == s.channel && e.external == external
  }

  /** The record an ingest finds instead of inserting one. */
  function ExistingInbound(c: Channel, q: IngestRequest): Option<nat> {
    var byKey := if q.key.None? then None else Find(c.inbound, (e: Inbound) => e.key == q.key);
    if byKey.Some? then byKey else Find(c.inbound, (e: Inbound) => SameExternal(e, q.sender, q.external))
  }

  function Ingest(c: Channel, q: IngestRequest): (Channel, Outcome) {
    if !SenderGiven(q.sender) || q.kind == "" || q.external == "" || q.id == ""
       || q.principal == Some("") || q.key == Some("") then (c, Err(EmptyField))
    else if !q.capable then (c, Err(NoCapability))
    else
      match ExistingInbound(c, q)
      case Some(i) => (c, Ok(InboundReceipt(c.inbound[i])))
      case None =>
        if Find(c.inbound, (e: Inbound) => e.id == q.id).Some? then (c, Err(DuplicateId))
        else
          var principal := if q.principal.Some? then q.principal else ActivePrincipal(c, q.sender);
          var e := Inbound(q.id, q.sender, q.external, principal, Received, q.key);
          (c.(inbound := c.inbound + [e]), Ok(InboundReceipt(e)))
  }

  function UpdateState(c: Channel, id: string, state: InboundState): (Channel, Outcome) {
    if id == "" then (c, Err(EmptyField))
    else
      match Find(c.inbound, (e: Inbound) => e.id == id)
      case None => (c, Err(NotFound))
      case Some(i) =>
        var e := c.inbound[i].(state := state);
        (c.(inbound := c.inbound[i := e]), Ok(InboundReceipt(e)))
  }

  function ExistingProjection(c: Channel, q: ProjectRequest): Option<nat> {
    var byKey := if q.key.None? then None else Find(c.projections, (p: Projection) => p.key == q.key);
    if byKey.Some? then byKey else Find(c.projections, (p: Projection) => p.inbound == q.inbound && p.kind == q.kind)
  }

  function Project(c: Channel, q: ProjectRequest): (Channel, Outcome) {
    if q.inbound == "" || q.id == "" || q.key == Some("") then (c, Err(EmptyField))
    else
      match Find(c.inbound, (e: Inbound) => e.id == q.inbound)
      case None => (c, Err(NotFound))
      case Some(i) =>
        match ExistingProjection(c, q)
        case Some(k) => (c, Ok(ProjectionReceipt(c.projections[k])))
        case None =>
          if q.target.None? then (c, Err(TargetFailed))
          else if Find(c.projections, (p: Projection) => p.id == q.id).Some? then (c, Err(DuplicateId))
          else
            var p := Projection(q.id, q.inbound, q.kind, q.target.value, q.key);
            var e := c.inbound[i].(state := if q.kind == Ignored then IgnoredState else ProjectedState);
            (Channel(
               c.bindings,
               c.inbound[i := e],
               c.projections + [p],
               if q.kind == Ignored then c.actions else c.actions + [(q.inbound, q.kind)]),
             Ok(ProjectionReceipt(p)))
  }

  // ----- runs -----

  datatype Op =
    | PutOp(put: PutRequest)
    | RevokeOp(id: string)
    | IngestOp(ingest: IngestRequest)
    | UpdateOp(id: string, state: InboundState)
    | ProjectOp(project: ProjectRequest)

  function Perform(c: Channel, op: Op): (Channel, Outcome) {
    match op
    case PutOp(q) => PutBinding(c, q)
    case RevokeOp(id) => RevokeBinding(c, id)
    case IngestOp(q) => Ingest(c, q)
    case UpdateOp(id, state) => UpdateState(c, id, state)
    case ProjectOp(q) => Project(c, q)
  }

  function Step(c: Channel, op: Op): Channel {
    Perform(c, op).0
  }

  function Run(c: Channel, ops: seq<Op>): Channel
    decreases |ops|
  {
    if |ops| == 0 then c else Run(Step(c, ops[0]), ops[1..])
  }

  // ----- uniqueness -----

  ghost predicate BindingsUnique(bindings: seq<Binding>) {
    forall i, j :: 0 <= i < j < |bindings| ==>
      && bindings[i].id != bindings[j].id
      && bindings[i].sender != bindings[j].sender
      && !(bindings[i].key.Some? && bindings[i].key == bindings[j].key)
  }

  ghost predicate InboundUnique(inbound: seq<Inbound>) {
    forall i, j :: 0 <= i < j < |inbound| ==>
      && inbound[i].id != inbound[j].id
      && !SameExternal(inbound[i], inbound[j].sender, inbound[j].external)
      && !(inbound[i].key.Some? && inbound[i].key == inbound[j].key)
  }

  ghost predicate ProjectionsUnique(projections: seq<Projection>) {
    forall i, j :: 0 <= i < j < |projections| ==>
      && projections[i].id != projections[j].id
      && !(projections[i].inbound == projections[j].inbound && projections[i].kind == projections[j].kind)
      && !(projections[i].key.Some? && projections[i].key == projections[j].key)
  }

  predicate Projects(p: Projection, inbound: string, kind: TargetKind) {
    p.inbound == inbound && p.kind == kind
  }

  /** Each action that ran has its projection, and ran once. */
  ghost predicate ActionsSound(actions: seq<(string, TargetKind)>, projections: seq<Projection>) {
    && (forall i :: 0 <= i < |actions| ==>
          exists k :: 0 <= k < |projections| && Projects(projections[k], actions[i].0, actions[i].1))
    && (forall i, j :: 0 <= i < j < |actions| ==> actions[i] != actions[j])
  }

  ghost predicate Inv(c: Channel) {
    && BindingsUnique(c.bindings)
    && InboundUnique(c.inbound)
    && ProjectionsUnique(c.projections)
    && ActionsSound(c.actions, c.projections)
  }

  lemma {:induction false} PutKeepsInv(c: Channel, q: PutRequest)
    requires Inv(c)
    ensures Inv(PutBinding(c, q).0)
  {
  }

  lemma {:induction false} IngestKeepsInv(c: Channel, q: IngestRequest)
    requires Inv(c)
    ensures Inv(Ingest(c, q).0)
  {
    hide ProjectionsUnique, BindingsUnique, ActivePrincipal;
  }

  lemma {:induction false} StateChangeKeepsUnique(inbound: seq<Inbound>, i: nat, state: InboundState)
    requires InboundUnique(inbound) && i < |inbound|
    ensures InboundUnique(inbound[i := inbound[i].(state := state)])
  {
  }

  lemma {:induction false} ProjectKeepsInv(c: Channel, q: ProjectRequest)
    requires Inv(c)
    ensures Inv(Project(c, q).0)
  {
    hide InboundUnique, BindingsUnique;
    var c' := Project(c, q).0;
    if c' != c {
      var i := Find(c.inbound, (e: Inbound) => e.id == q.inbound).value;
      StateChangeKeepsUnique(c.inbound, i, if q.kind == Ignored then IgnoredState else ProjectedState);
      assert forall k :: 0 <= k < |c.projections| ==> !Projects(c.projections[k], q.inbound, q.kind);
      NewProjectionActions(c, c', q);
    }
  }

  lemma {:induction false} NewProjectionActions(c: Channel, c': Channel, q: ProjectRequest)
    requires ActionsSound(c.actions, c.projections)
    requires forall k :: 0 <= k < |c.projections| ==> !Projects(c.projections[k], q.inbound, q.kind)
    requires |c'.projections| == |c.projections| + 1 && c.projections <= c'.projections
    requires Projects(c'.projections[|c.projections|], q.inbound, q.kind)
    requires c'.actions == c.actions || c'.actions == c.actions + [(q.inbound, q.kind)]
    ensures ActionsSound(c'.actions, c'.projections)
  {
    forall i | 0 <= i < |c'.actions|
      ensures exists k :: 0 <= k < |c'.projections| && Projects(c'.projections[k], c'.actions[i].0, c'.actions[i].1)
    {
      if i < |c.actions| {
        var k :| 0 <= k < |c.projections| && Projects(c.projections[k], c.actions[i].0, c.actions[i].1);
        assert c'.projections[k] == c.projections[k];
      } else {
        assert Projects(c'.projections[|c.projections|], c'.actions[i].0, c'.actions[i].1);
      }
    }
  }

  lemma {:induction false} StepKeepsInv(c: Channel, op: Op)
    requires Inv(c)
    ensures Inv(Step(c, op))
  {
    match op
    case PutOp(q) => PutKeepsInv(c, q);
    case RevokeOp(id) =>
    case IngestOp(q) => IngestKeepsInv(c, q);
    case UpdateOp(id, state) =>
      var r := Find(c.inbound, (e: Inbound) => e.id == id);
      if r.Some? { StateChangeKeepsUnique(c.inbound, r.value, state); }
    case ProjectOp(q) => ProjectKeepsInv(c, q);
  }

  lemma {:induction false} RunKeepsInv(c: Channel, ops: seq<Op>)
    requires Inv(c)
    ensures Inv(Run(c, ops))
    decreases |ops|
  {
    hide Inv, Step;
    if |ops| > 0 {
      StepKeepsInv(c, ops[0]);
      RunKeepsInv(Step(c, ops[0]), ops[1..]);
    }
  }

  /**
   At most once: on every run, whatever state updates happen in between, no two inbound
   records share an external event or an idempotency key, no two projections share an
   event and kind or a key, and no target action runs twice for an event and kind.
   */
  lemma {:induction false} AtMostOnce(ops: seq<Op>)
    ensures var c := Run(EMPTY, ops);
            && InboundUnique(c.inbound)
            && ProjectionsUnique(c.projections)
            && (forall i, j :: 0 <= i < j < |c.actions| ==> c.actions[i] != c.actions[j])
  {
    hide Run, InboundUnique, ProjectionsUnique;
    assert Inv(EMPTY) by { EmptyInv(); }
    RunKeepsInv(EMPTY, ops);
  }

  lemma {:induction false} EmptyInv()
    ensures Inv(EMPTY)
  {
  }

  // ----- attribution -----

  datatype Status = Unbound | Bound(principal: string) | Revoked

  function StatusOf(c: Channel, s: Sender): Status {
    match BindingOf(c, s)
    case None => Unbound
    case Some(i) => if c.bindings[i].active then Bound(c.bindings[i].principal) else Revoked
  }

  /** A sender's binding appears once, keeps its principal, and once revoked stays revoked. */
  predicate Advances(before: Status, after: Status) {
    match before
    case Unbound => !after.Revoked?
    case Bound(p) => after == Bound(p) || after == Revoked
    case Revoked => after == Revoked
  }

  lemma {:induction false} StepAdvances(c: Channel, op: Op, s: Sender)
    requires BindingsUnique(c.bindings)
    ensures Advances(StatusOf(c, s), StatusOf(Step(c, op), s))
  {
    hide ActivePrincipal;
    var c' := Step(c, op);
    if op.PutOp? && c' != c {
      assert (c.bindings + [c'.bindings[|c.bindings|]])[..|c.bindings|] == c.bindings;
    }
    if op.RevokeOp? && c' != c {
      RevokeStatus(c, op.id, s);
    }
  }

  lemma {:induction false} RevokeStatus(c: Channel, id: string, s: Sender)
    requires BindingsUnique(c.bindings)
    ensures Advances(StatusOf(c, s), StatusOf(RevokeBinding(c, id).0, s))
  {
    var r := Find(c.bindings, (b: Binding) => b.id == id);
    if id != "" && r.Some? {
      var c' := RevokeBinding(c, id).0;
      var k, k' := BindingOf(c, s), BindingOf(c', s);
      assert forall i :: 0 <= i < |c.bindings| ==> c'.bindings[i].sender == c.bindings[i].sender;
      if k.Some? {
        assert c'.bindings[k.value].sender == s;
        assert k' == k;
      }
    }
  }

  lemma {:induction false} ActiveIsStatus(c: Channel, s: Sender)
    requires BindingsUnique(c.bindings)
    ensures ActivePrincipal(c, s) == match StatusOf(c, s) case Bound(p) => Some(p) case _ => None
  {
    var active := Find(c.bindings, (b: Binding) => b.sender == s && b.active);
    var any := BindingOf(c, s);
    if active.Some? {
      assert c.bindings[active.value].sender == s;
      assert any == active;
    } else if any.Some? {
      assert c.bindings[any.value].sender == s;
    }
  }

  /** The principals resolved, in order, for the sender's new events that named none themselves. */
  function Resolved(c: Channel, ops: seq<Op>, s: Sender): seq<Option<string>>
    decreases |ops|
  {
    if |ops| == 0 then []
    else
      var c' := Step(c, ops[0]);
      var here :=
        if ops[0].IngestOp? && ops[0].ingest.sender == s && ops[0].ingest.principal.None? && |c'.inbound| > |c.inbound|
        then [c'.inbound[|c.inbound|].principal]
        else [];
      here + Resolved(c', ops[1..], s)
  }

  ghost predicate AllEqual(xs: seq<Option<string>>, x: Option<string>) {
    forall i :: 0 <= i < |xs| ==> xs[i] == x
  }

  /** None for a while, then one principal for a while, then none for ever. */
  ghost predicate OneSpell(xs: seq<Option<string>>) {
    exists i: nat, j: nat, p: string :: SpellAt(xs, i, j, p)
  }

  lemma {:induction false} ResolvedHead(c: Channel, op: Op, s: Sender)
    requires BindingsUnique(c.bindings)
    requires op.IngestOp? && op.ingest.sender == s && op.ingest.principal.None? && |Step(c, op).inbound| > |c.inbound|
    ensures Step(c, op).inbound[|c.inbound|].principal == match StatusOf(c, s) case Bound(p) => Some(p) case _ => None
  {
    hide StatusOf, ExistingInbound;
    ActiveIsStatus(c, s);
  }

  /** Where the spell starts and ends, and whose it is. */
  ghost predicate SpellAt(xs: seq<Option<string>>, i: nat, j: nat, p: string) {
    i <= j <= |xs| && AllEqual(xs[..i], None) && AllEqual(xs[i..j], Some(p)) && AllEqual(xs[j..], None)
  }

  /** The part of the spell that is left in each status: none after revocation, the principal first while bound. */
  ghost predicate SpellFrom(status: Status, i: nat, j: nat, p: string) {
    match status
    case Unbound => true
    case Bound(q) => i == 0 && p == q
    case Revoked => i == 0 && j == 0
  }

  lemma {:induction false} SpellCons(status: Status, x: Option<string>, rest: seq<Option<string>>,
                                     i: nat, j: nat, p: string)
    returns (i': nat, j': nat, p': string)
    requires SpellAt(rest, i, j, p)
    requires x == match status case Bound(q) => Some(q) case _ => None
    requires exists after :: Advances(status, after) && SpellFrom(after, i, j, p)
    ensures SpellAt([x] + rest, i', j', p') && SpellFrom(status, i', j', p')
  {
    var xs := [x] + rest;
    var after :| Advances(status, after) && SpellFrom(after, i, j, p);
    match status
    case Unbound =>
      i', j', p' := i + 1, j + 1, p;
      assert xs[..i'] == [x] + rest[..i] && xs[i'..j'] == rest[i..j] && xs[j'..] == rest[j..];
    case Bound(q) =>
      i', j', p' := 0, j + 1, q;
      assert xs[0..j'] == [x] + rest[0..j] && xs[j'..] == rest[j..];
    case Revoked =>
      i', j', p' := 0, 0, p;
      assert xs[0..] == [x] + rest[0..];
  }

  lemma {:induction false} SpellEmpty(status: Status) returns (i: nat, j: nat, p: string)
    ensures SpellAt([], i, j, p) && SpellFrom(status, i, j, p)
  {
    i, j, p := 0, 0, match status case Bound(q) => q case _ => "";
  }

  lemma {:induction false} SpellSame(status: Status, xs: seq<Option<string>>, i: nat, j: nat, p: string)
    returns (i': nat, j': nat, p': string)
    requires SpellAt(xs, i, j, p) && exists after :: Advances(status, after) && SpellFrom(after, i, j, p)
    ensures SpellAt(xs, i', j', p') && SpellFrom(status, i', j', p')
  {
    var after :| Advances(status, after) && SpellFrom(after, i, j, p);
    i', j', p' := i, j, match status case Bound(q) => q case _ => p;
    assert i == j ==> xs[i..j] == [];
  }

  lemma {:induction false} ResolvedSpell(c: Channel, ops: seq<Op>, s: Sender) returns (i: nat, j: nat, p: string)
    requires Inv(c)
    ensures SpellAt(Resolved(c, ops, s), i, j, p) && SpellFrom(StatusOf(c, s), i, j, p)
    decreases |ops|
  {
    hide Inv, StatusOf, Step, SpellAt, SpellFrom, Advances;
    if |ops| == 0 {
      i, j, p := SpellEmpty(StatusOf(c, s));
      return;
    }
    InvBindings(c);
    var c' := Step(c, ops[0]);
    StepKeepsInv(c, ops[0]);
    StepAdvances(c, ops[0], s);
    i, j, p := ResolvedSpell(c', ops[1..], s);
    var rest := Resolved(c', ops[1..], s);
    var xs := Resolved(c, ops, s);
    if |xs| == |rest| {
      assert xs == rest;
      i, j, p := SpellSame(StatusOf(c, s), rest, i, j, p);
    } else {
      ResolvedHead(c, ops[0], s);
      assert xs == [c'.inbound[|c.inbound|].principal] + rest;
      i, j, p := SpellCons(StatusOf(c, s), c'.inbound[|c.inbound|].principal, rest, i, j, p);
    }
  }

  lemma {:induction false} InvBindings(c: Channel)
    requires Inv(c)
    ensures BindingsUnique(c.bindings)
  {
  }

  /** On every run, a sender's events are attributed to nobody, then to one principal, then to nobody for ever. */
  lemma {:induction false} SenderAttribution(ops: seq<Op>, s: Sender)
    ensures OneSpell(Resolved(EMPTY, ops, s))
  {
    hide Resolved, AllEqual;
    EmptyInv();
    var i, j, p := ResolvedSpell(EMPTY, ops, s);
  }
}
