/**
 The plugin host's refresh protocol. Code between two awaits runs as one step; the
 steps of all drains and callers interleave freely. `clock`, `calls`, `builds` and
 `lastBuilt` are history, kept only to state what a caller can rely on.
 */
module PluginHost {
  import opened Common

  type VersionKey = string
  type ActionHost = nat

  datatype Generation = Generation(revision: string, commands: nat)
  datatype Counts = Counts(revision: string, active: nat, commands: nat)

  datatype RefreshResult =
    | Succeeded(counts: Counts, changed: bool, listenerErrors: nat)
    | Failed(counts: Counts, code: string)

  datatype Phase =
    | Building(captured: Counts, ensuring: Option<VersionKey>)  // inside refreshOnce, at an await of the build
    | Returned(result: RefreshResult)                           // refreshOnce settled, the drain has not resumed
    | Done(result: RefreshResult)                               // the drain returned, finally has not run
    | Closed(result: RefreshResult)                             // finally has run

  datatype Drain = Drain(phase: Phase, changed: bool, listenerErrors: nat, startedAt: nat, builds: seq<RefreshResult>)

  /** A call of refresh; `late` when its drain had already made its last test of the flag. */
  datatype Call = Call(at: nat, drain: nat, late: bool)

  datatype Host = Host(
    disposed: bool,
    requested: bool,
    promise: Option<nat>,
    drains: seq<Drain>,
    current: Generation,
    last: Option<RefreshResult>,
    hosts: map<VersionKey, ActionHost>,
    clock: nat,
    calls: seq<Call>,
    lastBuilt: nat)

  function Start(revision: string): Host {
    Host(false, false, None, [], Generation(revision, 0), None, map[], 0, [], 0)
  }

  datatype Action =
    | Refresh
    | EnsureBegin(drain: nat, key: VersionKey)
    | EnsureEnd(drain: nat, host: ActionHost)
    | BuildOk(drain: nat, built: Counts, errors: nat)
    | BuildFail(drain: nat, code: string)
    | Resume(drain: nat)
    | Finally(drain: nat)
    | Dispose

  function Captured(h: Host): Counts {
    Counts(h.current.revision, if h.last.Some? then h.last.value.counts.active else 0, h.current.commands)
  }

  predicate Enabled(h: Host, a: Action) {
    match a
    case Refresh => !h.disposed
    case EnsureBegin(d, _) => d < |h.drains| && h.drains[d].phase.Building? && h.drains[d].phase.ensuring.None?
    case EnsureEnd(d, _) => d < |h.drains| && h.drains[d].phase.Building? && h.drains[d].phase.ensuring.Some?
    case BuildOk(d, _, _) => d < |h.drains| && h.drains[d].phase.Building? && h.drains[d].phase.ensuring.None?
    case BuildFail(d, _) => d < |h.drains| && h.drains[d].phase.Building?
    case Resume(d) => d < |h.drains| && h.drains[d].phase.Returned?
    case Finally(d) => d < |h.drains| && h.drains[d].phase.Done?
    case Dispose => true
  }

  function RefreshStep(h: Host): Host {
    match h.promise
    case Some(d) =>
      h.(requested := true,
         calls := h.calls + [Call(h.clock, d, d < |h.drains| && h.drains[d].phase.Done?)])
    case None =>
      // The drain runs up to the first await of the build before refresh returns.
      h.(requested := false,
         promise := Some(|h.drains|),
         drains := h.drains + [Drain(Building(Captured(h), None), false, 0, h.clock, [])],
         calls := h.calls + [Call(h.clock, |h.drains|, false)])
  }

  /** Publishing replaces the generation, and tells the listeners, only under a new revision. */
  function BuildOkStep(h: Host, d: nat, built: Counts, errors: nat): Host
    requires d < |h.drains|
  {
    var changed := built.revision != h.current.revision;
    var result := Succeeded(built, changed, if changed then errors else 0);
    h.(current := if changed then Generation(built.revision, built.commands) else h.current,
       last := Some(result),
       lastBuilt := built.active,
       drains := h.drains[d := h.drains[d].(phase := Returned(result), builds := h.drains[d].builds + [result])])
  }

  function BuildFailStep(h: Host, d: nat, code: string): Host
    requires d < |h.drains| && h.drains[d].phase.Building?
  {
    var result := Failed(h.drains[d].phase.captured, code);
    h.(last := Some(result),
       drains := h.drains[d := h.drains[d].(phase := Returned(result), builds := h.drains[d].builds + [result])])
  }

  function ResumeStep(h: Host, d: nat): Host
    requires d < |h.drains| && h.drains[d].phase.Returned?
  {
    var drain := h.drains[d];
    var result := drain.phase.result;
    var changed := drain.changed || (result.Succeeded? && result.changed);
    var errors := drain.listenerErrors + if result.Succeeded? then result.listenerErrors else 0;
    if h.requested then
      var next := Drain(Building(Captured(h), None), changed, errors, h.clock, drain.builds);
      h.(requested := false, drains := h.drains[d := next])
    else
      var merged := if result.Succeeded? then Succeeded(result.counts, changed, errors) else result;
      h.(last := if result.Succeeded? then Some(merged) else h.last,
         drains := h.drains[d := drain.(phase := Done(merged), changed := changed, listenerErrors := errors)])
  }

  function Step(h: Host, a: Action): Host {
    if !Enabled(h, a) then h
    else
      var h' :=
        match a
        case Refresh => RefreshStep(h)
        case EnsureBegin(d, key) =>
          if key in h.hosts then h
          else h.(drains := h.drains[d := h.drains[d].(phase := h.drains[d].phase.(ensuring := Some(key)))])
        case EnsureEnd(d, host) =>
          h.(hosts := h.hosts[h.drains[d].phase.ensuring.value := host],
             drains := h.drains[d := h.drains[d].(phase := h.drains[d].phase.(ensuring := None))])
        case BuildOk(d, built, errors) => BuildOkStep(h, d, built, errors)
        case BuildFail(d, code) => BuildFailStep(h, d, code)
        case Resume(d) => ResumeStep(h, d)
        case Finally(d) =>
          h.(promise := None, drains := h.drains[d := h.drains[d].(phase := Closed(h.drains[d].phase.result))])
        case Dispose => h.(disposed := true);
      h'.(clock := h.clock + 1)
  }

  function Run(h: Host, actions: seq<Action>): Host
    decreases |actions|
  {
    if |actions| == 0 then h else Run(Step(h, actions[0]), actions[1..])
  }

  // ----- the invariant -----

  /** The promise is set exactly while one drain is open, and names that drain. */
  ghost predicate SingleFlight(h: Host) {
    && (h.promise.Some? ==> h.promise.value < |h.drains| && !h.drains[h.promise.value].phase.Closed?)
    && (forall d :: 0 <= d < |h.drains| && !h.drains[d].phase.Closed? ==> h.promise == Some(d))
  }

  ghost predicate StillPublished(h: Host, counts: Counts) {
    counts == Counts(h.current.revision, h.lastBuilt, h.current.commands)
  }

  /** What the open drain holds agrees with what is published. */
  ghost predicate PhaseSound(h: Host, p: Phase) {
    match p
    case Building(captured, ensuring) =>
      StillPublished(h, captured) && (ensuring.Some? ==> ensuring.value !in h.hosts)
    case Returned(result) =>
      result.counts.active == h.lastBuilt && (result.Failed? ==> StillPublished(h, result.counts))
    case Done(result) => result.Failed? ==> StillPublished(h, result.counts)
    case Closed(_) => true
  }

  ghost predicate StatusSound(h: Host) {
    && (if h.last.Some? then h.last.value.counts.active else 0) == h.lastBuilt
    && (h.last.Some? && h.last.value.Failed? ==> StillPublished(h, h.last.value.counts))
    && (forall d :: 0 <= d < |h.drains| ==> PhaseSound(h, h.drains[d].phase))
  }

  ghost predicate Owed(h: Host, c: Call) {
    && h.requested && h.promise == Some(c.drain) && c.drain < |h.drains|
    && (h.drains[c.drain].phase.Building? || h.drains[c.drain].phase.Returned?)
  }

  /** A late call sees an older build; any other has a newer one or is owed one. */
  ghost predicate CallSound(h: Host, c: Call)
  {
    && c.at < h.clock && c.drain < |h.drains|
    && (if c.late then
          h.drains[c.drain].startedAt < c.at && (h.drains[c.drain].phase.Done? || h.drains[c.drain].phase.Closed?)
        else h.drains[c.drain].startedAt >= c.at || Owed(h, c))
  }

  ghost predicate CallsSound(h: Host) {
    && (forall d :: 0 <= d < |h.drains| ==> h.drains[d].startedAt < h.clock)
    && (forall i :: 0 <= i < |h.calls| ==> CallSound(h, h.calls[i]))
  }

  function ErrorTotal(builds: seq<RefreshResult>): nat {
    if |builds| == 0 then 0
    else
      var r := builds[|builds| - 1];
      ErrorTotal(builds[..|builds| - 1]) + if r.Succeeded? then r.listenerErrors else 0
  }

  ghost predicate AnyChanged(builds: seq<RefreshResult>) {
    exists i :: 0 <= i < |builds| && builds[i].Succeeded? && builds[i].changed
  }

  ghost predicate Tallied(builds: seq<RefreshResult>, changed: bool, errors: nat) {
    (changed <==> AnyChanged(builds)) && errors == ErrorTotal(builds)
  }

  /** The running tallies are those of the builds folded in so far. */
  ghost predicate DrainSound(drain: Drain) {
    var n := |drain.builds|;
    match drain.phase
    case Building(_, _) => Tallied(drain.builds, drain.changed, drain.listenerErrors)
    case Returned(result) =>
      n > 0 && drain.builds[n - 1] == result && Tallied(drain.builds[..n - 1], drain.changed, drain.listenerErrors)
    case Done(result) => ResultSound(drain.builds, result)
    case Closed(result) => ResultSound(drain.builds, result)
  }

  /** A drain answers with its last build, tallied over all its builds. */
  ghost predicate ResultSound(builds: seq<RefreshResult>, result: RefreshResult) {
    && |builds| > 0
    && var final := builds[|builds| - 1];
       if final.Failed? then result == final
       else result.Succeeded? && result.counts == final.counts && Tallied(builds, result.changed, result.listenerErrors)
  }

  ghost predicate DrainsSound(h: Host) {
    forall d :: 0 <= d < |h.drains| ==> DrainSound(h.drains[d])
  }

  ghost predicate Inv(h: Host) {
    SingleFlight(h) && StatusSound(h) && CallsSound(h) && DrainsSound(h)
  }

  lemma {:induction false} StepSingleFlight(h: Host, a: Action)
    requires SingleFlight(h)
    ensures SingleFlight(Step(h, a))
  {
  }

  lemma {:induction false} StepStatus(h: Host, a: Action)
    requires SingleFlight(h) && StatusSound(h)
    ensures StatusSound(Step(h, a))
  {
    hide SingleFlight, StatusSound, RefreshStep, BuildOkStep, BuildFailStep, ResumeStep;
    if Enabled(h, a) {
      match a
      case Refresh => RefreshStatus(h);
      case BuildOk(d, built, errors) => BuildOkStatus(h, d, built, errors);
      case BuildFail(d, code) => BuildFailStatus(h, d, code);
      case Resume(d) => ResumeStatus(h, d);
      case _ => SmallStepStatus(h, a);
    }
  }

  lemma {:induction false} RefreshStatus(h: Host)
    requires SingleFlight(h) && StatusSound(h)
    ensures StatusSound(RefreshStep(h).(clock := h.clock + 1))
  {
    var h' := RefreshStep(h);
    forall d | 0 <= d < |h'.drains| ensures PhaseSound(h', h'.drains[d].phase) {
      if d < |h.drains| { assert PhaseSound(h, h.drains[d].phase); }
    }
    assert forall p :: PhaseSound(h', p) <==> PhaseSound(h'.(clock := h.clock + 1), p);
  }

  lemma {:induction false} BuildOkStatus(h: Host, d: nat, built: Counts, errors: nat)
    requires SingleFlight(h) && StatusSound(h) && d < |h.drains| && h.drains[d].phase.Building?
    ensures StatusSound(BuildOkStep(h, d, built, errors).(clock := h.clock + 1))
  {
    var h' := BuildOkStep(h, d, built, errors).(clock := h.clock + 1);
    forall i | 0 <= i < |h'.drains| ensures PhaseSound(h', h'.drains[i].phase) {
      if i != d { assert h.drains[i].phase.Closed?; }
    }
  }

  lemma {:induction false} BuildFailStatus(h: Host, d: nat, code: string)
    requires SingleFlight(h) && StatusSound(h) && d < |h.drains| && h.drains[d].phase.Building?
    ensures StatusSound(BuildFailStep(h, d, code).(clock := h.clock + 1))
  {
    var h' := BuildFailStep(h, d, code).(clock := h.clock + 1);
    assert PhaseSound(h, h.drains[d].phase);
    forall i | 0 <= i < |h'.drains| ensures PhaseSound(h', h'.drains[i].phase) {
      if i != d { assert h.drains[i].phase.Closed?; }
    }
  }

  lemma {:induction false} ResumeStatus(h: Host, d: nat)
    requires SingleFlight(h) && StatusSound(h) && d < |h.drains| && h.drains[d].phase.Returned?
    ensures StatusSound(ResumeStep(h, d).(clock := h.clock + 1))
  {
    var h' := ResumeStep(h, d).(clock := h.clock + 1);
    assert PhaseSound(h, h.drains[d].phase);
    forall i | 0 <= i < |h'.drains| ensures PhaseSound(h', h'.drains[i].phase) {
      if i != d { assert h.drains[i].phase.Closed?; }
    }
  }

  lemma {:induction false} SmallStepStatus(h: Host, a: Action)
    requires SingleFlight(h) && StatusSound(h) && Enabled(h, a)
    requires a.EnsureBegin? || a.EnsureEnd? || a.Finally? || a.Dispose?
    ensures StatusSound(Step(h, a))
  {
    var h' := Step(h, a);
    forall i | 0 <= i < |h'.drains| ensures PhaseSound(h', h'.drains[i].phase) {
      assert PhaseSound(h, h.drains[i].phase);
    }
  }

  lemma {:induction false} StepCalls(h: Host, a: Action)
    requires SingleFlight(h) && CallsSound(h)
    ensures CallsSound(Step(h, a))
  {
    hide SingleFlight, CallsSound, RefreshStep, BuildOkStep, BuildFailStep, ResumeStep;
    if Enabled(h, a) {
      match a
      case Refresh => RefreshCalls(h);
      case Resume(d) => ResumeCalls(h, d);
      case _ => OtherCalls(h, a);
    }
  }

  lemma {:induction false} RefreshCalls(h: Host)
    requires SingleFlight(h) && CallsSound(h)
    ensures CallsSound(RefreshStep(h).(clock := h.clock + 1))
  {
    var h' := RefreshStep(h).(clock := h.clock + 1);
    forall i | 0 <= i < |h'.calls| ensures CallSound(h', h'.calls[i]) {
      if i < |h.calls| { assert CallSound(h, h.calls[i]); }
    }
  }

  lemma {:induction false} ResumeCalls(h: Host, d: nat)
    requires SingleFlight(h) && CallsSound(h) && d < |h.drains| && h.drains[d].phase.Returned?
    ensures CallsSound(ResumeStep(h, d).(clock := h.clock + 1))
  {
    var h' := ResumeStep(h, d).(clock := h.clock + 1);
    forall i | 0 <= i < |h'.calls| ensures CallSound(h', h'.calls[i]) {
      assert CallSound(h, h.calls[i]);
    }
  }

  lemma {:induction false} OtherCalls(h: Host, a: Action)
    requires SingleFlight(h) && CallsSound(h) && Enabled(h, a) && !a.Refresh? && !a.Resume?
    ensures CallsSound(Step(h, a))
  {
    var h' := Step(h, a);
    forall i | 0 <= i < |h'.calls| ensures CallSound(h', h'.calls[i]) {
      assert CallSound(h, h.calls[i]);
    }
  }

  lemma {:induction false} TallySnoc(builds: seq<RefreshResult>, changed: bool, errors: nat)
    requires |builds| > 0 && Tallied(builds[..|builds| - 1], changed, errors)
    ensures var r := builds[|builds| - 1];
            Tallied(builds, changed || (r.Succeeded? && r.changed),
                    errors + if r.Succeeded? then r.listenerErrors else 0)
  {
    var n := |builds| - 1;
    if AnyChanged(builds[..n]) {
      var i :| 0 <= i < n && builds[..n][i].Succeeded? && builds[..n][i].changed;
      assert builds[i].Succeeded? && builds[i].changed;
    }
    if AnyChanged(builds) {
      var i :| 0 <= i < |builds| && builds[i].Succeeded? && builds[i].changed;
      assert i < n ==> builds[..n][i].Succeeded? && builds[..n][i].changed;
    }
  }

  lemma {:induction false} StepDrains(h: Host, a: Action)
    requires DrainsSound(h)
    ensures DrainsSound(Step(h, a))
  {
    hide DrainsSound, RefreshStep, BuildOkStep, BuildFailStep, ResumeStep;
    if Enabled(h, a) {
      match a
      case Resume(d) => ResumeDrains(h, d);
      case BuildOk(_, _, _) => BuiltDrains(h, a);
      case BuildFail(_, _) => BuiltDrains(h, a);
      case _ => OtherDrains(h, a);
    }
  }

  lemma {:induction false} ResumeDrains(h: Host, d: nat)
    requires DrainsSound(h) && d < |h.drains| && h.drains[d].phase.Returned?
    ensures DrainsSound(ResumeStep(h, d).(clock := h.clock + 1))
  {
    hide Tallied;
    var h' := ResumeStep(h, d).(clock := h.clock + 1);
    var drain := h.drains[d];
    assert DrainSound(drain);
    TallySnoc(drain.builds, drain.changed, drain.listenerErrors);
    forall i | 0 <= i < |h'.drains| ensures DrainSound(h'.drains[i]) {
      assert i != d ==> DrainSound(h.drains[i]);
    }
  }

  lemma {:induction false} BuiltDrains(h: Host, a: Action)
    requires DrainsSound(h) && Enabled(h, a) && (a.BuildOk? || a.BuildFail?)
    ensures DrainsSound(Step(h, a))
  {
    hide Tallied;
    var h' := Step(h, a);
    assert DrainSound(h.drains[a.drain]);
    assert h'.drains[a.drain].builds[..|h.drains[a.drain].builds|] == h.drains[a.drain].builds;
    forall i | 0 <= i < |h'.drains| ensures DrainSound(h'.drains[i]) {
      assert i != a.drain ==> DrainSound(h.drains[i]);
    }
  }

  lemma {:induction false} OtherDrains(h: Host, a: Action)
    requires DrainsSound(h) && Enabled(h, a) && !a.Resume? && !a.BuildOk? && !a.BuildFail?
    ensures DrainsSound(Step(h, a))
  {
    hide Tallied;
    var h' := Step(h, a);
    assert Tallied([], false, 0) by { NoBuilds(); }
    forall i | 0 <= i < |h'.drains| ensures DrainSound(h'.drains[i]) {
      assert i < |h.drains| ==> DrainSound(h.drains[i]);
    }
  }

  lemma {:induction false} NoBuilds()
    ensures Tallied([], false, 0)
  {
  }

  lemma {:induction false} StepKeepsInv(h: Host, a: Action)
    requires Inv(h)
    ensures Inv(Step(h, a))
  {
    hide Step, SingleFlight, StatusSound, CallsSound, DrainsSound;
    StepSingleFlight(h, a);
    StepStatus(h, a);
    StepCalls(h, a);
    StepDrains(h, a);
  }

  lemma {:induction false} RunKeepsInv(h: Host, actions: seq<Action>)
    requires Inv(h)
    ensures Inv(Run(h, actions))
    decreases |actions|
  {
    hide Step, Inv;
    if |actions| > 0 {
      StepKeepsInv(h, actions[0]);
      RunKeepsInv(Step(h, actions[0]), actions[1..]);
    }
  }

  // ----- what callers can rely on, in every interleaving -----

  /** At most one refreshOnce is in progress. */
  lemma {:induction false} OneBuildAtATime(revision: string, actions: seq<Action>)
    ensures var h := Run(Start(revision), actions);
            forall i, j :: 0 <= i < j < |h.drains| ==> !(h.drains[i].phase.Building? && h.drains[j].phase.Building?)
  {
    hide Run;
    RunKeepsInv(Start(revision), actions);
  }

  /**
   Freshness: once its promise settles, a call gets the result of a drain whose last
   build began no earlier than the call, except exactly when the call fell between the
   drain's last test of the flag and its finally callback.
   */
  lemma {:induction false} FreshUnlessLate(revision: string, actions: seq<Action>, i: nat)
    requires i < |Run(Start(revision), actions).calls|
    ensures var h := Run(Start(revision), actions);
            var c := h.calls[i];
            && c.drain < |h.drains|
            && (h.drains[c.drain].phase.Done? || h.drains[c.drain].phase.Closed? ==>
                  (h.drains[c.drain].startedAt >= c.at <==> !c.late)
                  && ResultSound(h.drains[c.drain].builds, h.drains[c.drain].phase.result))
  {
    hide Run;
    RunKeepsInv(Start(revision), actions);
    var h := Run(Start(revision), actions);
    assert CallSound(h, h.calls[i]);
    assert DrainSound(h.drains[h.calls[i].drain]);
  }

  /** A failed result, also as last reported status, names what is still published. */
  lemma {:induction false} FailureReportsPublished(revision: string, actions: seq<Action>)
    ensures var h := Run(Start(revision), actions);
            && (h.last.Some? && h.last.value.Failed? ==> StillPublished(h, h.last.value.counts))
            && (forall d :: 0 <= d < |h.drains| && h.drains[d].phase.Done? && h.drains[d].phase.result.Failed? ==>
                  StillPublished(h, h.drains[d].phase.result.counts))
  {
    hide Run;
    RunKeepsInv(Start(revision), actions);
    var h := Run(Start(revision), actions);
    forall d | 0 <= d < |h.drains| && h.drains[d].phase.Done? && h.drains[d].phase.result.Failed?
      ensures StillPublished(h, h.drains[d].phase.result.counts)
    {
      assert PhaseSound(h, h.drains[d].phase);
    }
  }

  lemma {:induction false} StepKeepsHosts(h: Host, a: Action, key: VersionKey)
    requires Inv(h) && key in h.hosts
    ensures key in Step(h, a).hosts && Step(h, a).hosts[key] == h.hosts[key]
  {
    if Enabled(h, a) && a.EnsureEnd? {
      assert PhaseSound(h, h.drains[a.drain].phase);
    }
  }

  /** A registered version host is never replaced or dropped, although ensure checks before it awaits. */
  lemma {:induction false} HostsNeverReplaced(revision: string, before: seq<Action>, after: seq<Action>,
                                              key: VersionKey)
    requires key in Run(Start(revision), before).hosts
    ensures var h := Run(Start(revision), before);
            key in Run(h, after).hosts && Run(h, after).hosts[key] == h.hosts[key]
  {
    hide Run, Step;
    RunKeepsInv(Start(revision), before);
    RunKeepsHosts(Run(Start(revision), before), after, key);
  }

  lemma {:induction false} RunKeepsHosts(h: Host, actions: seq<Action>, key: VersionKey)
    requires Inv(h) && key in h.hosts
    ensures key in Run(h, actions).hosts && Run(h, actions).hosts[key] == h.hosts[key]
    decreases |actions|
  {
    hide Step, SingleFlight, StatusSound, CallsSound, DrainsSound;
    if |actions| > 0 {
      StepKeepsHosts(h, actions[0], key);
      StepKeepsInv(h, actions[0]);
      RunKeepsHosts(Step(h, actions[0]), actions[1..], key);
    }
  }

  /** The gap is real: a call made in it gets an older build, and its request is left unserved. */
  lemma {:induction false} GapExists(revision: string)
    ensures exists actions :: var h := Run(Start(revision), actions);
              && |h.calls| > 0 && h.calls[|h.calls| - 1].late
              && h.promise == None && h.requested
  {
    var h0 := Start(revision);
    var h1 := Step(h0, Refresh);
    var h2 := Step(h1, BuildFail(0, "x"));
    var h3 := Step(h2, Resume(0));
    var h4 := Step(h3, Refresh);
    var h5 := Step(h4, Finally(0));
    assert h1.drains[0].phase.Building? && h2.drains[0].phase.Returned? && h3.drains[0].phase.Done?;
    assert h4.calls[1].late && h5.promise == None && h5.requested;
    Run5(h0, Refresh, BuildFail(0, "x"), Resume(0), Refresh, Finally(0));
  }

  lemma {:induction false} Run5(h: Host, a: Action, b: Action, c: Action, d: Action, e: Action)
    ensures Run(h, [a, b, c, d, e]) == Step(Step(Step(Step(Step(h, a), b), c), d), e)
  {
    hide Step;
    assert [a, b, c, d, e][1..] == [b, c, d, e] && [b, c, d, e][1..] == [c, d, e];
    assert [c, d, e][1..] == [d, e] && [d, e][1..] == [e] && [e][1..] == [];
    var h3 := Step(Step(Step(h, a), b), c);
    assert Run(h3, [d, e]) == Run(Step(h3, d), [e]) == Run(Step(Step(h3, d), e), []);
    assert Run(Step(h, a), [b, c, d, e]) == Run(Step(Step(h, a), b), [c, d, e]);
  }
}
