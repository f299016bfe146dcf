/** What the plugin host publishes and reports, in terms of the builds that were made. */
module PluginPublication {
  import opened Common
  import opened PluginHost

  /** All builds of all drains, in the order in which they were made. */
  function AllBuilds(drains: seq<Drain>): seq<RefreshResult> {
    if |drains| == 0 then [] else AllBuilds(drains[..|drains| - 1]) + drains[|drains| - 1].builds
  }

  /** The revision of the last of the first `k` builds that succeeded, or else the initial one. */
  function RevisionAfter(initial: string, builds: seq<RefreshResult>, k: nat): string
    requires k <= |builds|
  {
    if k == 0 then initial
    else if builds[k - 1].Succeeded? then builds[k - 1].counts.revision
    else RevisionAfter(initial, builds, k - 1)
  }

  /** A build says that it changed the catalog exactly when its revision is not the one before it. */
  ghost predicate ChangesTold(initial: string, builds: seq<RefreshResult>) {
    forall i :: 0 <= i < |builds| && builds[i].Succeeded? ==>
      && (builds[i].changed <==> builds[i].counts.revision != RevisionAfter(initial, builds, i))
      && (!builds[i].changed ==> builds[i].listenerErrors == 0)
  }

  /** From build `i` on, every build that succeeds has this revision. */
  ghost predicate KeptSince(builds: seq<RefreshResult>, i: int, revision: string) {
    forall j :: 0 <= i <= j < |builds| && builds[j].Succeeded? ==> builds[j].counts.revision == revision
  }

  /** What build `i` brought is published, and no later build changed it. */
  ghost predicate Brought(builds: seq<RefreshResult>, i: int, g: Generation) {
    && 0 <= i < |builds| && builds[i].Succeeded? && builds[i].changed
    && g == Generation(builds[i].counts.revision, builds[i].counts.commands)
    && KeptSince(builds, i, g.revision)
  }

  /** The generation is that of the build that last changed the revision, or the initial one. */
  ghost predicate Published(initial: string, builds: seq<RefreshResult>, g: Generation) {
    && g.revision == RevisionAfter(initial, builds, |builds|)
    && ((g == Generation(initial, 0) && KeptSince(builds, 0, initial)) || exists i :: Brought(builds, i, g))
  }

  /** Only the last drain can be open. */
  ghost predicate OthersClosed(h: Host) {
    forall d :: 0 <= d < |h.drains| - 1 ==> h.drains[d].phase.Closed?
  }

  ghost predicate PublicationSound(initial: string, h: Host) {
    var builds := AllBuilds(h.drains);
    Published(initial, builds, h.current) && ChangesTold(initial, builds)
  }

  // ----- one more build -----

  lemma {:induction false} SameRevision(initial: string, builds: seq<RefreshResult>, r: RefreshResult, k: nat)
    requires k <= |builds|
    ensures RevisionAfter(initial, builds + [r], k) == RevisionAfter(initial, builds, k)
    decreases k
  {
    if k > 0 { SameRevision(initial, builds, r, k - 1); }
  }

  lemma {:induction false} ToldSnoc(initial: string, builds: seq<RefreshResult>, r: RefreshResult)
    requires ChangesTold(initial, builds)
    requires r.Succeeded? ==>
               && (r.changed <==> r.counts.revision != RevisionAfter(initial, builds, |builds|))
               && (!r.changed ==> r.listenerErrors == 0)
    ensures ChangesTold(initial, builds + [r])
  {
    hide RevisionAfter;
    var more := builds + [r];
    forall i | 0 <= i < |more| && more[i].Succeeded?
      ensures && (more[i].changed <==> more[i].counts.revision != RevisionAfter(initial, more, i))
              && (!more[i].changed ==> more[i].listenerErrors == 0)
    {
      SameRevision(initial, builds, r, i);
    }
  }

  lemma {:induction false} PublishedSnoc(initial: string, builds: seq<RefreshResult>, g: Generation, r: RefreshResult,
                                         g': Generation)
    requires Published(initial, builds, g)
    requires if r.Succeeded? && r.counts.revision != g.revision
             then r.changed && g' == Generation(r.counts.revision, r.counts.commands)
             else g' == g
    ensures Published(initial, builds + [r], g')
  {
    hide RevisionAfter;
    var more := builds + [r];
    SameRevision(initial, builds, r, |builds|);
    LastRevision(initial, builds, r);
    if r.Succeeded? && r.counts.revision != g.revision {
      assert Brought(more, |builds|, g');
    } else if g == Generation(initial, 0) && KeptSince(builds, 0, initial) {
      assert KeptSince(more, 0, initial);
    } else {
      var i :| Brought(builds, i, g);
      assert Brought(more, i, g);
    }
  }

  lemma {:induction false} LastRevision(initial: string, builds: seq<RefreshResult>, r: RefreshResult)
    ensures RevisionAfter(initial, builds + [r], |builds| + 1)
         == if r.Succeeded? then r.counts.revision else RevisionAfter(initial, builds, |builds|)
  {
    SameRevision(initial, builds, r, |builds|);
  }

  // ----- steps -----

  lemma {:induction false} BuildsUpdated(drains: seq<Drain>, d: nat, drain: Drain)
    requires d < |drains| && drain.builds == drains[d].builds
    ensures AllBuilds(drains[d := drain]) == AllBuilds(drains)
    decreases |drains|
  {
    var n := |drains| - 1;
    if d < n {
      BuildsUpdated(drains[..n], d, drain);
      assert drains[d := drain][..n] == drains[..n][d := drain];
    } else {
      assert drains[d := drain][..n] == drains[..n];
    }
  }

  lemma {:induction false} BuildsSnoc(drains: seq<Drain>, drain: Drain, r: RefreshResult)
    requires |drains| > 0 && drain.builds == drains[|drains| - 1].builds + [r]
    ensures AllBuilds(drains[|drains| - 1 := drain]) == AllBuilds(drains) + [r]
  {
    var n := |drains| - 1;
    assert drains[n := drain][..n] == drains[..n];
  }

  lemma {:induction false} DrainAdded(drains: seq<Drain>, drain: Drain)
    requires drain.builds == []
    ensures AllBuilds(drains + [drain]) == AllBuilds(drains)
  {
    assert (drains + [drain])[..|drains|] == drains;
  }

  lemma {:induction false} StepKeepsClosed(h: Host, a: Action)
    requires SingleFlight(h) && OthersClosed(h)
    ensures OthersClosed(Step(h, a))
  {
  }

  lemma {:induction false} OpenIsLast(h: Host, d: nat)
    requires OthersClosed(h) && d < |h.drains| && !h.drains[d].phase.Closed?
    ensures d == |h.drains| - 1
  {
  }

  /** Only a successful build changes what is published. */
  lemma {:induction false} OnlyBuildsPublish(h: Host, a: Action)
    requires !a.BuildOk?
    ensures Step(h, a).current == h.current
  {
  }

  lemma {:induction false} OtherBuilds(h: Host, a: Action)
    requires Enabled(h, a) && !a.BuildOk? && !a.BuildFail?
    ensures AllBuilds(Step(h, a).drains) == AllBuilds(h.drains)
  {
    hide AllBuilds;
    var h' := Step(h, a);
    match a
    case Refresh => if h.promise.None? { DrainAdded(h.drains, h'.drains[|h.drains|]); }
    case EnsureBegin(d, _) => if h'.drains != h.drains { BuildsUpdated(h.drains, d, h'.drains[d]); }
    case EnsureEnd(d, _) => BuildsUpdated(h.drains, d, h'.drains[d]);
    case Resume(d) => BuildsUpdated(h.drains, d, h'.drains[d]);
    case Finally(d) => BuildsUpdated(h.drains, d, h'.drains[d]);
    case Dispose =>
  }

  lemma {:induction false} BuildPublishes(initial: string, h: Host, d: nat, built: Counts, errors: nat)
    requires OthersClosed(h) && PublicationSound(initial, h) && d < |h.drains| && h.drains[d].phase.Building?
    ensures PublicationSound(initial, BuildOkStep(h, d, built, errors).(clock := h.clock + 1))
  {
    hide AllBuilds, Published, ChangesTold;
    var h' := BuildOkStep(h, d, built, errors);
    OpenIsLast(h, d);
    var r := h'.drains[d].phase.result;
    BuildsSnoc(h.drains, h'.drains[d], r);
    PublishedRevision(initial, AllBuilds(h.drains), h.current);
    ToldSnoc(initial, AllBuilds(h.drains), r);
    PublishedSnoc(initial, AllBuilds(h.drains), h.current, r, h'.current);
  }

  lemma {:induction false} PublishedRevision(initial: string, builds: seq<RefreshResult>, g: Generation)
    requires Published(initial, builds, g)
    ensures g.revision == RevisionAfter(initial, builds, |builds|)
  {
  }

  lemma {:induction false} FailurePublishesNothing(initial: string, h: Host, d: nat, code: string)
    requires OthersClosed(h) && PublicationSound(initial, h) && d < |h.drains| && h.drains[d].phase.Building?
    ensures PublicationSound(initial, BuildFailStep(h, d, code).(clock := h.clock + 1))
  {
    hide AllBuilds, Published, ChangesTold;
    var h' := BuildFailStep(h, d, code);
    OpenIsLast(h, d);
    var r := h'.drains[d].phase.result;
    BuildsSnoc(h.drains, h'.drains[d], r);
    ToldSnoc(initial, AllBuilds(h.drains), r);
    PublishedSnoc(initial, AllBuilds(h.drains), h.current, r, h.current);
  }

  lemma {:induction false} StepKeepsPublication(initial: string, h: Host, a: Action)
    requires OthersClosed(h) && PublicationSound(initial, h)
    ensures PublicationSound(initial, Step(h, a))
  {
    hide AllBuilds, Published, ChangesTold, OthersClosed, BuildOkStep, BuildFailStep;
    if Enabled(h, a) {
      match a
      case BuildOk(d, built, errors) => BuildPublishes(initial, h, d, built, errors);
      case BuildFail(d, code) => FailurePublishesNothing(initial, h, d, code);
      case _ =>
        OtherBuilds(h, a);
        OnlyBuildsPublish(h, a);
    }
  }

  // ----- the reported status -----

  /** The last status is the result of the last drain, or of its last build while it goes on. */
  ghost predicate StatusReported(h: Host) {
    var n := |h.drains|;
    if n == 0 then h.last == None
    else
      match h.drains[n - 1].phase
      case Building(_, _) =>
        var builds := h.drains[n - 1].builds;
        if |builds| > 0 then h.last == Some(builds[|builds| - 1])
        else if n == 1 then h.last == None
        else h.drains[n - 2].phase.Closed? && h.last == Some(h.drains[n - 2].phase.result)
      case Returned(result) => h.last == Some(result) && LastBuild(h.drains[n - 1], result)
      case Done(result) => h.last == Some(result)
      case Closed(result) => h.last == Some(result)
  }

  ghost predicate LastBuild(drain: Drain, result: RefreshResult) {
    |drain.builds| > 0 && drain.builds[|drain.builds| - 1] == result
  }

  lemma {:induction false} StepKeepsStatus(h: Host, a: Action)
    requires SingleFlight(h) && OthersClosed(h) && StatusReported(h)
    ensures StatusReported(Step(h, a))
  {
    if Enabled(h, a) && !a.Refresh? && !a.Dispose? {
      OpenIsLast(h, a.drain);
    }
  }

  // ----- in every interleaving -----

  ghost predicate AllSound(initial: string, h: Host) {
    Inv(h) && OthersClosed(h) && PublicationSound(initial, h) && StatusReported(h)
  }

  lemma {:induction false} RunKeepsSound(initial: string, h: Host, actions: seq<Action>)
    requires AllSound(initial, h)
    ensures AllSound(initial, Run(h, actions))
    decreases |actions|
  {
    hide Step, SingleFlight, StatusSound, CallsSound, DrainsSound, OthersClosed, PublicationSound, StatusReported;
    if |actions| > 0 {
      StepKeepsInv(h, actions[0]);
      StepKeepsClosed(h, actions[0]);
      StepKeepsPublication(initial, h, actions[0]);
      StepKeepsStatus(h, actions[0]);
      RunKeepsSound(initial, Step(h, actions[0]), actions[1..]);
    }
  }

  lemma {:induction false} StartSound(initial: string)
    ensures AllSound(initial, Start(initial))
  {
  }

  /**
   In every interleaving: the published revision is that of the last successful build, or
   the initial one if there is none; what is published is what the build brought that last
   changed the revision; and each build tells truly whether it changed it.
   */
  lemma {:induction false} PublishedIsLastBuilt(initial: string, actions: seq<Action>)
    ensures var h := Run(Start(initial), actions);
            Published(initial, AllBuilds(h.drains), h.current) && ChangesTold(initial, AllBuilds(h.drains))
  {
    hide Run, AllBuilds, Published, ChangesTold, Inv, OthersClosed, StatusReported;
    StartSound(initial);
    RunKeepsSound(initial, Start(initial), actions);
  }

  /** In every interleaving, between drains the reported status is the result of the last one. */
  lemma {:induction false} StatusIsLastResult(initial: string, actions: seq<Action>)
    ensures var h := Run(Start(initial), actions);
            var n := |h.drains|;
            && (n == 0 ==> h.last == None)
            && (n > 0 && (h.drains[n - 1].phase.Done? || h.drains[n - 1].phase.Closed?) ==>
                  h.last == Some(h.drains[n - 1].phase.result))
  {
    hide Run, Inv, OthersClosed, PublicationSound;
    StartSound(initial);
    RunKeepsSound(initial, Start(initial), actions);
  }

  /** The host a factory returns is registered under the version it was asked for, and no other is touched. */
  lemma {:induction false} EnsureRegisters(h: Host, d: nat, key: VersionKey, host: ActionHost)
    requires d < |h.drains| && h.drains[d].phase.Building? && h.drains[d].phase.ensuring == None && key !in h.hosts
    ensures var h1 := Step(h, EnsureBegin(d, key));
            var h2 := Step(h1, EnsureEnd(d, host));
            h1.hosts == h.hosts && h2.hosts == h.hosts[key := host]
  {
  }

  /** Where several steps of others come between, the registration is the one that was begun. */
  lemma {:induction false} RegistersWhatWasBegun(h: Host, d: nat, host: ActionHost)
    requires d < |h.drains| && h.drains[d].phase.Building? && h.drains[d].phase.ensuring.Some?
    ensures Step(h, EnsureEnd(d, host)).hosts == h.hosts[h.drains[d].phase.ensuring.value := host]
    ensures forall a: Action :: !(a.EnsureEnd? && Enabled(h, a)) ==> Step(h, a).hosts == h.hosts
  {
  }

  /** What a finished build adds to its drain: what was built, or what was remembered and the code of the failure. */
  lemma {:induction false} BuildRecorded(h: Host, d: nat, built: Counts, errors: nat, code: string)
    requires d < |h.drains| && h.drains[d].phase.Building? && h.drains[d].phase.ensuring == None
    ensures var changed := built.revision != h.current.revision;
            Step(h, BuildOk(d, built, errors)).drains[d].builds
            == h.drains[d].builds + [Succeeded(built, changed, if changed then errors else 0)]
    ensures Step(h, BuildFail(d, code)).drains[d].builds
         == h.drains[d].builds + [Failed(h.drains[d].phase.captured, code)]
  {
  }

  /** After dispose no call of refresh starts or joins a drain. */
  lemma {:induction false} DisposedRefusesRefresh(h: Host, actions: seq<Action>)
    requires h.disposed
    ensures Run(h, actions).calls == h.calls && Run(h, actions).disposed
    decreases |actions|
  {
    if |actions| > 0 { DisposedRefusesRefresh(Step(h, actions[0]), actions[1..]); }
  }
}
