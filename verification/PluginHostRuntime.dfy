/**
 The plugin host's mutable state and the code segments between its awaits. A segment
 that resumes a suspended drain requires that this drain is suspended there; refresh
 may be called at any time.
 */
module PluginHostRuntime {
  import opened Common
  import P = PluginHost

  class AssistantPluginHost {
    var disposed: bool
    var refreshRequested: bool
    var refreshPromise: Option<nat>
    var drains: seq<P.Drain>
    var current: P.Generation
    var lastRefresh: Option<P.RefreshResult>
    var hosts: map<P.VersionKey, P.ActionHost>
    var clock: nat
    ghost var calls: seq<P.Call>
    ghost var lastBuilt: nat

    ghost function Value(): P.Host
      reads this
    {
      P.Host(disposed, refreshRequested, refreshPromise, drains, current, lastRefresh, hosts, clock, calls, lastBuilt)
    }

    constructor (revision: string)
      ensures Value() == P.Start(revision) && P.Inv(Value())
    {
      disposed, refreshRequested, refreshPromise, drains := false, false, None, [];
      current, lastRefresh, hosts := P.Generation(revision, 0), None, map[];
      clock, calls, lastBuilt := 0, [], 0;
    }

    /** What refreshOnce remembers before its first await, for a result in case of failure. */
    method CurrentState() returns (c: P.Counts)
      ensures c == P.Captured(Value())
      ensures P.Inv(Value()) ==> P.StillPublished(Value(), c)
    {
      var active := 0;
      if lastRefresh.Some? {
        active := lastRefresh.value.counts.active;
      }
      c := P.Counts(current.revision, active, current.commands);
    }

    method Refresh() returns (promise: Option<nat>)
      modifies this
      ensures Value() == P.Step(old(Value()), P.Refresh)
      ensures promise == if old(disposed) then None else refreshPromise
      ensures old(P.Inv(Value())) ==> P.Inv(Value())
    {
      hide P.Inv;
      if old(P.Inv(Value())) { P.StepKeepsInv(Value(), P.Refresh); }
      if disposed {
        return None;
      }
      refreshRequested := true;
      if refreshPromise.None? {
        refreshRequested := false;
        var captured := CurrentState();
        refreshPromise := Some(|drains|);
        calls := calls + [P.Call(clock, |drains|, false)];
        drains := drains + [P.Drain(P.Building(captured, None), false, 0, clock, [])];
      } else {
        ghost var d := refreshPromise.value;
        calls := calls + [P.Call(clock, d, d < |drains| && drains[d].phase.Done?)];
      }
      clock := clock + 1;
      return refreshPromise;
    }

    /** The registry's check, before the factory is awaited. */
    method EnsureBegin(d: nat, key: P.VersionKey)
      requires P.Enabled(Value(), P.EnsureBegin(d, key))
      modifies this
      ensures Value() == P.Step(old(Value()), P.EnsureBegin(d, key))
      ensures old(P.Inv(Value())) ==> P.Inv(Value())
    {
      hide P.Inv;
      if old(P.Inv(Value())) { P.StepKeepsInv(Value(), P.EnsureBegin(d, key)); }
      if key !in hosts {
        drains := drains[d := drains[d].(phase := drains[d].phase.(ensuring := Some(key)))];
      }
      clock := clock + 1;
    }

    /** The registry's write, after the factory returned a host. */
    method EnsureEnd(d: nat, host: P.ActionHost)
      requires P.Enabled(Value(), P.EnsureEnd(d, host))
      modifies this
      ensures Value() == P.Step(old(Value()), P.EnsureEnd(d, host))
      ensures old(P.Inv(Value())) ==> P.Inv(Value())
      ensures old(P.Inv(Value())) ==> forall k :: k in old(hosts) ==> k in hosts && hosts[k] == old(hosts)[k]
    {
      hide P.Inv;
      if old(P.Inv(Value())) {
        P.StepKeepsInv(Value(), P.EnsureEnd(d, host));
        forall k | k in hosts { P.StepKeepsHosts(Value(), P.EnsureEnd(d, host), k); }
      }
      hosts := hosts[drains[d].phase.ensuring.value := host];
      drains := drains[d := drains[d].(phase := drains[d].phase.(ensuring := None))];
      clock := clock + 1;
    }

    method BuildSucceeded(d: nat, built: P.Counts, errors: nat)
      requires P.Enabled(Value(), P.BuildOk(d, built, errors))
      modifies this
      ensures Value() == P.Step(old(Value()), P.BuildOk(d, built, errors))
      ensures old(P.Inv(Value())) ==> P.Inv(Value())
    {
      hide P.Inv;
      if old(P.Inv(Value())) { P.StepKeepsInv(Value(), P.BuildOk(d, built, errors)); }
      var changed := built.revision != current.revision;
      var listenerErrors := 0;
      if changed {
        current := P.Generation(built.revision, built.commands);
        listenerErrors := errors;
      }
      var result := P.Succeeded(built, changed, listenerErrors);
      lastRefresh := Some(result);
      lastBuilt := built.active;
      drains := drains[d := drains[d].(phase := P.Returned(result), builds := drains[d].builds + [result])];
      clock := clock + 1;
    }

    method BuildFailed(d: nat, code: string)
      requires P.Enabled(Value(), P.BuildFail(d, code))
      modifies this
      ensures Value() == P.Step(old(Value()), P.BuildFail(d, code))
      ensures old(P.Inv(Value())) ==> P.Inv(Value())
    {
      hide P.Inv;
      if old(P.Inv(Value())) { P.StepKeepsInv(Value(), P.BuildFail(d, code)); }
      var result := P.Failed(drains[d].phase.captured, code);
      lastRefresh := Some(result);
      drains := drains[d := drains[d].(phase := P.Returned(result), builds := drains[d].builds + [result])];
      clock := clock + 1;
    }

    /** The drain after a refreshOnce: tally, test the flag, and build again or return. */
    method ResumeDrain(d: nat)
      requires P.Enabled(Value(), P.Resume(d))
      modifies this
      ensures Value() == P.Step(old(Value()), P.Resume(d))
      ensures old(P.Inv(Value())) ==> P.Inv(Value())
    {
      hide P.Inv;
      if old(P.Inv(Value())) { P.StepKeepsInv(Value(), P.Resume(d)); }
      var drain := drains[d];
      var result := drain.phase.result;
      var changed, listenerErrors := drain.changed, drain.listenerErrors;
      if result.Succeeded? {
        changed := changed || result.changed;
        listenerErrors := listenerErrors + result.listenerErrors;
      }
      if refreshRequested {
        refreshRequested := false;
        var captured := CurrentState();
        drains := drains[d := P.Drain(P.Building(captured, None), changed, listenerErrors, clock, drain.builds)];
      } else {
        if result.Succeeded? {
          result := P.Succeeded(result.counts, changed, listenerErrors);
          lastRefresh := Some(result);
        }
        drains := drains[d := drain.(phase := P.Done(result), changed := changed, listenerErrors := listenerErrors)];
      }
      clock := clock + 1;
    }

    method FinallyCallback(d: nat)
      requires P.Enabled(Value(), P.Finally(d))
      modifies this
      ensures Value() == P.Step(old(Value()), P.Finally(d))
      ensures old(P.Inv(Value())) ==> P.Inv(Value())
    {
      hide P.Inv;
      if old(P.Inv(Value())) { P.StepKeepsInv(Value(), P.Finally(d)); }
      refreshPromise := None;
      drains := drains[d := drains[d].(phase := P.Closed(drains[d].phase.result))];
      clock := clock + 1;
    }
  }
}
