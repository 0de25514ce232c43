// What the service does over any inputs: which sources it takes to be connected, how long it stays in
// a phase, where it goes from there, and how it ends.
module Lifecycle {
  import opened Types
  import opened Staging
  import opened Rotation
  import opened Service
  import opened ServiceSafety
  import opened SessionLog
  import Fetcher

  ghost predicate Running(m: Machine) {
    !m.phase.Stopped? && !m.phase.Crashed?
  }

  // ----- The connected sources -----

  // The last connection or loss of the source among the inputs is a connection.
  ghost predicate IsUp(inputs: seq<Input>, s: nat) {
    exists i :: 0 <= i < |inputs| && inputs[i] == FromSource(Connected(s)) && NotLostSince(inputs, i, s)
  }

  ghost predicate NotLostSince(inputs: seq<Input>, i: int, s: nat) {
    forall j :: i < j < |inputs| && 0 <= j ==> inputs[j] != FromSource(Disconnected(s))
  }

  lemma IsUpSnoc(inputs: seq<Input>, input: Input, s: nat)
    ensures IsUp(inputs + [input], s)
            <==> input == FromSource(Connected(s)) || (IsUp(inputs, s) && input != FromSource(Disconnected(s)))
  {
    var all, n := inputs + [input], |inputs|;
    assert all[n] == input && forall j :: 0 <= j < n ==> all[j] == inputs[j];
    if input == FromSource(Connected(s)) {
      assert NotLostSince(all, n, s);
    }
    if IsUp(inputs, s) && input != FromSource(Disconnected(s)) {
      var i :| 0 <= i < n && inputs[i] == FromSource(Connected(s)) && NotLostSince(inputs, i, s);
      assert NotLostSince(all, i, s);
    }
    if IsUp(all, s) && input != FromSource(Connected(s)) {
      var i :| 0 <= i < |all| && all[i] == FromSource(Connected(s)) && NotLostSince(all, i, s);
      assert NotLostSince(inputs, i, s);
    }
  }

  lemma ConnectedStep(cfg: Config, m: Machine, input: Input, s: nat)
    requires Running(Service.Step(cfg, m, input))
    ensures Running(m)
    ensures s in Service.Step(cfg, m, input).connected
            <==> input == FromSource(Connected(s)) || (s in m.connected && input != FromSource(Disconnected(s)))
  {
  }

  // In every run that has not ended, the machine's connected sources are those that are up.
  lemma {:induction false} ConnectedIsUp(cfg: Config, inputs: seq<Input>, s: nat)
    requires Running(RunMachine(cfg, Start(cfg), inputs))
    ensures s in RunMachine(cfg, Start(cfg), inputs).connected <==> IsUp(inputs, s)
  {
    if inputs == [] {
    } else {
      var n := |inputs| - 1;
      ConnectedStep(cfg, RunMachine(cfg, Start(cfg), inputs[..n]), inputs[n], s);
      ConnectedIsUp(cfg, inputs[..n], s);
      IsUpSnoc(inputs[..n], inputs[n], s);
      assert inputs[..n] + [inputs[n]] == inputs;
    }
  }

  // The service waits exactly when no source is up; otherwise it bootstraps from or serves one that is,
  // and names it while serving.
  lemma WaitsIffNoneIsUp(cfg: Config, inputs: seq<Input>)
    requires cfg.urls != [] && LegalRun(cfg, Start(cfg), inputs) && Running(RunMachine(cfg, Start(cfg), inputs))
    ensures var m := RunMachine(cfg, Start(cfg), inputs);
            && (m.phase.Waiting? <==> forall s :: !IsUp(inputs, s))
            && (!m.phase.Waiting? ==> IsUp(inputs, m.active) && m.active < |cfg.urls|)
            && (m.phase.Serving? ==> m.store.ready && m.store.activeUrl == Some(cfg.urls[m.active]))
            && (!m.phase.Serving? ==> !m.store.ready)
  {
    EveryRunIsSafe(cfg, inputs);
    forall s
      ensures s in RunMachine(cfg, Start(cfg), inputs).connected <==> IsUp(inputs, s)
    {
      ConnectedIsUp(cfg, inputs, s);
    }
  }

  // When the source in use is lost or fails to decode, the service takes the nearest source that is up
  // after that, itself only if there is no other, and bootstraps anew from it; or it waits. It is
  // unready either way, and what it served stays where it was.
  lemma FailoverIsNearestUp(cfg: Config, inputs: seq<Input>, input: Input)
    requires cfg.urls != [] && LegalRun(cfg, Start(cfg), inputs)
    requires var m := RunMachine(cfg, Start(cfg), inputs);
             && (m.phase.Serving? || (m.phase.Bootstrapping? && (input == FromSource(Disconnected(m.active))
                                                                  || |m.phase.buffered| < cfg.capacity)))
             && SourceFails(cfg, m.active, input)
    ensures var m, after := RunMachine(cfg, Start(cfg), inputs), inputs + [input];
            var next := RunMachine(cfg, Start(cfg), after);
            && m.active < |cfg.urls| && next.store == m.store.(ready := false)
            && (if forall s :: !IsUp(after, s) then next.phase == Waiting
                else
                  && next.phase == Bootstrapping([]) && IsUp(after, next.active) && next.active < |cfg.urls|
                  && (forall s: nat :: IsUp(after, s) && s < |cfg.urls| ==>
                        Distance(m.active, next.active, |cfg.urls|) <= Distance(m.active, s, |cfg.urls|))
                  && (next.active == m.active ==> forall s :: IsUp(after, s) ==> s == m.active))
  {
    var m, after := RunMachine(cfg, Start(cfg), inputs), inputs + [input];
    var next := RunMachine(cfg, Start(cfg), after);
    assert after[..|inputs|] == inputs;
    EveryRunIsSafe(cfg, inputs);
    FailoverIsNearest(cfg, m, input.e);
    forall s
      ensures s in next.connected <==> IsUp(after, s)
    {
      ConnectedIsUp(cfg, after, s);
    }
    assert next.connected <= m.connected;
  }

  // ----- Staying in a phase -----

  // Nothing that ends the service or fails the source.
  predicate Quiet(cfg: Config, source: nat, input: Input) {
    !input.Shutdown? && !input.SourcesStopped? && !SourceFails(cfg, source, input)
  }

  ghost predicate AllQuiet(cfg: Config, source: nat, inputs: seq<Input>) {
    forall i :: 0 <= i < |inputs| ==> Quiet(cfg, source, inputs[i])
  }

  // It serves on from the same source as long as that does not fail.
  lemma {:induction false} ServesOn(cfg: Config, m: Machine, inputs: seq<Input>)
    requires m.phase.Serving? && AllQuiet(cfg, m.active, inputs)
    ensures var end := RunMachine(cfg, m, inputs);
            end.phase.Serving? && end.active == m.active && (m.store.ready ==> end.store.ready)
  {
    if inputs == [] {
    } else {
      ServesOn(cfg, m, inputs[..|inputs| - 1]);
    }
  }

  lemma BootstrapStays(cfg: Config, m: Machine, input: Input)
    requires m.phase.Bootstrapping? && |m.phase.buffered| <= cfg.capacity
    requires Quiet(cfg, m.active, input) && !input.FetchFinished?
    ensures var next, buffered := Service.Step(cfg, m, input), m.phase.buffered + EventOf(cfg, m.active, input);
            next == if |buffered| <= cfg.capacity
                    then m.(phase := Bootstrapping(buffered), connected := next.connected)
                    else m.(phase := Crashed)
  {
    assert m.phase.buffered + [] == m.phase.buffered;
  }

  // It bootstraps on from the same source, buffering, until the fetch comes in, the source fails, or more
  // events have come than fit, which is fatal.
  lemma {:induction false} BootstrapsOn(cfg: Config, m: Machine, inputs: seq<Input>)
    requires m.phase.Bootstrapping? && |m.phase.buffered| <= cfg.capacity && AllQuiet(cfg, m.active, inputs)
    requires forall i :: 0 <= i < |inputs| ==> !inputs[i].FetchFinished?
    ensures var end, buffered := RunMachine(cfg, m, inputs), m.phase.buffered + Received(cfg, m.active, inputs);
            && end.active == m.active && end.store == m.store
            && end.phase == if |buffered| <= cfg.capacity then Bootstrapping(buffered) else Crashed
  {
    if inputs == [] {
      assert m.phase.buffered + [] == m.phase.buffered;
    } else {
      var n := |inputs| - 1;
      BootstrapsOn(cfg, m, inputs[..n]);
      var before := m.phase.buffered + Received(cfg, m.active, inputs[..n]);
      assert m.phase.buffered + Received(cfg, m.active, inputs) == before + EventOf(cfg, m.active, inputs[n]);
      if |before| <= cfg.capacity {
        BootstrapStays(cfg, RunMachine(cfg, m, inputs[..n]), inputs[n]);
      }
    }
  }

  // With a full buffer even an update that does not decode is fatal: there is no failover.
  lemma FullBufferIsFatal(cfg: Config, m: Machine, e: SourceEvent)
    requires m.phase.Bootstrapping? && |m.phase.buffered| >= cfg.capacity
    requires (e.AccountUpdate? || e.SlotConfirmed?) && e.source == m.active
    ensures Service.Step(cfg, m, FromSource(e)) == m.(phase := Crashed)
  {
  }

  // A fetch ends a bootstrap: with success it serves from the same source, and without it tries again
  // from the same source with an empty buffer.
  lemma FetchEndsBootstrap(cfg: Config, inputs: seq<Input>, result: Option<Fetcher.Fetched>)
    requires cfg.urls != [] && LegalRun(cfg, Start(cfg), inputs + [FetchFinished(result)])
    requires RunMachine(cfg, Start(cfg), inputs).phase.Bootstrapping?
    ensures var m, next := RunMachine(cfg, Start(cfg), inputs), RunMachine(cfg, Start(cfg),
      inputs + [FetchFinished(result)]);
            && next.active == m.active && next.connected == m.connected
            && (result.None? ==> next.phase == Bootstrapping([]) && next.store == m.store)
            && (result.Some? ==>
                  && next.phase.Serving? && next.phase.refresh == None && next.store.ready
                  && next.phase.updater == StateOf(Lineage(result.value, SinceBegan(cfg, inputs) + [FinishRecovery])))
  {
    var all := inputs + [FetchFinished(result)];
    assert all[..|inputs|] == inputs;
    LegalPrefix(cfg, Start(cfg), all, |inputs|);
    EveryRunIsSafe(cfg, inputs);
    if result.Some? {
      InstallsState(cfg, inputs, FetchFinished(result));
    }
  }

  // It waits until a source connects, and then bootstraps from that one.
  lemma {:induction false} WaitsOn(cfg: Config, m: Machine, inputs: seq<Input>)
    requires m.phase.Waiting?
    requires forall i :: 0 <= i < |inputs| ==>
               !inputs[i].Shutdown? && !inputs[i].SourcesStopped? && !(inputs[i].FromSource? && inputs[i].e.Connected?)
    ensures var end := RunMachine(cfg, m, inputs);
            && end.phase.Waiting? && end.active == m.active && end.store == m.store
            && forall s :: RunMachine(cfg, end, [FromSource(Connected(s))]).phase == Bootstrapping([])
                           && RunMachine(cfg, end, [FromSource(Connected(s))]).active == s
  {
    if inputs == [] {
    } else {
      WaitsOn(cfg, m, inputs[..|inputs| - 1]);
    }
    var end := RunMachine(cfg, m, inputs);
    forall s
      ensures RunMachine(cfg, end, [FromSource(Connected(s))]) == Service.Step(cfg, end, FromSource(Connected(s)))
    {
      assert [FromSource(Connected(s))][..0] == [];
    }
  }

  // ----- A refresh -----

  lemma RefreshStays(cfg: Config, m: Machine, input: Input)
    requires Refreshing(m) && |m.phase.refresh.value.buffered| <= cfg.capacity
    requires Quiet(cfg, m.active, input) && !input.FetchFinished?
    ensures var next, r := Service.Step(cfg, m, input), m.phase.refresh.value;
            var buffered := r.buffered + EventOf(cfg, m.active, input);
            && next.phase.Serving? && next.active == m.active
            && next.phase.refresh == if |buffered| <= cfg.capacity then Some(r.(buffered := buffered)) else None
  {
    assert m.phase.refresh.value.buffered + [] == m.phase.refresh.value.buffered;
  }

  // A refresh that falls due while none is in progress starts, asking for the confirmed slot, and goes on
  // while its fetch is out and the events since it began fit.
  lemma {:induction false} RefreshGoesOn(cfg: Config, m: Machine, inputs: seq<Input>)
    requires m.phase.Serving? && m.phase.refresh.None? && AllQuiet(cfg, m.active, inputs)
    requires forall i :: 0 <= i < |inputs| ==> !inputs[i].FetchFinished?
    requires |Received(cfg, m.active, inputs)| <= cfg.capacity
    ensures var end := RunMachine(cfg, Service.Step(cfg, m, RefreshDue), inputs);
            && end.phase.Serving? && end.active == m.active
            && end.phase.refresh == Some(Refresh(m.phase.updater.confirmed, Received(cfg, m.active, inputs)))
  {
    if inputs == [] {
    } else {
      var n := |inputs| - 1;
      RefreshGoesOn(cfg, m, inputs[..n]);
      RefreshStays(cfg, RunMachine(cfg, Service.Step(cfg, m, RefreshDue), inputs[..n]), inputs[n]);
    }
  }

  // The first event that does not fit aborts it.
  lemma RefreshOverflows(cfg: Config, m: Machine, inputs: seq<Input>, input: Input)
    requires m.phase.Serving? && m.phase.refresh.None? && AllQuiet(cfg, m.active, inputs)
    requires forall i :: 0 <= i < |inputs| ==> !inputs[i].FetchFinished?
    requires Quiet(cfg, m.active, input) && !input.FetchFinished?
    requires |Received(cfg, m.active, inputs)| <= cfg.capacity < |Received(cfg, m.active, inputs + [input])|
    ensures var end := RunMachine(cfg, Service.Step(cfg, m, RefreshDue), inputs + [input]);
            end.phase.Serving? && end.active == m.active && end.phase.refresh == None
  {
    RefreshGoesOn(cfg, m, inputs);
    ReceivedSnoc(cfg, m.active, inputs, input);
    assert (inputs + [input])[..|inputs|] == inputs;
    RefreshStays(cfg, RunMachine(cfg, Service.Step(cfg, m, RefreshDue), inputs), input);
  }

  // A refresh whose fetch fails is over, and nothing else changes; with none in progress, a fetch result
  // changes nothing at all.
  lemma FetchEndsRefresh(cfg: Config, m: Machine, result: Option<Fetcher.Fetched>)
    requires m.phase.Serving? && (result.None? || m.phase.refresh.None?)
    ensures Service.Step(cfg, m, FetchFinished(result)) == m.(phase := Serving(m.phase.updater, None))
  {
  }

  // ----- The end -----

  // After a shutdown the service is unready for good; when all sources have stopped it has failed, and
  // leaves what it served as it was.
  lemma {:induction false} EndsForGood(cfg: Config, m: Machine, input: Input, inputs: seq<Input>)
    requires Running(m) && (input.Shutdown? || input.SourcesStopped?)
    ensures var end := RunMachine(cfg, Service.Step(cfg, m, input), inputs);
            if input.Shutdown? then end.phase.Stopped? && end.store == m.store.(ready := false)
            else end.phase.Crashed? && end.store == m.store
  {
    if inputs == [] {
    } else {
      EndsForGood(cfg, m, input, inputs[..|inputs| - 1]);
    }
  }
}
