// Safety of every run of the updater service.
module ServiceSafety {
  import opened Types
  import opened Writes
  import opened Gate
  import opened Staging
  import opened Rotation
  import opened Service
  import Replay
  import Fetcher

  // ----- Well-formedness travels from the fetch and the stream to the served map -----

  ghost predicate WellFormedEvents(c: Codec, es: seq<Event>) {
    forall i :: 0 <= i < |es| ==>
      es[i] != FinishRecovery && (es[i].Put? && es[i].w.account.Some? ==>
        WellFormed(c, es[i].w.key, es[i].w.account.value))
  }

  ghost predicate WellFormedPending(c: Codec, pending: Pending) {
    forall s, i :: s in pending && 0 <= i < |pending[s]| && pending[s][i].account.Some? ==>
      WellFormed(c, pending[s][i].key, pending[s][i].account.value)
  }

  ghost predicate WellFormedState(c: Codec, s: State) {
    AllWellFormed(c, s.accounts) && WellFormedPending(c, s.pending)
  }

  lemma {:induction false} ApplyKeepsWellFormed(c: Codec, m: Accounts, ms: seq<Mutation>)
    requires AllWellFormed(c, m)
    requires forall i :: 0 <= i < |ms| && ms[i].account.Some? ==> WellFormed(c, ms[i].key, ms[i].account.value)
    ensures AllWellFormed(c, ApplyMutations(m, ms))
  {
    if ms == [] {
    } else {
      ApplyKeepsWellFormed(c, m, ms[..|ms| - 1]);
    }
  }

  lemma {:induction false} DrainKeepsWellFormed(c: Codec, m: Accounts, pending: Pending, t: nat)
    requires AllWellFormed(c, m) && WellFormedPending(c, pending)
    ensures AllWellFormed(c, DrainThrough(m, pending, t))
  {
    if t == 0 {
    } else {
      DrainKeepsWellFormed(c, m, pending, t - 1);
    }
    if t in pending {
      ApplyKeepsWellFormed(c, if t == 0 then m else DrainThrough(m, pending, t - 1), pending[t]);
    }
  }

  lemma StageKeepsWellFormed(c: Codec, pending: Pending, w: Write)
    requires WellFormedPending(c, pending) && (w.account.Some? ==> WellFormed(c, w.key, w.account.value))
    ensures WellFormedPending(c, Stage(pending, w))
  {
  }

  lemma StepKeepsWellFormed(c: Codec, s: State, e: Event)
    requires WellFormedState(c, s)
    requires e.Put? && e.w.account.Some? ==> WellFormed(c, e.w.key, e.w.account.value)
    ensures WellFormedState(c, Staging.Step(s, e))
  {
    match e
    case Put(w) => StageKeepsWellFormed(c, s.pending, w);
    case Confirmed(t) => DrainKeepsWellFormed(c, s.accounts, s.pending, t);
    case FinishRecovery => DrainKeepsWellFormed(c, s.accounts, s.pending, s.confirmed);
  }

  lemma {:induction false} RunKeepsWellFormed(c: Codec, s: State, es: seq<Event>)
    requires WellFormedState(c, s) && WellFormedEvents(c, es)
    ensures WellFormedState(c, Run(s, es))
  {
    if es == [] {
    } else {
      RunKeepsWellFormed(c, s, es[..|es| - 1]);
      StepKeepsWellFormed(c, Run(s, es[..|es| - 1]), es[|es| - 1]);
    }
  }

  // ----- The invariant -----

  ghost predicate SourcesKnown(cfg: Config, m: Machine) {
    m.active < |cfg.urls| && forall s :: s in m.connected ==> s < |cfg.urls|
  }

  ghost predicate PhaseInv(cfg: Config, m: Machine) {
    match m.phase
    case Waiting => m.connected == {}
    case Bootstrapping(buffered) =>
      m.active in m.connected && |buffered| <= cfg.capacity && WellFormedEvents(cfg.codec, buffered)
    case Serving(u, refresh) =>
      && m.active in m.connected
      && !u.recovering
      && m.store.current.slot == u.confirmed
      && m.store.activeUrl == Some(Url(cfg, m.active))
      && WellFormedState(cfg.codec, u)
      && (refresh.Some? ==>
            var r := refresh.value;
            && |r.buffered| <= cfg.capacity
            && WellFormedEvents(cfg.codec, r.buffered)
            && u.confirmed == MaxConfirmed(r.minimum, r.buffered))
    case _ => true
  }

  // Ready exactly while serving (a crash ends the process where it stands); then the active source
  // is connected and named, the served slot is the updater's confirmed slot, and every served
  // account is well formed. Buffers never exceed the capacity.
  ghost predicate Inv(cfg: Config, m: Machine) {
    && SourcesKnown(cfg, m)
    && (m.phase.Crashed? || (m.store.ready <==> m.phase.Serving?))
    && AllWellFormed(cfg.codec, m.store.current.accounts)
    && PhaseInv(cfg, m)
  }

  // Whatever the provider replies, the fetch loop hands the service a legal result: it is asked for
  // the refresh's minimum, or for none while bootstrapping.
  lemma FetchResultsAreLegal(cfg: Config, m: Machine, replies: seq<Fetcher.Reply>)
    ensures var minimum := if Refreshing(m) then Some(m.phase.refresh.value.minimum) else None;
            var r := Fetcher.Outcome(cfg.codec, minimum, Fetcher.START, replies);
            Legal(cfg, m, FetchFinished(if r.Ok? then Some(r.value) else None))
  {
    var minimum := if Refreshing(m) then Some(m.phase.refresh.value.minimum) else None;
    if Fetcher.Outcome(cfg.codec, minimum, Fetcher.START, replies).Ok? {
      Fetcher.FetchedIsWellFormed(cfg.codec, minimum, Fetcher.START, replies);
    }
  }

  lemma SelectKeepsSources(cfg: Config, m: Machine)
    requires SourcesKnown(cfg, m)
    ensures SourcesKnown(cfg, SelectNext(cfg, m))
    ensures SelectNext(cfg, m).connected == m.connected && SelectNext(cfg, m).store == m.store
    ensures m.connected != {} ==> SelectNext(cfg, m).active in m.connected
  {
    NextIsNearest(m.active, m.connected, |cfg.urls|);
    if m.connected != {} {
      var s :| s in m.connected;
    }
  }

  lemma EnterWaitInv(cfg: Config, m: Machine)
    requires SourcesKnown(cfg, m) && AllWellFormed(cfg.codec, m.store.current.accounts)
    ensures Inv(cfg, EnterWait(cfg, m))
    ensures !EnterWait(cfg, m).phase.Serving?
  {
    SelectKeepsSources(cfg, m.(store := m.store.(ready := false)));
  }

  lemma RotateInv(cfg: Config, m: Machine)
    requires SourcesKnown(cfg, m) && AllWellFormed(cfg.codec, m.store.current.accounts)
    ensures Inv(cfg, Rotate(cfg, m))
    ensures !Rotate(cfg, m).phase.Serving?
  {
    SelectKeepsSources(cfg, m);
    EnterWaitInv(cfg, SelectNext(cfg, m));
  }

  lemma RecoveredState(cfg: Config, f: Fetcher.Fetched, buffered: seq<Event>)
    requires AllWellFormed(cfg.codec, f.accounts) && WellFormedEvents(cfg.codec, buffered)
    ensures WellFormedState(cfg.codec, Recovered(f, buffered))
    ensures !Recovered(f, buffered).recovering
    ensures Recovered(f, buffered).confirmed == MaxConfirmed(f.contextSlot, buffered)
  {
    var start := FromFetched(f.contextSlot, f.accounts);
    RunKeepsWellFormed(cfg.codec, start, buffered);
    StepKeepsWellFormed(cfg.codec, Run(start, buffered), FinishRecovery);
    ConfirmedMonotone(start, buffered);
  }

  lemma InstallInv(cfg: Config, m: Machine, f: Fetcher.Fetched, buffered: seq<Event>)
    requires SourcesKnown(cfg, m) && m.active in m.connected && AllWellFormed(cfg.codec, m.store.current.accounts)
    requires AllWellFormed(cfg.codec, f.accounts) && WellFormedEvents(cfg.codec, buffered)
    ensures Inv(cfg, Install(cfg, m, f, buffered))
  {
    RecoveredState(cfg, f, buffered);
  }

  lemma EventWellFormed(cfg: Config, e: SourceEvent)
    requires e.AccountUpdate? || e.SlotConfirmed?
    ensures StateEvent(cfg, e).Some? ==> WellFormedEvents(cfg.codec, [StateEvent(cfg, e).value])
  {
    if e.AccountUpdate? && DecodeUpdate(cfg.codec, e.update).Ok? {
      DecodedIsWellFormed(cfg.codec, e.update);
    }
  }

  lemma BootstrapInv(cfg: Config, m: Machine, e: SourceEvent)
    requires Inv(cfg, m) && m.phase.Bootstrapping? && e.source < |cfg.urls|
    ensures Inv(cfg, BootstrapStep(cfg, m, e))
  {
    match e
    case Connected(_) =>
    case Disconnected(source) =>
      if source == m.active {
        RotateInv(cfg, m.(connected := m.connected - {source}));
      }
    case _ =>
      if e.source == m.active && |m.phase.buffered| < cfg.capacity {
        EventWellFormed(cfg, e);
        if StateEvent(cfg, e).None? {
          RotateInv(cfg, m);
        }
      }
  }

  // One consumed event: the updater, its publication and the refresh buffer move together.
  lemma ServeEventInv(cfg: Config, m: Machine, event: Event)
    requires Inv(cfg, m) && m.phase.Serving? && WellFormedEvents(cfg.codec, [event])
    ensures var u := m.phase.updater;
            var next := m.(phase := Serving(Staging.Step(u, event), Buffer(m.phase.refresh, event, cfg.capacity)),
                           store := Publication(Url(cfg, m.active), u, event, m.store));
            Inv(cfg, next) && m.store.current.slot <= next.store.current.slot
  {
    var u := m.phase.updater;
    assert [event][0] == event;
    StepKeepsWellFormed(cfg.codec, u, event);
    if m.phase.refresh.Some? {
      var r := m.phase.refresh.value;
      assert (r.buffered + [event])[..|r.buffered|] == r.buffered;
    }
  }

  lemma ServeInv(cfg: Config, m: Machine, e: SourceEvent)
    requires Inv(cfg, m) && m.phase.Serving? && e.source < |cfg.urls|
    ensures var next := ServeStep(cfg, m, e);
            Inv(cfg, next) && (next.phase.Serving? ==> m.store.current.slot <= next.store.current.slot)
  {
    match e
    case Connected(_) =>
    case Disconnected(source) =>
      if source == m.active {
        RotateInv(cfg, m.(connected := m.connected - {source}));
      }
    case _ =>
      if e.source == m.active {
        EventWellFormed(cfg, e);
        match StateEvent(cfg, e)
        case None => RotateInv(cfg, m);
        case Some(event) => ServeEventInv(cfg, m, event);
      }
  }

  // A refresh never lowers the served slot: it was asked for at least the slot confirmed when it
  // began, and it replays every confirm since.
  lemma RefreshRaises(cfg: Config, m: Machine, f: Fetcher.Fetched)
    requires Inv(cfg, m) && m.phase.Serving? && m.phase.refresh.Some?
    requires Legal(cfg, m, FetchFinished(Some(f)))
    ensures m.store.current.slot <= Install(cfg, m, f, m.phase.refresh.value.buffered).store.current.slot
  {
    var r := m.phase.refresh.value;
    RecoveredState(cfg, f, r.buffered);
    Replay.MaxConfirmedFrom(r.minimum, f.contextSlot, r.buffered);
  }

  lemma StepInv(cfg: Config, m: Machine, input: Input)
    requires Inv(cfg, m) && Legal(cfg, m, input)
    ensures var next := Service.Step(cfg, m, input);
            && Inv(cfg, next)
            && (m.phase.Serving? && next.phase.Serving? ==> m.store.current.slot <= next.store.current.slot)
  {
    match (m.phase, input)
    case (Bootstrapping(_), FromSource(e)) => BootstrapInv(cfg, m, e);
    case (Bootstrapping(buffered), FetchFinished(Some(f))) => InstallInv(cfg, m, f, buffered);
    case (Bootstrapping(_), FetchFinished(None)) => EnterWaitInv(cfg, m);
    case (Serving(_, _), FromSource(e)) => ServeInv(cfg, m, e);
    case (Serving(_, Some(r)), FetchFinished(Some(f))) =>
      InstallInv(cfg, m, f, r.buffered);
      RefreshRaises(cfg, m, f);
    case _ =>
  }

  // The invariant holds at every wait point of every run.
  lemma {:induction false} EveryRunIsSafe(cfg: Config, inputs: seq<Input>)
    requires cfg.urls != [] && LegalRun(cfg, Start(cfg), inputs)
    ensures Inv(cfg, RunMachine(cfg, Start(cfg), inputs))
  {
    if inputs == [] {
      EnterWaitInv(cfg, NOTHING);
    } else {
      var n := |inputs| - 1;
      LegalPrefix(cfg, Start(cfg), inputs, n);
      EveryRunIsSafe(cfg, inputs[..n]);
      StepInv(cfg, RunMachine(cfg, Start(cfg), inputs[..n]), inputs[n]);
    }
  }

  lemma {:induction false} RunKeepsInv(cfg: Config, m: Machine, inputs: seq<Input>)
    requires Inv(cfg, m) && LegalRun(cfg, m, inputs)
    ensures Inv(cfg, RunMachine(cfg, m, inputs))
  {
    if inputs == [] {
    } else {
      var n := |inputs| - 1;
      LegalPrefix(cfg, m, inputs, n);
      RunKeepsInv(cfg, m, inputs[..n]);
      StepInv(cfg, RunMachine(cfg, m, inputs[..n]), inputs[n]);
    }
  }

  lemma LastStepRaises(cfg: Config, m: Machine, inputs: seq<Input>)
    requires Inv(cfg, m) && LegalRun(cfg, m, inputs) && inputs != []
    ensures var before, after := RunMachine(cfg, m, inputs[..|inputs| - 1]), RunMachine(cfg, m, inputs);
            before.phase.Serving? && after.phase.Serving? ==> before.store.current.slot <= after.store.current.slot
  {
    var n := |inputs| - 1;
    LegalPrefix(cfg, m, inputs, n);
    RunKeepsInv(cfg, m, inputs[..n]);
    StepInv(cfg, RunMachine(cfg, m, inputs[..n]), inputs[n]);
  }

  // While the service keeps serving, the served slot never goes down, across any number of
  // refreshes that complete, fail or overflow.
  lemma {:induction false} ServedSlotNeverFalls(cfg: Config, m: Machine, inputs: seq<Input>, n: nat)
    requires Inv(cfg, m) && LegalRun(cfg, m, inputs) && n <= |inputs|
    requires forall i :: n <= i <= |inputs| ==> RunMachine(cfg, m, inputs[..i]).phase.Serving?
    ensures RunMachine(cfg, m, inputs[..n]).store.current.slot <= RunMachine(cfg, m, inputs).store.current.slot
    decreases |inputs|
  {
    var k := |inputs| - 1;
    assert inputs[..|inputs|] == inputs;
    if n <= k {
      LegalPrefix(cfg, m, inputs, k);
      assert forall i :: 0 <= i <= k ==> inputs[..k][..i] == inputs[..i];
      ServedSlotNeverFalls(cfg, m, inputs[..k], n);
      LastStepRaises(cfg, m, inputs);
    }
  }

  // Between sessions it may fall: bootstrap asks for no minimum slot, so after a reconnection the
  // served slot is whatever the provider's context slot is.
  lemma SlotMayFallBetweenSessions(cfg: Config, m: Machine, f: Fetcher.Fetched)
    requires Inv(cfg, m) && m.phase.Serving? && m.connected == {m.active}
    requires AllWellFormed(cfg.codec, f.accounts)
    ensures var inputs := [FromSource(Disconnected(m.active)), FromSource(Connected(m.active)), FetchFinished(Some(f))];
            var next := RunMachine(cfg, m, inputs);
            LegalRun(cfg, m, inputs) && next.phase.Serving? && next.store.current.slot == f.contextSlot
  {
    var a, b, d := FromSource(Disconnected(m.active)), FromSource(Connected(m.active)), FetchFinished(Some(f));
    var inputs := [a, b, d];
    var left := m.(connected := {});
    assert m.connected - {m.active} == {};
    NextIsNearest(m.active, {}, |cfg.urls|);
    var m1 := Service.Step(cfg, m, a);
    assert m1 == left.(store := m.store.(ready := false), phase := Waiting);
    var m2 := Service.Step(cfg, m1, b);
    assert m2.phase == Bootstrapping([]);
    var m3 := Service.Step(cfg, m2, d);
    RecoveredState(cfg, f, []);
    assert m3 == Install(cfg, m2, f, []);
    RunThree(cfg, m, a, b, d);
    assert inputs[..0] == [] && inputs[..1] == [a] && inputs[..2] == [a, b];
  }

  lemma RunThree(cfg: Config, m: Machine, a: Input, b: Input, d: Input)
    ensures RunMachine(cfg, m, [a]) == Service.Step(cfg, m, a)
    ensures RunMachine(cfg, m, [a, b]) == Service.Step(cfg, Service.Step(cfg, m, a), b)
    ensures RunMachine(cfg, m, [a, b, d]) == Service.Step(cfg, Service.Step(cfg, Service.Step(cfg, m, a), b), d)
  {
    assert [a][..0] == [] && [a, b][..1] == [a] && [a, b, d][..2] == [a, b];
    assert RunMachine(cfg, m, []) == m;
  }

  // When the active source is lost or sends an update that does not decode, the cache is unready and
  // bootstraps from the nearest other source that is connected (from itself only if there is no
  // other), or waits if none is.
  lemma FailoverIsNearest(cfg: Config, m: Machine, e: SourceEvent)
    requires Inv(cfg, m) && e.source == m.active
    requires m.phase.Serving? || (m.phase.Bootstrapping? && (e.Disconnected? || |m.phase.buffered| < cfg.capacity))
    requires e.Disconnected? || (e.AccountUpdate? && StateEvent(cfg, e).None?)
    ensures var left := if e.Disconnected? then m.connected - {m.active} else m.connected;
            var next := Service.Step(cfg, m, FromSource(e));
            && next.connected == left && next.store == m.store.(ready := false)
            && (left == {} ==> next.phase == Waiting)
            && (left != {} ==>
                  && next.phase == Bootstrapping([]) && next.active in left
                  && (forall s :: s in left ==>
                        Distance(m.active, next.active, |cfg.urls|) <= Distance(m.active, s, |cfg.urls|))
                  && (next.active == m.active ==> left == {m.active}))
  {
    RotatesToNearest(cfg, if e.Disconnected? then m.(connected := m.connected - {m.active}) else m);
  }

  lemma RotatesToNearest(cfg: Config, m: Machine)
    requires SourcesKnown(cfg, m)
    ensures var next := Rotate(cfg, m);
            && next.connected == m.connected && next.store == m.store.(ready := false)
            && (m.connected == {} ==> next.phase == Waiting)
            && (m.connected != {} ==>
                  && next.phase == Bootstrapping([]) && next.active in m.connected
                  && (forall s :: s in m.connected ==>
                        Distance(m.active, next.active, |cfg.urls|) <= Distance(m.active, s, |cfg.urls|))
                  && (next.active == m.active ==> m.connected == {m.active}))
  {
    NextIsNearest(m.active, m.connected, |cfg.urls|);
    if m.connected != {} {
      var s :| s in m.connected;
    }
  }

  // ----- Inactive sources cannot interfere -----

  // An account or confirm event from a source that is not active when it is consumed.
  predicate Ignored(m: Machine, input: Input) {
    input.FromSource? && (input.e.AccountUpdate? || input.e.SlotConfirmed?)
      && (m.phase.Waiting? || input.e.source != m.active)
  }

  function WithoutIgnored(cfg: Config, m: Machine, inputs: seq<Input>): seq<Input> {
    if inputs == [] then []
    else
      var n := |inputs| - 1;
      var rest := WithoutIgnored(cfg, m, inputs[..n]);
      if Ignored(RunMachine(cfg, m, inputs[..n]), inputs[n]) then rest else rest + [inputs[n]]
  }

  // Deleting every such event from a run changes nothing: phase, active source, buffers, updater
  // and published snapshots are all the same.
  lemma {:induction false} InactiveSourcesCannotInterfere(cfg: Config, m: Machine, inputs: seq<Input>)
    ensures RunMachine(cfg, m, WithoutIgnored(cfg, m, inputs)) == RunMachine(cfg, m, inputs)
  {
    if inputs == [] {
    } else {
      var n := |inputs| - 1;
      InactiveSourcesCannotInterfere(cfg, m, inputs[..n]);
      var rest := WithoutIgnored(cfg, m, inputs[..n]);
      assert (rest + [inputs[n]])[..|rest|] == rest;
      if Ignored(RunMachine(cfg, m, inputs[..n]), inputs[n]) {
        IgnoredDoesNothing(cfg, RunMachine(cfg, m, inputs[..n]), inputs[n]);
      }
    }
  }

  lemma IgnoredDoesNothing(cfg: Config, m: Machine, input: Input)
    requires Ignored(m, input)
    ensures Service.Step(cfg, m, input) == m
  {
  }
}
