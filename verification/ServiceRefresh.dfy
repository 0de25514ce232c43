// A background refresh, start to installation, inside the service.
module ServiceRefresh {
  import opened Types
  import opened Staging
  import opened Service
  import opened SessionLog
  import Replay
  import Fetcher

  // The refresh stays in progress all along the inputs.
  ghost predicate KeepsRefreshing(cfg: Config, m: Machine, inputs: seq<Input>) {
    forall i :: 0 <= i <= |inputs| ==> Refreshing(RunMachine(cfg, m, inputs[..i]))
  }

  lemma ShadowStep(cfg: Config, m: Machine, input: Input)
    requires Refreshing(m) && Refreshing(Service.Step(cfg, m, input))
    ensures var next, r := Service.Step(cfg, m, input), m.phase.refresh.value;
            && next.phase.updater == Run(m.phase.updater, EventOf(cfg, m.active, input))
            && next.phase.refresh == Some(Refresh(r.minimum, r.buffered + EventOf(cfg, m.active, input)))
            && next.active == m.active
  {
    var es := EventOf(cfg, m.active, input);
    if es != [] {
      assert es[..0] == [];
      assert Run(m.phase.updater, es) == Staging.Step(m.phase.updater, es[0]);
    } else {
      assert m.phase.refresh.value.buffered + [] == m.phase.refresh.value.buffered;
    }
  }

  // The live updater consumes, and the refresh buffers, exactly the events taken since it began.
  lemma {:induction false} RefreshShadowsLive(cfg: Config, m: Machine, inputs: seq<Input>)
    requires Refreshing(m) && m.phase.refresh.value.buffered == [] && KeepsRefreshing(cfg, m, inputs)
    ensures var next := RunMachine(cfg, m, inputs);
            && Refreshing(next)
            && next.phase.updater == Run(m.phase.updater, Received(cfg, m.active, inputs))
            && next.phase.refresh == Some(Refresh(m.phase.refresh.value.minimum, Received(cfg, m.active, inputs)))
            && next.active == m.active
  {
    assert inputs[..|inputs|] == inputs;
    if inputs == [] {
    } else {
      var n := |inputs| - 1;
      assert forall i :: 0 <= i <= n ==> inputs[..n][..i] == inputs[..i];
      RefreshShadowsLive(cfg, m, inputs[..n]);
      var before := RunMachine(cfg, m, inputs[..n]);
      ShadowStep(cfg, before, inputs[n]);
      Staging.RunConcat(m.phase.updater, Received(cfg, m.active, inputs[..n]), EventOf(cfg, m.active, inputs[n]));
    }
  }

  lemma InstallsRefresh(cfg: Config, m: Machine, f: Fetcher.Fetched)
    requires Refreshing(m)
    ensures var next := Service.Step(cfg, m, FetchFinished(Some(f)));
            next.phase == Serving(Recovered(f, m.phase.refresh.value.buffered), None)
  {
  }

  // A refresh in the running service: the updater had consumed pre when the refresh began, it stayed
  // in progress over the inputs `during`, its fetch read each key at a slot of its own, it was
  // installed, and the service went on over the inputs `after`.
  ghost predicate RefreshRun(
    cfg: Config, m: Machine, during: seq<Input>, f: Fetcher.Fetched, after: seq<Input>, base: Accounts, boot: Slot,
    pre: seq<Event>, at: Key -> Slot, last: Slot)
  {
    && m.phase.Serving? && m.phase.refresh.None? && m.phase.updater == Run(FromFetched(boot, base), pre)
    && (var began := Service.Step(cfg, m, RefreshDue);
        var installed := Service.Step(cfg, RunMachine(cfg, began, during), FetchFinished(Some(f)));
        var es, more := Received(cfg, m.active, during), Received(cfg, m.active, after);
        && KeepsRefreshing(cfg, began, during) && KeepsUpdater(cfg, installed, after)
        && Replay.Contract(pre + es + more) && Replay.CaughtUp(boot, pre + es + more)
        && boot <= f.contextSlot && last <= MaxConfirmed(boot, pre + es + more)
        && Replay.ReadAt(base, boot, pre + es + more, at, f.contextSlot, last, f.accounts)
        && Replay.Reconfirmed(boot, pre, es, more, f.contextSlot))
  }

  // At its end the updater has the confirmed slot it would have had without the refresh, and the same
  // map and pending writes exactly when every write consumed before the refresh began, above the
  // context slot, is made up for.
  lemma RefreshChangesNothingIff(
    cfg: Config, m: Machine, during: seq<Input>, f: Fetcher.Fetched, after: seq<Input>, base: Accounts, boot: Slot,
    pre: seq<Event>, at: Key -> Slot, last: Slot)
    requires RefreshRun(cfg, m, during, f, after, base, boot, pre, at, last)
    ensures var began := Service.Step(cfg, m, RefreshDue);
            var installed := Service.Step(cfg, RunMachine(cfg, began, during), FetchFinished(Some(f)));
            var es, more := Received(cfg, m.active, during), Received(cfg, m.active, after);
            var end, without := RunMachine(cfg, installed, after), Run(m.phase.updater, es + more);
            && end.phase.Serving? && !end.phase.updater.recovering
            && end.phase.updater.confirmed == without.confirmed
            && (end.phase.updater.accounts == without.accounts && end.phase.updater.pending == without.pending
                <==> Replay.AllMadeUp(
                       Replay.Puts(pre), Replay.Puts(pre + es + more), at, f.contextSlot, f.accounts,
                       without.confirmed))
  {
    var began := Service.Step(cfg, m, RefreshDue);
    var installed := Service.Step(cfg, RunMachine(cfg, began, during), FetchFinished(Some(f)));
    var es, more := Received(cfg, m.active, during), Received(cfg, m.active, after);
    RefreshRunLogs(cfg, m, during, f, after, base, boot, pre);
    Replay.RefreshEqualsContinuationIff(base, boot, pre, es, more, at, f.contextSlot, last, f.accounts);
  }

  // What the updater at the end of such a run has consumed, and what it would have without the refresh.
  lemma RefreshRunLogs(
    cfg: Config, m: Machine, during: seq<Input>, f: Fetcher.Fetched, after: seq<Input>, base: Accounts, boot: Slot,
    pre: seq<Event>)
    requires m.phase.Serving? && m.phase.refresh.None? && m.phase.updater == Run(FromFetched(boot, base), pre)
    requires KeepsRefreshing(cfg, Service.Step(cfg, m, RefreshDue), during)
    requires var began := Service.Step(cfg, m, RefreshDue);
             KeepsUpdater(cfg, Service.Step(cfg, RunMachine(cfg, began, during), FetchFinished(Some(f))), after)
    ensures var began := Service.Step(cfg, m, RefreshDue);
            var installed := Service.Step(cfg, RunMachine(cfg, began, during), FetchFinished(Some(f)));
            var es, more := Received(cfg, m.active, during), Received(cfg, m.active, after);
            var end := RunMachine(cfg, installed, after);
            && end.phase.Serving? && !end.phase.updater.recovering
            && end.phase.updater == Run(FromFetched(f.contextSlot, f.accounts), es + [FinishRecovery] + more)
            && Run(m.phase.updater, es + more) == Run(FromFetched(boot, base), pre + es + more)
  {
    var began := Service.Step(cfg, m, RefreshDue);
    var live := RunMachine(cfg, began, during);
    var es, more := Received(cfg, m.active, during), Received(cfg, m.active, after);
    assert began.phase == Serving(m.phase.updater, Some(Refresh(m.phase.updater.confirmed, [])));
    RefreshShadowsLive(cfg, began, during);
    InstallsRefresh(cfg, live, f);
    TakesRun(cfg, Service.Step(cfg, live, FetchFinished(Some(f))), after);
    RefreshedLog(f, es, more);
    LiveLog(base, boot, pre, es, more);
    StillServing(Recovered(f, es), more);
  }

  lemma RefreshedLog(f: Fetcher.Fetched, es: seq<Event>, more: seq<Event>)
    ensures Run(Recovered(f, es), more) == Run(FromFetched(f.contextSlot, f.accounts), es + [FinishRecovery] + more)
  {
    var start := FromFetched(f.contextSlot, f.accounts);
    RunSnoc(start, es, FinishRecovery);
    Staging.RunConcat(start, es + [FinishRecovery], more);
  }

  lemma LiveLog(base: Accounts, boot: Slot, pre: seq<Event>, es: seq<Event>, more: seq<Event>)
    ensures Run(Run(FromFetched(boot, base), pre), es + more) == Run(FromFetched(boot, base), pre + es + more)
  {
    Staging.RunConcat(FromFetched(boot, base), pre, es + more);
    assert pre + (es + more) == pre + es + more;
  }

  lemma {:induction false} StillServing(s: State, es: seq<Event>)
    requires !s.recovering
    ensures !Run(s, es).recovering
  {
    if es == [] {
    } else {
      StillServing(s, es[..|es| - 1]);
    }
  }

  // So a refresh changes nothing if its fetch saw every write consumed before it began.
  lemma InstallingRefreshChangesNothing(
    cfg: Config, m: Machine, during: seq<Input>, f: Fetcher.Fetched, after: seq<Input>, base: Accounts, boot: Slot,
    pre: seq<Event>, at: Key -> Slot, last: Slot)
    requires RefreshRun(cfg, m, during, f, after, base, boot, pre, at, last)
    requires forall w :: Put(w) in pre ==> w.slot <= at(w.key)
    ensures var began := Service.Step(cfg, m, RefreshDue);
            var installed := Service.Step(cfg, RunMachine(cfg, began, during), FetchFinished(Some(f)));
            var es, more := Received(cfg, m.active, during), Received(cfg, m.active, after);
            var end, without := RunMachine(cfg, installed, after), Run(m.phase.updater, es + more);
            && end.phase.Serving?
            && end.phase.updater.accounts == without.accounts
            && end.phase.updater.pending == without.pending
            && end.phase.updater.confirmed == without.confirmed
  {
    var began := Service.Step(cfg, m, RefreshDue);
    var installed := Service.Step(cfg, RunMachine(cfg, began, during), FetchFinished(Some(f)));
    var es, more := Received(cfg, m.active, during), Received(cfg, m.active, after);
    LiveLog(base, boot, pre, es, more);
    ConfirmedMonotone(FromFetched(boot, base), pre + es + more);
    Replay.PutsMembers(pre);
    RefreshChangesNothingIff(cfg, m, during, f, after, base, boot, pre, at, last);
  }
}
