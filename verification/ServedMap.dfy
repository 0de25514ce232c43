// What the service serves while it runs: when it is the updater's map, and why cursors stay good.
module ServedMap {
  import opened Types
  import opened Staging
  import opened Service
  import opened ServiceSafety
  import opened SessionLog
  import opened Gate
  import Fetcher
  import Rotation
  import Store

  // ----- What is served is what the updater holds -----

  // The served snapshot is the updater's map at its confirmed slot.
  ghost predicate ServesUpdater(m: Machine) {
    m.phase.Serving? ==> m.store.current == Store.Snapshot(m.phase.updater.confirmed, m.phase.updater.accounts)
  }

  // Publication keeps the served map when the slot is unchanged and not zero.
  ghost predicate KeepsOldMap(m: Machine, installed: State) {
    m.store.current.slot == installed.confirmed != 0 && m.store.current.accounts != installed.accounts
  }

  // Does the input make the updater publish a confirmed slot?
  predicate Publishes(m: Machine, input: Input) {
    && m.phase.Serving? && input.FromSource? && input.e.SlotConfirmed?
    && input.e.source == m.active && m.phase.updater.confirmed < input.e.slot
  }

  // After one step that serves: an installation serves the new map unless the old one is kept, a
  // published confirm always does, and nothing else changes whether the updater's map is served.
  lemma ServesUpdaterStep(cfg: Config, m: Machine, input: Input)
    requires Inv(cfg, m) && Legal(cfg, m, input) && Service.Step(cfg, m, input).phase.Serving?
    ensures ServesUpdater(Service.Step(cfg, m, input))
            <==> if Installs(m, input) then !KeepsOldMap(m, Service.Step(cfg, m, input).phase.updater)
                 else Publishes(m, input) || ServesUpdater(m)
  {
    if Installs(m, input) {
      InstallsRecovered(cfg, m, input);
    } else {
      ServedBefore(cfg, m, input);
    }
  }

  // Input i of the run installs an updater whose slot is already served with another map.
  ghost predicate KeepsAt(cfg: Config, inputs: seq<Input>, i: int)
    requires 0 <= i < |inputs|
  {
    var before := RunMachine(cfg, Start(cfg), inputs[..i]);
    var installed := Installing(cfg, inputs[..i], inputs[i]);
    installed.Some? && KeepsOldMap(before, StateOf(installed.value))
  }

  // Input i of the run installs nothing and publishes no confirmed slot.
  ghost predicate QuietAt(cfg: Config, inputs: seq<Input>, i: int)
    requires 0 <= i < |inputs|
  {
    var before := RunMachine(cfg, Start(cfg), inputs[..i]);
    !Installs(before, inputs[i]) && !Publishes(before, inputs[i])
  }

  // An old map was kept at input i, and nothing has been installed or published since.
  ghost predicate KeptSince(cfg: Config, inputs: seq<Input>, i: int) {
    0 <= i < |inputs| && KeepsAt(cfg, inputs, i) && forall j :: i < j < |inputs| ==> QuietAt(cfg, inputs, j)
  }

  lemma SameInPrefix(cfg: Config, inputs: seq<Input>, n: nat, i: nat)
    requires i < n <= |inputs|
    ensures KeepsAt(cfg, inputs[..n], i) == KeepsAt(cfg, inputs, i)
    ensures QuietAt(cfg, inputs[..n], i) == QuietAt(cfg, inputs, i)
  {
    assert inputs[..n][..i] == inputs[..i];
  }

  lemma KeptSinceSnoc(cfg: Config, inputs: seq<Input>, i: int)
    requires inputs != []
    ensures var n := |inputs| - 1;
            KeptSince(cfg, inputs, i) <==>
              if i == n then KeepsAt(cfg, inputs, n) else QuietAt(cfg, inputs, n) && KeptSince(cfg, inputs[..n], i)
  {
    var n := |inputs| - 1;
    forall j | 0 <= j < n
      ensures KeepsAt(cfg, inputs[..n], j) == KeepsAt(cfg, inputs, j)
      ensures QuietAt(cfg, inputs[..n], j) == QuietAt(cfg, inputs, j)
    {
      SameInPrefix(cfg, inputs, n, j);
    }
  }

  lemma KeptSinceLast(cfg: Config, inputs: seq<Input>)
    requires inputs != []
    ensures var n := |inputs| - 1;
            var before := RunMachine(cfg, Start(cfg), inputs[..n]);
            (exists i :: KeptSince(cfg, inputs, i)) <==>
              match Installing(cfg, inputs[..n], inputs[n])
              case Some(l) => KeepsOldMap(before, StateOf(l))
              case None => !Publishes(before, inputs[n]) && exists i :: KeptSince(cfg, inputs[..n], i)
  {
    var n := |inputs| - 1;
    var before := RunMachine(cfg, Start(cfg), inputs[..n]);
    if i :| KeptSince(cfg, inputs, i) {
      KeptSinceSnoc(cfg, inputs, i);
    }
    if Installs(before, inputs[n]) {
      KeptSinceSnoc(cfg, inputs, n);
    } else if i :| KeptSince(cfg, inputs[..n], i) {
      KeptSinceSnoc(cfg, inputs, i);
    }
  }

  // In every run, at every moment it serves: the updater's map is not the one served exactly if an
  // installation kept an old map and nothing has been installed or published since.
  lemma {:induction false} ServesUpdaterIff(cfg: Config, inputs: seq<Input>)
    requires cfg.urls != [] && LegalRun(cfg, Start(cfg), inputs)
    requires RunMachine(cfg, Start(cfg), inputs).phase.Serving?
    ensures ServesUpdater(RunMachine(cfg, Start(cfg), inputs)) <==> !exists i :: KeptSince(cfg, inputs, i)
  {
    if inputs == [] {
    } else {
      var n := |inputs| - 1;
      var before := RunMachine(cfg, Start(cfg), inputs[..n]);
      LegalPrefix(cfg, Start(cfg), inputs, n);
      EveryRunIsSafe(cfg, inputs[..n]);
      ServesUpdaterStep(cfg, before, inputs[n]);
      KeptSinceLast(cfg, inputs);
      if Installs(before, inputs[n]) {
        InstallsState(cfg, inputs[..n], inputs[n]);
      } else {
        ServedBefore(cfg, before, inputs[n]);
        ServesUpdaterIff(cfg, inputs[..n]);
      }
    }
  }

  // It happens: the service bootstraps from one page, and a refresh at the same slot brings another
  // map, which the updater holds and nobody is served.
  lemma RefreshMayNotBeServed(cfg: Config, first: Fetcher.Fetched, second: Fetcher.Fetched)
    requires cfg.urls != []
    requires AllWellFormed(cfg.codec, first.accounts) && AllWellFormed(cfg.codec, second.accounts)
    requires first.contextSlot == second.contextSlot != 0 && first.accounts != second.accounts
    ensures var inputs :=
              [FromSource(Connected(0)), FetchFinished(Some(first)), RefreshDue, FetchFinished(Some(second))];
            var m := RunMachine(cfg, Start(cfg), inputs);
            && LegalRun(cfg, Start(cfg), inputs)
            && m.phase.Serving? && m.phase.updater.accounts == second.accounts
            && m.store.ready && m.store.current == Store.Snapshot(first.contextSlot, first.accounts)
  {
    var a, b, d, e := FromSource(Connected(0)), FetchFinished(Some(first)), RefreshDue, FetchFinished(Some(second));
    var inputs := [a, b, d, e];
    assert inputs[..3] == [a, b, d] && inputs[..2] == [a, b] && inputs[..1] == [a] && inputs[..0] == [];
    var m0 := Start(cfg);
    RunThree(cfg, m0, a, b, d);
    Rotation.NextIsNearest(0, {}, |cfg.urls|);
    assert m0.phase == Waiting;
    var m1 := Service.Step(cfg, m0, a);
    assert m1.phase == Bootstrapping([]);
    RecoveredAlone(first);
    RecoveredAlone(second);
    var m2 := Service.Step(cfg, m1, b);
    assert m2.phase == Serving(Recovered(first, []), None);
    assert m2.store.current == Store.Snapshot(first.contextSlot, first.accounts);
    var m3 := Service.Step(cfg, m2, d);
    assert m3.phase == Serving(Recovered(first, []), Some(Refresh(first.contextSlot, [])));
    assert RunMachine(cfg, m0, inputs) == Service.Step(cfg, m3, e);
  }

  lemma RecoveredAlone(f: Fetcher.Fetched)
    ensures Recovered(f, []).accounts == f.accounts && Recovered(f, []).confirmed == f.contextSlot
  {
    DrainsNothing(f.accounts, f.contextSlot);
  }

  lemma {:induction false} DrainsNothing(m: Accounts, t: nat)
    ensures DrainThrough(m, map[], t) == m
  {
    if t == 0 {
    } else {
      DrainsNothing(m, t - 1);
    }
  }
}
