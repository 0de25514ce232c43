// The service end to end: when what it publishes is the ledger, whatever refreshes and sessions come
// between.
module ServedLedger {
  import opened Types
  import opened Writes
  import opened Gate
  import opened Staging
  import opened ClosedForm
  import opened Ledger
  import opened Service
  import opened ServiceSafety
  import opened SessionLog
  import opened ServedMap
  import Fetcher
  import Replay
  import Rotation
  import Store

  // Input i of the run installs an updater or makes it publish a confirmed slot.
  ghost predicate PublishesAt(cfg: Config, inputs: seq<Input>, i: int) {
    && 0 <= i < |inputs|
    && var before := RunMachine(cfg, Start(cfg), inputs[..i]);
       Installs(before, inputs[i]) || Publishes(before, inputs[i])
  }

  // And that is the publication of what is current at the end of the run.
  ghost predicate Published(cfg: Config, inputs: seq<Input>, i: int) {
    && PublishesAt(cfg, inputs, i)
    && var after := RunMachine(cfg, Start(cfg), inputs[..i + 1]);
       after.phase.Serving? && ServesUpdater(after)
       && after.store.current == RunMachine(cfg, Start(cfg), inputs).store.current
  }

  // What is current changes only by a publication.
  lemma CurrentChanges(cfg: Config, m: Machine, input: Input)
    requires Inv(cfg, m) && Legal(cfg, m, input)
    ensures var next := Service.Step(cfg, m, input);
            || next.store.current == m.store.current
            || (next.phase.Serving? && ServesUpdater(next) && (Installs(m, input) || Publishes(m, input)))
  {
    var next := Service.Step(cfg, m, input);
    if next.phase.Serving? {
      ServesUpdaterStep(cfg, m, input);
      if !Installs(m, input) {
        ServedBefore(cfg, m, input);
      }
    }
  }

  lemma {:induction false} CurrentWasPublished(cfg: Config, inputs: seq<Input>)
    requires cfg.urls != [] && LegalRun(cfg, Start(cfg), inputs)
    ensures || RunMachine(cfg, Start(cfg), inputs).store.current == Store.EMPTY.current
            || exists i :: Published(cfg, inputs, i)
  {
    if inputs == [] {
    } else {
      var n := |inputs| - 1;
      var before, after := RunMachine(cfg, Start(cfg), inputs[..n]), RunMachine(cfg, Start(cfg), inputs);
      LegalPrefix(cfg, Start(cfg), inputs, n);
      EveryRunIsSafe(cfg, inputs[..n]);
      CurrentChanges(cfg, before, inputs[n]);
      assert inputs[..n + 1] == inputs;
      if after.store.current == before.store.current {
        CurrentWasPublished(cfg, inputs[..n]);
        if i :| Published(cfg, inputs[..n], i) {
          assert inputs[..n][..i] == inputs[..i] && inputs[..n][..i + 1] == inputs[..i + 1];
          assert Published(cfg, inputs, i);
        }
      } else {
        assert Published(cfg, inputs, n);
      }
    }
  }

  // A publication is a drain of its updater.
  lemma PublicationDrains(cfg: Config, inputs: seq<Input>, i: nat) returns (l: Lineage, es: seq<Event>, e: Event)
    requires PublishesAt(cfg, inputs, i) && RunMachine(cfg, Start(cfg), inputs[..i + 1]).phase.Serving?
    ensures LineageOf(cfg, inputs[..i + 1]) == Some(l) && l.log == es + [e]
    ensures Drains(e, MaxConfirmed(l.fetched.contextSlot, es)) && Replay.Puts(l.log) == Replay.Puts(es)
    ensures RunMachine(cfg, Start(cfg), inputs[..i + 1]).phase.updater == StateOf(l)
  {
    var before := RunMachine(cfg, Start(cfg), inputs[..i]);
    assert inputs[..i + 1][..i] == inputs[..i];
    LineageIsUpdater(cfg, inputs[..i + 1]);
    l := LineageOf(cfg, inputs[..i + 1]).value;
    es, e := l.log[..|l.log| - 1], l.log[|l.log| - 1];
    assert l.log == es + [e];
    if !Installs(before, inputs[i]) {
      LineageIsUpdater(cfg, inputs[..i]);
      var was := LineageOf(cfg, inputs[..i]).value;
      assert es == was.log;
      ConfirmedMonotone(FromFetched(was.fetched.contextSlot, was.fetched.accounts), was.log);
    }
  }

  // The fetch read each key as of a slot of its own, and the stream has delivered in order since.
  ghost predicate Grounded(genesis: Accounts, ledger: seq<Write>, l: Lineage, at: Key -> Slot, last: Slot) {
    && FuzzyCheckpoint(genesis, ledger, l.fetched.accounts, at, l.fetched.contextSlot, last)
    && DeliversInOrder(ledger, l.log)
  }

  // What is published is the ledger at its slot exactly when no stale, missed or unconfirmed write of
  // its updater's lineage makes a difference: in every run, across any number of serve sessions and of
  // refreshes that complete or fail, the first publication of each included, ready or not.
  lemma ServedIsLedgerIff(
    cfg: Config, genesis: Accounts, ledger: seq<Write>, inputs: seq<Input>, i: nat, at: Key -> Slot, last: Slot)
    requires Published(cfg, inputs, i) && Ordered(ledger)
    requires LineageOf(cfg, inputs[..i + 1]).Some?
    requires Grounded(genesis, ledger, LineageOf(cfg, inputs[..i + 1]).value, at, last)
    ensures var current := RunMachine(cfg, Start(cfg), inputs).store.current;
            var l := LineageOf(cfg, inputs[..i + 1]).value;
            IsLedger(genesis, ledger, current.slot, current.accounts)
            <==> NoneWrong(
                   genesis, ledger, l.fetched.accounts, at, l.fetched.contextSlot, l.log, current.slot)
  {
    var l, es, e := PublicationDrains(cfg, inputs, i);
    var context, t := l.fetched.contextSlot, StateOf(l).confirmed;
    DrainedIsLedgerIff(genesis, ledger, l.fetched.accounts, at, context, last, es, e);
    SameWrong(genesis, ledger, l.fetched.accounts, at, context, es, l.log, t);
  }

  lemma SameWrong(
    genesis: Accounts, ledger: seq<Write>, base: Accounts, at: Key -> Slot, context: Slot, a: seq<Event>,
    b: seq<Event>, t: Slot)
    requires Replay.Puts(a) == Replay.Puts(b)
    ensures NoneWrong(genesis, ledger, base, at, context, a, t) <==> NoneWrong(genesis, ledger, base, at, context, b, t)
  {
    assert forall v :: IsStale(ledger, context, a, t, v) <==> IsStale(ledger, context, b, t, v);
    assert forall w :: IsOff(ledger, at, context, a, t, w) <==> IsOff(ledger, at, context, b, t, w);
  }

  // ----- When nothing is missing -----

  // And no key was read above the confirmed slot, and the stream delivered every later write.
  ghost predicate Complete(genesis: Accounts, ledger: seq<Write>, l: Lineage, at: Key -> Slot, last: Slot) {
    var context := l.fetched.contextSlot;
    var t := MaxConfirmed(context, l.log);
    && FuzzyCheckpoint(genesis, ledger, l.fetched.accounts, at, context, last) && last <= t
    && Delivers(ledger, context, l.log, t)
  }

  ghost predicate IsComplete(genesis: Accounts, ledger: seq<Write>, l: Option<Lineage>) {
    l.Some? ==> exists at: Key -> Slot, last: Slot :: Complete(genesis, ledger, l.value, at, last)
  }

  // So it is at each publication of the run.
  ghost predicate AllComplete(cfg: Config, genesis: Accounts, ledger: seq<Write>, inputs: seq<Input>) {
    forall i :: PublishesAt(cfg, inputs, i) ==> IsComplete(genesis, ledger, LineageOf(cfg, inputs[..i + 1]))
  }

  lemma AllCompletePrefix(cfg: Config, genesis: Accounts, ledger: seq<Write>, inputs: seq<Input>, n: nat)
    requires AllComplete(cfg, genesis, ledger, inputs) && n <= |inputs|
    ensures AllComplete(cfg, genesis, ledger, inputs[..n])
  {
    forall i | PublishesAt(cfg, inputs[..n], i)
      ensures IsComplete(genesis, ledger, LineageOf(cfg, inputs[..n][..i + 1]))
    {
      assert inputs[..n][..i] == inputs[..i] && inputs[..n][..i + 1] == inputs[..i + 1];
      assert PublishesAt(cfg, inputs, i);
    }
  }

  lemma CompleteIsLedger(cfg: Config, genesis: Accounts, ledger: seq<Write>, inputs: seq<Input>, i: nat)
    requires Ordered(ledger) && AllComplete(cfg, genesis, ledger, inputs)
    requires PublishesAt(cfg, inputs, i) && RunMachine(cfg, Start(cfg), inputs[..i + 1]).phase.Serving?
    ensures var u := RunMachine(cfg, Start(cfg), inputs[..i + 1]).phase.updater;
            IsLedger(genesis, ledger, u.confirmed, u.accounts)
  {
    var l, es, e := PublicationDrains(cfg, inputs, i);
    var context, t := l.fetched.contextSlot, MaxConfirmed(l.fetched.contextSlot, l.log);
    assert IsComplete(genesis, ledger, Some(l));
    var at: Key -> Slot, last: Slot :| Complete(genesis, ledger, l, at, last);
    ConfirmedMonotone(FromFetched(context, l.fetched.accounts), l.log);
    DeliveredIsRight(genesis, ledger, l.fetched.accounts, at, context, last, l.log, t);
    SameWrong(genesis, ledger, l.fetched.accounts, at, context, es, l.log, t);
    DrainedIsLedgerIff(genesis, ledger, l.fetched.accounts, at, context, last, es, e);
  }

  lemma ServedIsLedger(cfg: Config, genesis: Accounts, ledger: seq<Write>, inputs: seq<Input>)
    requires cfg.urls != [] && LegalRun(cfg, Start(cfg), inputs)
    requires Ordered(ledger) && AllComplete(cfg, genesis, ledger, inputs)
    ensures var current := RunMachine(cfg, Start(cfg), inputs).store.current;
            current == Store.EMPTY.current || IsLedger(genesis, ledger, current.slot, current.accounts)
  {
    CurrentWasPublished(cfg, inputs);
    if i :| Published(cfg, inputs, i) {
      CompleteIsLedger(cfg, genesis, ledger, inputs, i);
    }
  }

  lemma SameLedger(genesis: Accounts, ledger: seq<Write>, t: Slot, a: Accounts, b: Accounts)
    requires IsLedger(genesis, ledger, t, a) && IsLedger(genesis, ledger, t, b)
    ensures a == b
  {
    forall k
      ensures Lookup(a, k) == Lookup(b, k)
    {
      assert Lookup(a, k) == LedgerAt(genesis, ledger, t, k);
    }
    SameLookups(a, b);
  }

  // Then no installation ever keeps another map: the updater's map is the one served.
  lemma LedgerIsServed(cfg: Config, genesis: Accounts, ledger: seq<Write>, inputs: seq<Input>)
    requires cfg.urls != [] && LegalRun(cfg, Start(cfg), inputs)
    requires Ordered(ledger) && AllComplete(cfg, genesis, ledger, inputs)
    requires RunMachine(cfg, Start(cfg), inputs).phase.Serving?
    ensures ServesUpdater(RunMachine(cfg, Start(cfg), inputs))
  {
    forall i | 0 <= i < |inputs|
      ensures !KeptSince(cfg, inputs, i)
    {
      if KeptSince(cfg, inputs, i) {
        NeverKept(cfg, genesis, ledger, inputs, i);
      }
    }
    ServesUpdaterIff(cfg, inputs);
  }

  lemma NeverKept(cfg: Config, genesis: Accounts, ledger: seq<Write>, inputs: seq<Input>, i: nat)
    requires cfg.urls != [] && LegalRun(cfg, Start(cfg), inputs) && i < |inputs|
    requires Ordered(ledger) && AllComplete(cfg, genesis, ledger, inputs)
    ensures !KeepsAt(cfg, inputs, i)
  {
    if KeepsAt(cfg, inputs, i) {
      var before := RunMachine(cfg, Start(cfg), inputs[..i]);
      var l := Installing(cfg, inputs[..i], inputs[i]).value;
      assert inputs[..i + 1][..i] == inputs[..i];
      InstallsState(cfg, inputs[..i], inputs[i]);
      LegalPrefix(cfg, Start(cfg), inputs, i);
      AllCompletePrefix(cfg, genesis, ledger, inputs, i);
      ServedIsLedger(cfg, genesis, ledger, inputs[..i]);
      CompleteIsLedger(cfg, genesis, ledger, inputs, i);
      SameLedger(genesis, ledger, StateOf(l).confirmed, before.store.current.accounts, StateOf(l).accounts);
    }
  }

  // ----- An unconfirmed value is served -----

  // A bootstrap publishes at its first page's slot what later pages were read at. A table created at
  // slot 12 and read there by a fetch whose first page was at slot 10 is served at slot 10, before its
  // slot is confirmed; the ledger at 10 does not have it, and nothing is stale.
  lemma UnconfirmedValueIsServed(cfg: Config, w: Write)
    requires cfg.urls != [] && w.slot == 12
    requires w.account.Some? && WellFormed(cfg.codec, w.key, w.account.value)
    ensures var f := Fetcher.Fetched(10, map[w.key := w.account.value]);
            var inputs := [FromSource(Connected(0)), FetchFinished(Some(f))];
            var m := RunMachine(cfg, Start(cfg), inputs);
            && LegalRun(cfg, Start(cfg), inputs)
            && m.phase.Serving? && m.store.ready && m.store.current == Store.Snapshot(10, f.accounts)
            && FuzzyCheckpoint(map[], [w], f.accounts, _ => 12, 10, 12)
            && LedgerAt(map[], [w], 10, w.key) == None
            && forall v :: !IsStale([w], 10, [FinishRecovery], 10, v)
  {
    var f := Fetcher.Fetched(10, map[w.key := w.account.value]);
    var a, b := FromSource(Connected(0)), FetchFinished(Some(f));
    assert [a, b][..1] == [a] && [a, b][..0] == [] && [a][..0] == [];
    Rotation.NextIsNearest(0, {}, |cfg.urls|);
    var m0 := Start(cfg);
    assert m0.phase == Waiting && RunMachine(cfg, m0, []) == m0;
    var m1 := Service.Step(cfg, m0, a);
    assert m1.phase == Bootstrapping([]) && RunMachine(cfg, m0, [a]) == m1;
    RecoveredAlone(f);
    assert RunMachine(cfg, m0, [a, b]) == Service.Step(cfg, m1, b);
    OneWriteLedger(w, 10);
    OneWriteLedger(w, 12);
    assert Replay.Puts([FinishRecovery]) == [] by {
      assert [FinishRecovery][..0] == [];
    }
  }

  lemma OneWriteLedger(w: Write, t: Slot)
    ensures forall k :: LedgerAt(map[], [w], t, k) == if k == w.key && w.slot <= t then w.account else None
  {
    if w.slot <= t {
      CutBelow([w], t);
    } else {
      CutAbove([w], t);
    }
    forall k
      ensures Last([w], k) == if k == w.key then Some(w) else None
    {
      assert [w][..0] == [];
    }
  }
}
