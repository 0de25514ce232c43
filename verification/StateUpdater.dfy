// The updater object: the staged map changed in place, its drain loops, and its publications.
module StateUpdater {
  import opened Types
  import opened Ascending
  import opened Writes
  import opened Staging
  import opened ClosedForm
  import opened LastWriterWins
  import Store

  // Draining the listed slots in order.
  function DrainSlots(accounts: Accounts, pending: Pending, slots: seq<nat>): Accounts
    requires forall i :: 0 <= i < |slots| ==> slots[i] in pending
  {
    if slots == [] then accounts
    else
      ApplyMutations(DrainSlots(accounts, pending, slots[..|slots| - 1]), pending[slots[|slots| - 1]])
  }

  lemma ListsZero(slots: seq<nat>, pending: Pending)
    requires Lists(slots, pending.Keys, 0)
    ensures slots == if 0 in pending then [0] else []
  {
    IncreasingUnique(slots, if 0 in pending then [0] else []);
  }

  // The greatest pending slot is listed last; without it the list is the one below.
  lemma ListsBelow(slots: seq<nat>, pending: Pending, t: nat)
    requires Lists(slots, pending.Keys, t) && t > 0 && t in pending
    ensures slots != [] && slots[|slots| - 1] == t
    ensures Lists(slots[..|slots| - 1], pending.Keys, t - 1)
  {
    var n := |slots| - 1;
    var i :| 0 <= i <= n && slots[i] == t;
    assert slots[n] <= t;
    assert i == n;
    var below := slots[..n];
    forall s | s in pending && s <= t - 1
      ensures s in below
    {
      var j :| 0 <= j <= n && slots[j] == s;
      assert below[j] == s;
    }
  }

  lemma DrainHere(accounts: Accounts, pending: Pending, slots: seq<nat>, t: nat)
    requires t > 0 && t in pending && slots != [] && slots[|slots| - 1] == t
    requires forall i :: 0 <= i < |slots| ==> slots[i] in pending
    requires DrainSlots(accounts, pending, slots[..|slots| - 1]) == DrainThrough(accounts, pending, t - 1)
    ensures DrainSlots(accounts, pending, slots) == DrainThrough(accounts, pending, t)
  {
  }

  // Visiting only the slots that hold something is draining every slot.
  lemma {:induction false} DrainSlotsThrough(accounts: Accounts, pending: Pending, slots: seq<nat>, t: nat)
    requires Lists(slots, pending.Keys, t)
    ensures DrainSlots(accounts, pending, slots) == DrainThrough(accounts, pending, t)
    decreases t
  {
    if t == 0 {
      ListsZero(slots, pending);
    } else if t in pending {
      ListsBelow(slots, pending, t);
      DrainSlotsThrough(accounts, pending, slots[..|slots| - 1], t - 1);
      DrainHere(accounts, pending, slots, t);
    } else {
      DrainSlotsThrough(accounts, pending, slots, t - 1);
    }
  }

  class StateUpdater {
    const store: Store.Store
    const bootstrapSlot: Slot
    const activeUrl: string
    var confirmedSlot: Slot
    var accounts: Accounts
    var pending: Pending
    var versions: map<Key, Mark>
    var recovering: bool
    // The fetched map, and every event consumed since.
    ghost const base: Accounts
    ghost var log: seq<Event>

    ghost function Current(): State
      reads this
    {
      State(bootstrapSlot, confirmedSlot, accounts, pending, versions, recovering)
    }

    ghost predicate Valid()
      reads this
    {
      Current() == Run(FromFetched(bootstrapSlot, base), log)
    }

    constructor FromFetchedState(store: Store.Store, url: string, contextSlot: Slot, fetched: Accounts)
      ensures Valid() && this.store == store && activeUrl == url && log == [] && base == fetched
      ensures Current() == FromFetched(contextSlot, fetched)
    {
      this.store := store;
      activeUrl := url;
      bootstrapSlot := contextSlot;
      confirmedSlot := contextSlot;
      accounts := fetched;
      pending := map[];
      versions := map[];
      recovering := true;
      base := fetched;
      log := [];
    }

    method FinishRecovery()
      requires Valid()
      modifies this, store
      ensures Valid() && log == old(log) + [Event.FinishRecovery]
      ensures Current() == Finish(old(Current()))
      ensures store.State() == Store.Published(old(store.State()), activeUrl, confirmedSlot, accounts)
      ensures forall k :: HoldsNewest(base, bootstrapSlot, old(log), confirmedSlot, k, Lookup(accounts, k))
    {
      ApplyPendingThrough(confirmedSlot);
      store.Publish(activeUrl, confirmedSlot, accounts);
      recovering := false;
      log := log + [Event.FinishRecovery];
      RunSnoc(FromFetched(bootstrapSlot, base), old(log), Event.FinishRecovery);
      ghost var es, e := old(log), Event.FinishRecovery;
      forall k
        ensures HoldsNewest(base, bootstrapSlot, es, confirmedSlot, k, Lookup(accounts, k))
      {
        NewestWriteWins(base, bootstrapSlot, es, e, k);
      }
    }

    method Queue(w: Write) returns (accepted: bool)
      requires Valid()
      modifies this
      ensures Valid() && log == old(log) + [Put(w)]
      ensures Current() == Queued(old(Current()), w)
      ensures accepted <==> AcceptedAt(bootstrapSlot, log, |old(log)|)
    {
      log := log + [Put(w)];
      RunSnoc(FromFetched(bootstrapSlot, base), old(log), Put(w));
      RunIsClosed(base, bootstrapSlot, old(log));
      NewestAccepted(bootstrapSlot, old(log), w);
      if w.slot < bootstrapSlot {
        return false;
      }
      if w.key in versions {
        var m := versions[w.key];
        if w.slot < m.slot || (w.slot == m.slot && w.version <= m.version) {
          return false;
        }
      }
      versions := versions[w.key := Mark(w.slot, w.version)];
      if w.slot !in pending {
        pending := pending[w.slot := []];
      }
      pending := pending[w.slot := pending[w.slot] + [Mutation(w.key, w.account)]];
      assert pending == Stage(old(pending), w);
      accepted := true;
    }

    method Confirm(slot: Slot) returns (raised: bool)
      requires Valid()
      modifies this, store
      ensures Valid() && log == old(log) + [Confirmed(slot)]
      ensures Current() == Staging.Confirm(old(Current()), slot)
      ensures raised <==> old(confirmedSlot) < slot
      ensures store.State() == if raised && !recovering
                               then Store.Published(old(store.State()), activeUrl, slot, accounts)
                               else old(store.State())
      ensures raised ==>
                forall k :: HoldsNewest(base, bootstrapSlot, old(log), confirmedSlot, k, Lookup(accounts, k))
    {
      ghost var es, e := log, Confirmed(slot);
      RunSnoc(FromFetched(bootstrapSlot, base), es, e);
      log := log + [e];
      if slot <= confirmedSlot {
        return false;
      }
      ApplyPendingThrough(slot);
      confirmedSlot := slot;
      ConfirmedMonotone(FromFetched(bootstrapSlot, base), es);
      forall k
        ensures HoldsNewest(base, bootstrapSlot, es, confirmedSlot, k, Lookup(accounts, k))
      {
        NewestWriteWins(base, bootstrapSlot, es, e, k);
      }
      if !recovering {
        store.Publish(activeUrl, slot, accounts);
      }
      raised := true;
    }

    method ApplyPendingThrough(slot: Slot)
      modifies this`accounts, this`pending
      ensures accounts == DrainThrough(old(accounts), old(pending), slot)
      ensures pending == After(old(pending), slot)
    {
      ghost var accounts0, pending0 := accounts, pending;
      var slots := UpTo(pending.Keys, slot);
      for i := 0 to |slots|
        invariant forall j :: 0 <= j < |slots| ==> (slots[j] in pending <==> i <= j)
        invariant forall s :: s in pending ==> s in pending0 && pending[s] == pending0[s]
        invariant forall s :: s in pending0 && slot < s ==> s in pending
        invariant accounts == DrainSlots(accounts0, pending0, slots[..i])
      {
        assert slots[..i + 1][..i] == slots[..i];
        var mutations := pending[slots[i]];
        pending := pending - {slots[i]};
        ApplyAll(mutations);
      }
      assert slots[..|slots|] == slots;
      DrainSlotsThrough(accounts0, pending0, slots, slot);
    }

    method ApplyAll(mutations: seq<Mutation>)
      modifies this`accounts
      ensures accounts == ApplyMutations(old(accounts), mutations)
    {
      for j := 0 to |mutations|
        invariant accounts == ApplyMutations(old(accounts), mutations[..j])
      {
        var m := mutations[j];
        assert mutations[..j + 1][..j] == mutations[..j];
        if m.account.Some? {
          accounts := accounts[m.key := m.account.value];
        } else {
          accounts := accounts - {m.key};
        }
      }
      assert mutations[..|mutations|] == mutations;
    }
  }
}
