// The published snapshot, the snapshots retained for pagination cursors, and readiness.
module Store {
  import opened Types
  import opened Ascending

  // Clock readings in nanoseconds.
  type Time = nat
  const RETENTION: nat := 300_000_000_000

  datatype Snapshot = Snapshot(slot: Slot, accounts: Accounts)
  datatype Retained = Retained(snapshot: Snapshot, touched: Time)
  datatype SnapshotPage = SnapshotPage(slot: Slot, accounts: seq<Account>, next: Option<Key>)
  datatype PageError = BadLimit | NotReady | Expired

  datatype StoreState = StoreState(
    current: Snapshot,
    ready: bool,
    activeUrl: Option<string>,
    retained: map<Slot, Retained>)

  const EMPTY: StoreState := StoreState(Snapshot(0, map[]), false, None, map[])

  function Published(s: StoreState, url: string, slot: Slot, accounts: Accounts): StoreState {
    var current := if s.current.slot != slot || s.current.slot == 0 then Snapshot(slot, accounts) else s.current;
    s.(current := current, activeUrl := Some(url), ready := true)
  }

  predicate Fresh(r: Retained, now: Time) {
    now < r.touched + RETENTION
  }

  function Unexpired(retained: map<Slot, Retained>, now: Time): map<Slot, Retained> {
    map slot | slot in retained && Fresh(retained[slot], now) :: retained[slot]
  }

  function KeysAbove(m: Accounts, after: Option<Key>): set<Key> {
    set k | k in m && (after.Some? ==> after.value < k)
  }

  // The keys of m after the exclusive cursor, in order.
  ghost function KeysAfter(m: Accounts, after: Option<Key>): (keys: seq<Key>)
    ensures forall i :: 0 <= i < |keys| ==> keys[i] in m
  {
    var keys := Sorted(KeysAbove(m, after));
    SortedIsListing(KeysAbove(m, after));
    assert forall i :: 0 <= i < |keys| ==> keys[i] in keys;
    keys
  }

  lemma KeysAfterIsListing(m: Accounts, after: Option<Key>)
    ensures IsListing(KeysAfter(m, after), KeysAbove(m, after))
    ensures after.None? ==> KeysAbove(m, after) == m.Keys && |KeysAfter(m, after)| == |m|
  {
    SortedIsListing(KeysAbove(m, after));
    if after.None? {
      assert KeysAbove(m, after) == m.Keys;
    }
  }

  function Values(m: Accounts, keys: seq<Key>): seq<Account>
    requires forall i :: 0 <= i < |keys| ==> keys[i] in m
  {
    seq(|keys|, i requires 0 <= i < |keys| => m[keys[i]])
  }

  // One page of a chosen snapshot; a page with more to come leaves its snapshot retained.
  ghost function Deliver(s: StoreState, now: Time, snapshot: Snapshot, after: Option<Key>, limit: nat)
    : (StoreState, SnapshotPage)
    requires limit > 0
  {
    var keys := KeysAfter(snapshot.accounts, after);
    if |keys| > limit then
      var retained := if snapshot.slot in s.retained then s.retained
                      else s.retained[snapshot.slot := Retained(snapshot, now)];
      (s.(retained := retained),
       SnapshotPage(snapshot.slot, Values(snapshot.accounts, keys[..limit]), Some(keys[limit - 1])))
    else
      (s, SnapshotPage(snapshot.slot, Values(snapshot.accounts, keys), None))
  }

  ghost function Page(s: StoreState, now: Time, from: Option<Slot>, after: Option<Key>, limit: nat)
    : (StoreState, Result<SnapshotPage, PageError>)
  {
    if limit == 0 then (s, Err(BadLimit))
    else if !s.ready then (s, Err(NotReady))
    else
      match from
      case Some(slot) =>
        var live := Unexpired(s.retained, now);
        if slot !in live then (s.(retained := live), Err(Expired))
        else
          var (s', page) := Deliver(
            s.(retained := live[slot := live[slot].(touched := now)]), now, live[slot].snapshot, after, limit);
          (s', Ok(page))
      case None =>
        var (s', page) := Deliver(s, now, s.current, after, limit);
        (s', Ok(page))
  }

  class Store {
    var current: Snapshot
    var ready: bool
    var activeUrl: Option<string>
    var retained: map<Slot, Retained>

    ghost function State(): StoreState
      reads this
    {
      StoreState(current, ready, activeUrl, retained)
    }

    constructor ()
      ensures State() == EMPTY
    {
      current := Snapshot(0, map[]);
      ready := false;
      activeUrl := None;
      retained := map[];
    }

    method Publish(url: string, slot: Slot, accounts: Accounts)
      modifies this
      ensures State() == Published(old(State()), url, slot, accounts)
    {
      if current.slot != slot || current.slot == 0 {
        current := Snapshot(slot, accounts);
      }
      activeUrl := Some(url);
      ready := true;
    }

    method Invalidate()
      modifies this
      ensures State() == old(State()).(ready := false)
    {
      ready := false;
    }

    method ReadSnapshot() returns (r: Result<Snapshot, PageError>)
      ensures r == if ready then Ok(current) else Err(NotReady)
    {
      if ready {
        r := Ok(current);
      } else {
        r := Err(NotReady);
      }
    }

    method PageOf(now: Time, from: Option<Slot>, after: Option<Key>, limit: nat)
      returns (r: Result<SnapshotPage, PageError>)
      modifies this
      ensures (State(), r) == Page(old(State()), now, from, after, limit)
    {
      if limit == 0 {
        return Err(BadLimit);
      }
      if !ready {
        return Err(NotReady);
      }
      var snapshot := current;
      if from.Some? {
        retained := Unexpired(retained, now);
        if from.value !in retained {
          return Err(Expired);
        }
        snapshot := retained[from.value].snapshot;
        retained := retained[from.value := retained[from.value].(touched := now)];
      }
      var page := Take(now, snapshot, after, limit);
      r := Ok(page);
    }

    method Take(now: Time, snapshot: Snapshot, after: Option<Key>, limit: nat) returns (page: SnapshotPage)
      requires limit > 0
      modifies this
      ensures (State(), page) == Deliver(old(State()), now, snapshot, after, limit)
    {
      var keys := Sort(KeysAbove(snapshot.accounts, after));
      assert forall i :: 0 <= i < |keys| ==> keys[i] in keys;
      if |keys| > limit {
        if snapshot.slot !in retained {
          retained := retained[snapshot.slot := Retained(snapshot, now)];
        }
        page := SnapshotPage(snapshot.slot, Values(snapshot.accounts, keys[..limit]), Some(keys[limit - 1]));
      } else {
        page := SnapshotPage(snapshot.slot, Values(snapshot.accounts, keys), None);
      }
    }
  }
}
