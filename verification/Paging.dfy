// Runs of the store: a nonzero slot names one map, and following a cursor visits exactly one
// snapshot while publications and other readers carry on.
module Paging {
  import opened Types
  import opened Ascending
  import opened Store

  datatype Op =
    | Publish(url: string, slot: Slot, accounts: Accounts)
    | Invalidate
    | Read(now: Time, from: Option<Slot>, after: Option<Key>, limit: nat)

  ghost function Step(s: StoreState, op: Op): StoreState {
    match op
    case Publish(url, slot, accounts) => Published(s, url, slot, accounts)
    case Invalidate => s.(ready := false)
    case Read(now, from, after, limit) => Page(s, now, from, after, limit).0
  }

  ghost function Run(s: StoreState, ops: seq<Op>): StoreState {
    if ops == [] then s else Step(Run(s, ops[..|ops| - 1]), ops[|ops| - 1])
  }

  // Published slots never go down along the run.
  ghost predicate NeverRegresses(s: StoreState, ops: seq<Op>) {
    forall i :: 0 <= i < |ops| && ops[i].Publish? ==> Run(s, ops[..i]).current.slot <= ops[i].slot
  }

  // ----- A slot names one map -----

  // Every retained snapshot has the slot it is retained under, is not newer than the current one,
  // and is the current one if it has its nonzero slot.
  ghost predicate OneMapPerSlot(s: StoreState) {
    forall slot :: slot in s.retained ==>
      var kept := s.retained[slot].snapshot;
      kept.slot == slot <= s.current.slot && (slot == s.current.slot != 0 ==> kept == s.current)
  }

  lemma StepKeepsOneMap(s: StoreState, op: Op)
    requires OneMapPerSlot(s) && (op.Publish? ==> s.current.slot <= op.slot)
    ensures OneMapPerSlot(Step(s, op))
    ensures s.current.slot <= Step(s, op).current.slot
    ensures s.current.slot == Step(s, op).current.slot != 0 ==> s.current == Step(s, op).current
  {
  }

  lemma {:induction false} RunKeepsOneMap(s: StoreState, ops: seq<Op>)
    requires OneMapPerSlot(s) && NeverRegresses(s, ops)
    ensures OneMapPerSlot(Run(s, ops))
  {
    if ops == [] {
    } else {
      PrefixNeverRegresses(s, ops, |ops| - 1);
      RunKeepsOneMap(s, ops[..|ops| - 1]);
      StepKeepsOneMap(Run(s, ops[..|ops| - 1]), ops[|ops| - 1]);
    }
  }

  lemma PrefixNeverRegresses(s: StoreState, ops: seq<Op>, n: nat)
    requires NeverRegresses(s, ops) && n <= |ops|
    ensures NeverRegresses(s, ops[..n])
  {
    forall i | 0 <= i < n && ops[i].Publish?
      ensures Run(s, ops[..n][..i]).current.slot <= ops[i].slot
    {
      assert ops[..n][..i] == ops[..i];
    }
  }

  lemma RunUpTo(s: StoreState, ops: seq<Op>, j: nat)
    requires 0 < j <= |ops|
    ensures Run(s, ops[..j]) == Step(Run(s, ops[..j - 1]), ops[j - 1])
  {
    assert ops[..j][..j - 1] == ops[..j - 1];
  }

  lemma AdjacentMoments(s: StoreState, ops: seq<Op>, j: nat)
    requires OneMapPerSlot(s) && NeverRegresses(s, ops) && 0 < j <= |ops|
    ensures var before, after := Run(s, ops[..j - 1]).current, Run(s, ops[..j]).current;
            before.slot <= after.slot && (before.slot == after.slot != 0 ==> before == after)
  {
    PrefixNeverRegresses(s, ops, j - 1);
    RunKeepsOneMap(s, ops[..j - 1]);
    RunUpTo(s, ops, j);
    StepKeepsOneMap(Run(s, ops[..j - 1]), ops[j - 1]);
  }

  // While published slots do not go down, two moments with the same nonzero current slot have the
  // same current map.
  lemma {:induction false} SlotNamesOneMap(s: StoreState, ops: seq<Op>, i: nat, j: nat)
    requires OneMapPerSlot(s) && NeverRegresses(s, ops) && i <= j <= |ops|
    ensures var first, second := Run(s, ops[..i]).current, Run(s, ops[..j]).current;
            first.slot <= second.slot && (first.slot == second.slot != 0 ==> first == second)
    decreases j
  {
    if i >= j {
    } else {
      SlotNamesOneMap(s, ops, i, j - 1);
      AdjacentMoments(s, ops, j);
    }
  }

  lemma StepRetains(s: StoreState, op: Op, slot: Slot)
    requires OneMapPerSlot(s) && slot in Step(s, op).retained
    ensures var kept := Step(s, op).retained[slot].snapshot;
            kept == s.current || (slot in s.retained && s.retained[slot].snapshot == kept)
  {
  }

  // Starting from an empty store, whatever is retained under a slot was once current under it.
  lemma {:induction false} RetainedWasCurrent(ops: seq<Op>, slot: Slot)
    requires NeverRegresses(EMPTY, ops) && slot in Run(EMPTY, ops).retained
    ensures exists i :: 0 <= i < |ops| && Run(EMPTY, ops[..i]).current == Run(EMPTY, ops).retained[slot].snapshot
    ensures Run(EMPTY, ops).retained[slot].snapshot.slot == slot
  {
    RunKeepsOneMap(EMPTY, ops);
    var n, kept := |ops| - 1, Run(EMPTY, ops).retained[slot].snapshot;
    PrefixNeverRegresses(EMPTY, ops, n);
    RunKeepsOneMap(EMPTY, ops[..n]);
    StepRetains(Run(EMPTY, ops[..n]), ops[n], slot);
    if Run(EMPTY, ops[..n]).current != kept {
      RetainedWasCurrent(ops[..n], slot);
      var i :| 0 <= i < n && Run(EMPTY, ops[..n][..i]).current == kept;
      assert ops[..n][..i] == ops[..i];
    }
  }

  // ----- Following a cursor -----

  // What happens before a continuation of the pager: other readers and publications, then the time
  // of the call.
  datatype Visit = Visit(others: seq<Op>, now: Time)

  datatype Outcome =
    | Complete(accounts: seq<Account>, pages: nat)
    | Failed(error: PageError)
    | Unfinished

  function Prepend(accounts: seq<Account>, rest: Outcome): Outcome {
    match rest
    case Complete(more, pages) => Complete(accounts + more, pages + 1)
    case other => other
  }

  // One continuation: the effect and the answer of the call after the given key.
  ghost function Turn(s: StoreState, slot: Slot, after: Key, limit: nat, visit: Visit)
    : (StoreState, Result<SnapshotPage, PageError>)
  {
    Page(Run(s, visit.others), visit.now, Some(slot), Some(after), limit)
  }

  // Continue after the given key until a page has no cursor.
  ghost function Follow(s: StoreState, slot: Slot, after: Key, limit: nat, visits: seq<Visit>): Outcome
    decreases |visits|
  {
    if visits == [] then Unfinished
    else
      var (s', page) := Turn(s, slot, after, limit, visits[0]);
      match page
      case Err(e) => Failed(e)
      case Ok(p) =>
        match p.next
        case None => Complete(p.accounts, 1)
        case Some(next) => Prepend(p.accounts, Follow(s', p.slot, next, limit, visits[1..]))
  }

  ghost function Paginate(s: StoreState, now: Time, limit: nat, visits: seq<Visit>): Outcome {
    var (s', page) := Page(s, now, None, None, limit);
    match page
    case Err(e) => Failed(e)
    case Ok(p) =>
      match p.next
      case None => Complete(p.accounts, 1)
      case Some(next) => Prepend(p.accounts, Follow(s', p.slot, next, limit, visits))
  }

  // The number of pages of at most limit entries that n entries take; one page if there are none.
  function Pages(n: nat, limit: nat): nat
    requires limit > 0
  {
    if n <= limit then 1 else 1 + Pages(n - limit, limit)
  }

  lemma {:induction false} PagesIsCeiling(n: nat, limit: nat)
    requires limit > 0
    ensures var p := Pages(n, limit);
            p >= 1 && n <= p * limit && (n == 0 || (p - 1) * limit < n)
  {
    if n <= limit {
    } else {
      PagesIsCeiling(n - limit, limit);
    }
  }

  // The pinned snapshot is retained, unexpired at every read that prunes, and nothing makes the
  // store unready.
  ghost predicate Retains(s: StoreState, pinned: Snapshot) {
    && s.ready
    && pinned.slot in s.retained
    && s.retained[pinned.slot].snapshot == pinned
  }

  ghost predicate StaysFresh(s: StoreState, slot: Slot, ops: seq<Op>) {
    forall i :: 0 <= i < |ops| ==>
      && !ops[i].Invalidate?
      && (ops[i].Read? && ops[i].from.Some? && ops[i].limit > 0 && slot in Run(s, ops[..i]).retained ==>
            Fresh(Run(s, ops[..i]).retained[slot], ops[i].now))
  }

  lemma OtherKeeps(s: StoreState, pinned: Snapshot, op: Op)
    requires Retains(s, pinned) && !op.Invalidate?
    requires op.Read? && op.from.Some? && op.limit > 0 ==> Fresh(s.retained[pinned.slot], op.now)
    ensures Retains(Step(s, op), pinned)
  {
  }

  lemma StaysFreshPrefix(s: StoreState, slot: Slot, ops: seq<Op>, n: nat)
    requires StaysFresh(s, slot, ops) && n <= |ops|
    ensures StaysFresh(s, slot, ops[..n])
  {
    forall i | 0 <= i < n
      ensures ops[..n][i] == ops[i] && ops[..n][..i] == ops[..i]
    {
    }
  }

  lemma {:induction false} OthersKeep(s: StoreState, pinned: Snapshot, ops: seq<Op>)
    requires Retains(s, pinned) && StaysFresh(s, pinned.slot, ops)
    ensures Retains(Run(s, ops), pinned)
  {
    if ops == [] {
    } else {
      var n := |ops| - 1;
      StaysFreshPrefix(s, pinned.slot, ops, n);
      OthersKeep(s, pinned, ops[..n]);
      OtherKeeps(Run(s, ops[..n]), pinned, ops[n]);
    }
  }

  // The cursor has not expired when the pager comes back, each time it does.
  ghost predicate NotExpired(s: StoreState, slot: Slot, after: Key, limit: nat, visits: seq<Visit>)
    decreases |visits|
  {
    visits != [] ==>
      var s1 := Run(s, visits[0].others);
      && StaysFresh(s, slot, visits[0].others)
      && (slot in s1.retained ==> Fresh(s1.retained[slot], visits[0].now))
      && var (s2, page) := Turn(s, slot, after, limit, visits[0]);
         (page.Ok? && page.value.next.Some? ==> NotExpired(s2, slot, page.value.next.value, limit, visits[1..]))
  }

  lemma KeysAfterIndex(m: Accounts, keys: seq<Key>, i: nat)
    requires keys == KeysAfter(m, None) && 0 < i <= |keys|
    ensures KeysAfter(m, Some(keys[i - 1])) == keys[i..]
  {
    IncreasingTail(keys, i - 1);
    var above := KeysAbove(m, Some(keys[i - 1]));
    forall x: nat
      ensures x in above <==> x in keys && keys[i - 1] < x
    {
      if x in keys {
        assert x in KeysAbove(m, None);
      }
    }
    IncreasingUnique(KeysAfter(m, Some(keys[i - 1])), keys[i..]);
  }

  lemma ValuesSplit(m: Accounts, keys: seq<Key>, i: nat, j: nat)
    requires i <= j <= |keys| && forall x :: 0 <= x < |keys| ==> keys[x] in m
    ensures Values(m, keys[i..]) == Values(m, keys[i..j]) + Values(m, keys[j..])
  {
  }

  // The outcome of a pager that returns the entries of the keys from i on.
  ghost predicate Returns(m: Accounts, keys: seq<Key>, i: nat, limit: nat, outcome: Outcome)
    requires (forall x :: 0 <= x < |keys| ==> keys[x] in m) && i <= |keys| && limit > 0
  {
    outcome == Complete(Values(m, keys[i..]), Pages(|keys| - i, limit))
  }

  lemma PrependReturns(m: Accounts, keys: seq<Key>, i: nat, limit: nat, rest: Outcome)
    requires (forall x :: 0 <= x < |keys| ==> keys[x] in m) && limit > 0 && i + limit < |keys|
    requires Returns(m, keys, i + limit, limit, rest)
    ensures Returns(m, keys, i, limit, Prepend(Values(m, keys[i..i + limit]), rest))
  {
    ValuesSplit(m, keys, i, i + limit);
  }

  // One continuation returns the next entries of the pinned snapshot and keeps it retained.
  lemma ContinuationPage(s: StoreState, now: Time, pinned: Snapshot, keys: seq<Key>, i: nat, limit: nat)
    requires Retains(s, pinned) && Fresh(s.retained[pinned.slot], now)
    requires keys == KeysAfter(pinned.accounts, None) && 0 < i < |keys| && limit > 0
    ensures var (s2, page) := Page(s, now, Some(pinned.slot), Some(keys[i - 1]), limit);
            && Retains(s2, pinned)
            && page == Ok(if |keys| - i > limit
                          then SnapshotPage(pinned.slot, Values(pinned.accounts, keys[i..i + limit]),
                            Some(keys[i + limit - 1]))
                          else SnapshotPage(pinned.slot, Values(pinned.accounts, keys[i..]), None))
  {
    KeysAfterIndex(pinned.accounts, keys, i);
    if |keys| - i > limit {
      assert keys[i..][..limit] == keys[i..i + limit];
    }
  }

  lemma TurnPage(s: StoreState, pinned: Snapshot, keys: seq<Key>, i: nat, limit: nat, visits: seq<Visit>)
    requires Retains(s, pinned) && keys == KeysAfter(pinned.accounts, None) && 0 < i < |keys| && limit > 0
    requires visits != [] && NotExpired(s, pinned.slot, keys[i - 1], limit, visits)
    ensures var (s2, page) := Turn(s, pinned.slot, keys[i - 1], limit, visits[0]);
            && Retains(s2, pinned)
            && page.Ok? && page.value.slot == pinned.slot
            && (|keys| - i > limit ==>
                  && page.value.accounts == Values(pinned.accounts, keys[i..i + limit])
                  && page.value.next == Some(keys[i + limit - 1])
                  && NotExpired(s2, pinned.slot, keys[i + limit - 1], limit, visits[1..]))
            && (|keys| - i <= limit ==>
                  && page.value.accounts == Values(pinned.accounts, keys[i..])
                  && page.value.next == None)
  {
    OthersKeep(s, pinned, visits[0].others);
    ContinuationPage(Run(s, visits[0].others), visits[0].now, pinned, keys, i, limit);
  }

  // One turn of the pager: either it ends with the remaining entries, or it goes on from the state
  // it leaves, with the pinned snapshot still retained.
  lemma FollowTurn(s: StoreState, pinned: Snapshot, keys: seq<Key>, i: nat, limit: nat, visits: seq<Visit>)
    returns (s2: StoreState)
    requires Retains(s, pinned) && keys == KeysAfter(pinned.accounts, None) && 0 < i < |keys| && limit > 0
    requires visits != [] && NotExpired(s, pinned.slot, keys[i - 1], limit, visits)
    ensures |keys| - i <= limit ==>
              Returns(pinned.accounts, keys, i, limit, Follow(s, pinned.slot, keys[i - 1], limit, visits))
    ensures |keys| - i > limit ==>
              && Retains(s2, pinned)
              && NotExpired(s2, pinned.slot, keys[i + limit - 1], limit, visits[1..])
              && Follow(s, pinned.slot, keys[i - 1], limit, visits)
                 == Prepend(Values(pinned.accounts, keys[i..i + limit]),
                            Follow(s2, pinned.slot, keys[i + limit - 1], limit, visits[1..]))
  {
    TurnPage(s, pinned, keys, i, limit, visits);
    s2 := Turn(s, pinned.slot, keys[i - 1], limit, visits[0]).0;
  }

  lemma {:induction false} FollowVisitsRest(
    s: StoreState, pinned: Snapshot, keys: seq<Key>, i: nat, limit: nat, visits: seq<Visit>)
    requires Retains(s, pinned) && keys == KeysAfter(pinned.accounts, None) && 0 < i < |keys| && limit > 0
    requires NotExpired(s, pinned.slot, keys[i - 1], limit, visits)
    requires Pages(|keys| - i, limit) <= |visits|
    ensures Returns(pinned.accounts, keys, i, limit, Follow(s, pinned.slot, keys[i - 1], limit, visits))
    decreases |keys| - i
  {
    var j, left := i + limit, visits[1..];
    assert j < |keys| ==> Pages(|keys| - j, limit) <= |left|;
    var s2 := FollowTurn(s, pinned, keys, i, limit, visits);
    if j < |keys| {
      var rest := Follow(s2, pinned.slot, keys[j - 1], limit, left);
      assert Follow(s, pinned.slot, keys[i - 1], limit, visits) == Prepend(Values(pinned.accounts, keys[i..j]), rest);
      assert Returns(pinned.accounts, keys, j, limit, rest) by {
        FollowVisitsRest(s2, pinned, keys, j, limit, left);
      }
      PrependReturns(pinned.accounts, keys, i, limit, rest);
    }
  }

  // Nothing else is retained under the slot of the current snapshot.
  ghost predicate PinsCurrent(s: StoreState) {
    s.current.slot in s.retained ==> s.retained[s.current.slot].snapshot == s.current
  }

  // So it is while published slots do not go down, unless the slot is zero.
  lemma NeverRegressingPins(ops: seq<Op>)
    requires NeverRegresses(EMPTY, ops)
    ensures Run(EMPTY, ops).current.slot != 0 ==> PinsCurrent(Run(EMPTY, ops))
  {
    RunKeepsOneMap(EMPTY, ops);
  }

  // The first page holds the first entries of the current snapshot; if there are more, then as it
  // returns this snapshot is the one retained under its slot exactly when no other was before.
  lemma FirstPage(s: StoreState, now: Time, limit: nat)
    requires s.ready && limit > 0
    ensures var m, keys := s.current.accounts, KeysAfter(s.current.accounts, None);
            var (s', page) := Page(s, now, None, None, limit);
            && |keys| == |m|
            && (|m| > limit ==>
                  && page == Ok(SnapshotPage(s.current.slot, Values(m, keys[0..limit]), Some(keys[limit - 1])))
                  && (PinsCurrent(s) <==> Retains(s', s.current))
                  && (!PinsCurrent(s) ==> s'.retained == s.retained))
            && (|m| <= limit ==> page == Ok(SnapshotPage(s.current.slot, Values(m, keys), None)))
  {
    KeysAfterIsListing(s.current.accounts, None);
  }

  // Paging from a current snapshot with unexpired cursors, where no other is retained under its slot,
  // returns exactly its accounts, once each, in ascending key order, in Pages(n, limit) pages.
  lemma PaginationReadsOneSnapshot(s: StoreState, now: Time, limit: nat, visits: seq<Visit>)
    requires PinsCurrent(s) && s.ready && limit > 0
    requires Pages(|s.current.accounts|, limit) <= |visits| + 1
    requires var (s', page) := Page(s, now, None, None, limit);
             page.Ok? && page.value.next.Some? ==> NotExpired(s', s.current.slot, page.value.next.value, limit, visits)
    ensures var m := s.current.accounts;
            var keys := KeysAfter(m, None);
            && IsListing(keys, m.Keys)
            && Paginate(s, now, limit, visits) == Complete(Values(m, keys), Pages(|m|, limit))
  {
    var m := s.current.accounts;
    var keys := KeysAfter(m, None);
    KeysAfterIsListing(m, None);
    FirstPage(s, now, limit);
    var (s', page) := Page(s, now, None, None, limit);
    if |m| > limit {
      var rest := Follow(s', s.current.slot, keys[limit - 1], limit, visits);
      FollowVisitsRest(s', s.current, keys, limit, limit, visits);
      PrependReturns(m, keys, 0, limit, rest);
      assert keys[0..] == keys;
      assert Paginate(s, now, limit, visits) == Prepend(page.value.accounts, rest);
    }
  }
}
