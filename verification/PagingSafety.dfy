// What a cursor may continue: the cases in which it goes on in another map, the proof that it never
// does while published slots do not go down, and how long it lives.
module PagingSafety {
  import opened Types
  import opened Store
  import opened Paging

  // A page of a snapshot.
  ghost function PageFrom(snapshot: Snapshot, after: Option<Key>, limit: nat): SnapshotPage
    requires limit > 0
  {
    var keys := KeysAfter(snapshot.accounts, after);
    if |keys| > limit then
      SnapshotPage(snapshot.slot, Values(snapshot.accounts, keys[..limit]), Some(keys[limit - 1]))
    else SnapshotPage(snapshot.slot, Values(snapshot.accounts, keys), None)
  }

  // What is retained under a slot has that slot.
  ghost predicate NamesOwnSlot(s: StoreState) {
    forall slot :: slot in s.retained ==> s.retained[slot].snapshot.slot == slot
  }

  // Slot zero is the exception: publication at slot zero replaces the map under the same slot, so a
  // cursor left by an older reader makes a later reader continue in the older map.
  lemma SlotZeroContinuesOlderMap(url: string, older: Accounts, newer: Accounts, now: Time, limit: nat)
    requires 0 < limit < |older| && limit < |newer|
    ensures var ops := [Publish(url, 0, older), Read(now, None, None, limit), Publish(url, 0, newer)];
            var s := Run(EMPTY, ops);
            && NeverRegresses(EMPTY, ops)
            && s.ready && s.current == Snapshot(0, newer)
            && var (s1, first) := Page(s, now, None, None, limit);
               && first.Ok? && first.value.next.Some?
               && (var keys := KeysAfter(newer, None);
                   |keys| > limit && first.value.accounts == Values(newer, keys[..limit]))
               && Page(s1, now, Some(0), first.value.next, limit).1
                  == Ok(PageFrom(Snapshot(0, older), first.value.next, limit))
  {
    var p, r, q := Publish(url, 0, older), Read(now, None, None, limit), Publish(url, 0, newer);
    var ops := [p, r, q];
    assert ops[..0] == [] && ops[..1] == [p] && ops[..2] == [p, r] && ops[..3] == ops;
    assert [p, r][..1] == [p] && [p][..0] == [];
    assert Run(EMPTY, []) == EMPTY;
    KeysAfterIsListing(older, None);
    KeysAfterIsListing(newer, None);
    var s1, s2 := Run(EMPTY, [p]), Run(EMPTY, [p, r]);
    assert s1 == Step(EMPTY, p) && s2 == Step(s1, r);
    assert s2.retained[0] == Retained(Snapshot(0, older), now);
    assert Run(EMPTY, ops) == Step(s2, q);
  }

  lemma RunThen(s: StoreState, ops: seq<Op>, op: Op)
    ensures Run(s, ops + [op]) == Step(Run(s, ops), op)
  {
    assert (ops + [op])[..|ops|] == ops;
  }

  // And published slots may go down, from one serve session to the next: a slot reached a second
  // time then has cursors that continue the map of the first.
  lemma RegressionContinuesOlderMap(
    url: string, slot: Slot, lower: Slot, between: Accounts, older: Accounts, newer: Accounts, now: Time, limit: nat)
    requires lower < slot && 0 < limit < |older| && limit < |newer|
    ensures var ops := [Publish(url, slot, older)] + [Read(now, None, None, limit)] + [Invalidate]
                       + [Publish(url, lower, between)] + [Publish(url, slot, newer)];
            var s := Run(EMPTY, ops);
            && s.ready && s.current == Snapshot(slot, newer)
            && var (s1, first) := Page(s, now, None, None, limit);
               && first.Ok? && first.value.next.Some?
               && (var keys := KeysAfter(newer, None);
                   |keys| > limit && first.value.accounts == Values(newer, keys[..limit]))
               && Page(s1, now, Some(slot), first.value.next, limit).1
                  == Ok(PageFrom(Snapshot(slot, older), first.value.next, limit))
  {
    var ops := [Publish(url, slot, older)];
    RunThen(EMPTY, [], Publish(url, slot, older));
    assert [] + ops == ops;
    FirstPage(Run(EMPTY, ops), now, limit);
    RunThen(EMPTY, ops, Read(now, None, None, limit));
    ops := ops + [Read(now, None, None, limit)];
    RunThen(EMPTY, ops, Invalidate);
    ops := ops + [Invalidate];
    RunThen(EMPTY, ops, Publish(url, lower, between));
    ops := ops + [Publish(url, lower, between)];
    RunThen(EMPTY, ops, Publish(url, slot, newer));
    ops := ops + [Publish(url, slot, newer)];
    var s := Run(EMPTY, ops);
    assert s.retained[slot] == Retained(Snapshot(slot, older), now);
    FirstPage(s, now, limit);
  }

  // Nor is it enough then that the first page pinned its own snapshot: once that is pruned, another
  // reader may retain the newer map under the slot, and the old cursor goes on in it.
  lemma PrunedCursorContinuesNewerMap(
    url: string, slot: Slot, lower: Slot, between: Accounts, older: Accounts, newer: Accounts, now: Time, limit: nat,
    key: Key)
    requires lower < slot && 0 < limit < |older| && limit < |newer|
    ensures var later := now + RETENTION;
            var before := [Publish(url, slot, older)] + [Read(now, None, None, limit)];
            var ops := before + [Read(later, Some(slot), Some(key), limit)] + [Invalidate]
                       + [Publish(url, lower, between)] + [Publish(url, slot, newer)]
                       + [Read(later, None, None, limit)];
            var first := Page(Run(EMPTY, [Publish(url, slot, older)]), now, None, None, limit).1;
            && PinsCurrent(Run(EMPTY, [Publish(url, slot, older)]))
            && first.Ok? && first.value.next.Some?
            && (var keys := KeysAfter(older, None);
                |keys| > limit && first.value.accounts == Values(older, keys[..limit]))
            && Page(Run(EMPTY, before), later, Some(slot), Some(key), limit).1 == Err(Expired)
            && Page(Run(EMPTY, ops), later, Some(slot), first.value.next, limit).1
               == Ok(PageFrom(Snapshot(slot, newer), first.value.next, limit))
  {
    var later, ops := now + RETENTION, [Publish(url, slot, older)];
    RunThen(EMPTY, [], Publish(url, slot, older));
    assert [] + ops == ops;
    FirstPage(Run(EMPTY, ops), now, limit);
    RunThen(EMPTY, ops, Read(now, None, None, limit));
    ops := ops + [Read(now, None, None, limit)];
    RunThen(EMPTY, ops, Read(later, Some(slot), Some(key), limit));
    ops := ops + [Read(later, Some(slot), Some(key), limit)];
    assert Run(EMPTY, ops).retained == map[];
    RunThen(EMPTY, ops, Invalidate);
    ops := ops + [Invalidate];
    RunThen(EMPTY, ops, Publish(url, lower, between));
    ops := ops + [Publish(url, lower, between)];
    RunThen(EMPTY, ops, Publish(url, slot, newer));
    ops := ops + [Publish(url, slot, newer)];
    FirstPage(Run(EMPTY, ops), later, limit);
    RunThen(EMPTY, ops, Read(later, None, None, limit));
  }

  // ----- While slots do not go down, a cursor never mixes maps, fresh or expired -----

  // The nonzero slot of pinned names pinned and nothing else.
  ghost predicate NamesOnly(s: StoreState, pinned: Snapshot) {
    && NamesOwnSlot(s)
    && 0 < pinned.slot <= s.current.slot
    && (s.current.slot == pinned.slot ==> s.current == pinned)
    && (pinned.slot in s.retained ==> s.retained[pinned.slot].snapshot == pinned)
  }

  lemma StepNamesOnly(s: StoreState, pinned: Snapshot, op: Op)
    requires NamesOnly(s, pinned) && (op.Publish? ==> s.current.slot <= op.slot)
    ensures NamesOnly(Step(s, op), pinned)
  {
  }

  lemma {:induction false} RunNamesOnly(s: StoreState, pinned: Snapshot, ops: seq<Op>)
    requires NamesOnly(s, pinned) && NeverRegresses(s, ops)
    ensures NamesOnly(Run(s, ops), pinned)
  {
    if ops == [] {
    } else {
      var n := |ops| - 1;
      PrefixNeverRegresses(s, ops, n);
      RunNamesOnly(s, pinned, ops[..n]);
      StepNamesOnly(Run(s, ops[..n]), pinned, ops[n]);
    }
  }

  lemma {:induction false} NamesOnlyAfter(ops: seq<Op>, i: nat, j: nat)
    requires NeverRegresses(EMPTY, ops) && i <= j <= |ops|
    requires Run(EMPTY, ops[..i]).current.slot != 0
    ensures NamesOnly(Run(EMPTY, ops[..j]), Run(EMPTY, ops[..i]).current)
    decreases j
  {
    if i == j {
      PrefixNeverRegresses(EMPTY, ops, i);
      RunKeepsOneMap(EMPTY, ops[..i]);
    } else {
      NamesOnlyAfter(ops, i, j - 1);
      RunUpTo(EMPTY, ops, j);
      StepNamesOnly(Run(EMPTY, ops[..j - 1]), Run(EMPTY, ops[..i]).current, ops[j - 1]);
    }
  }

  // In a run whose published slots never go down, whatever is asked with a cursor of a nonzero slot,
  // however late, the answer is an error or the entries after the cursor of the one map that was
  // ever current at that slot.
  lemma CursorNeverMixesMaps(ops: seq<Op>, i: nat, now: Time, after: Option<Key>, limit: nat)
    requires NeverRegresses(EMPTY, ops) && i <= |ops| && Run(EMPTY, ops[..i]).current.slot != 0 && limit > 0
    ensures var pinned := Run(EMPTY, ops[..i]).current;
            var answer := Page(Run(EMPTY, ops), now, Some(pinned.slot), after, limit).1;
            answer.Ok? ==> answer == Ok(PageFrom(pinned, after, limit))
  {
    assert ops[..|ops|] == ops;
    NamesOnlyAfter(ops, i, |ops|);
  }

  // Published slots never go down while the pager comes and goes.
  ghost predicate NeverFalls(s: StoreState, slot: Slot, after: Key, limit: nat, visits: seq<Visit>)
    decreases |visits|
  {
    visits != [] ==>
      && NeverRegresses(s, visits[0].others)
      && var (s2, page) := Turn(s, slot, after, limit, visits[0]);
         (page.Ok? && page.value.next.Some? ==> NeverFalls(s2, slot, page.value.next.value, limit, visits[1..]))
  }

  // A turn fails, or it returns the next entries of the pinned snapshot.
  lemma SafeTurn(s: StoreState, pinned: Snapshot, keys: seq<Key>, i: nat, limit: nat, visits: seq<Visit>)
    requires NamesOnly(s, pinned) && keys == KeysAfter(pinned.accounts, None) && 0 < i < |keys| && limit > 0
    requires visits != [] && NeverFalls(s, pinned.slot, keys[i - 1], limit, visits)
    ensures var (s2, page) := Turn(s, pinned.slot, keys[i - 1], limit, visits[0]);
            && NamesOnly(s2, pinned)
            && (page.Ok? ==>
                  page == Ok(if |keys| - i > limit
                             then SnapshotPage(pinned.slot, Values(pinned.accounts, keys[i..i + limit]),
                                               Some(keys[i + limit - 1]))
                             else SnapshotPage(pinned.slot, Values(pinned.accounts, keys[i..]), None)))
  {
    var visit := visits[0];
    RunNamesOnly(s, pinned, visit.others);
    var s1 := Run(s, visit.others);
    StepNamesOnly(s1, pinned, Read(visit.now, Some(pinned.slot), Some(keys[i - 1]), limit));
    if Turn(s, pinned.slot, keys[i - 1], limit, visit).1.Ok? {
      ContinuationPage(s1, visit.now, pinned, keys, i, limit);
    }
  }

  // If it gets to the end, it has returned the entries of the keys from i on.
  ghost predicate OnlyThese(m: Accounts, keys: seq<Key>, i: nat, limit: nat, outcome: Outcome)
    requires (forall x :: 0 <= x < |keys| ==> keys[x] in m) && i <= |keys| && limit > 0
  {
    outcome.Complete? ==> Returns(m, keys, i, limit, outcome)
  }

  lemma PrependRest(m: Accounts, keys: seq<Key>, i: nat, limit: nat, rest: Outcome)
    requires (forall x :: 0 <= x < |keys| ==> keys[x] in m) && limit > 0 && i + limit < |keys|
    requires OnlyThese(m, keys, i + limit, limit, rest)
    ensures OnlyThese(m, keys, i, limit, Prepend(Values(m, keys[i..i + limit]), rest))
  {
    if rest.Complete? {
      PrependReturns(m, keys, i, limit, rest);
    }
  }

  // A turn ends the pager, or it follows on from a state in which the slot still names the snapshot.
  lemma SafeFollowTurn(s: StoreState, pinned: Snapshot, keys: seq<Key>, i: nat, limit: nat, visits: seq<Visit>)
    returns (ended: bool, s2: StoreState)
    requires NamesOnly(s, pinned) && keys == KeysAfter(pinned.accounts, None) && 0 < i < |keys| && limit > 0
    requires visits != [] && NeverFalls(s, pinned.slot, keys[i - 1], limit, visits)
    ensures ended ==> OnlyThese(pinned.accounts, keys, i, limit, Follow(s, pinned.slot, keys[i - 1], limit, visits))
    ensures !ended ==>
              && i + limit < |keys|
              && NamesOnly(s2, pinned)
              && NeverFalls(s2, pinned.slot, keys[i + limit - 1], limit, visits[1..])
              && Follow(s, pinned.slot, keys[i - 1], limit, visits)
                 == Prepend(Values(pinned.accounts, keys[i..i + limit]),
                            Follow(s2, pinned.slot, keys[i + limit - 1], limit, visits[1..]))
  {
    SafeTurn(s, pinned, keys, i, limit, visits);
    var (after, page) := Turn(s, pinned.slot, keys[i - 1], limit, visits[0]);
    ended, s2 := page.Err? || |keys| - i <= limit, after;
  }

  lemma {:induction false} FollowNeverMixes(
    s: StoreState, pinned: Snapshot, keys: seq<Key>, i: nat, limit: nat, visits: seq<Visit>)
    requires NamesOnly(s, pinned) && keys == KeysAfter(pinned.accounts, None) && 0 < i < |keys| && limit > 0
    requires NeverFalls(s, pinned.slot, keys[i - 1], limit, visits)
    ensures OnlyThese(pinned.accounts, keys, i, limit, Follow(s, pinned.slot, keys[i - 1], limit, visits))
    decreases |visits|
  {
    if visits == [] {
    } else {
      var ended, s2 := SafeFollowTurn(s, pinned, keys, i, limit, visits);
      if !ended {
        var left := visits[1..];
        var j := i + limit;
        FollowNeverMixes(s2, pinned, keys, j, limit, left);
        var rest := Follow(s2, pinned.slot, keys[j - 1], limit, left);
        assert OnlyThese(pinned.accounts, keys, j, limit, rest);
        PrependRest(pinned.accounts, keys, i, limit, rest);
      }
    }
  }

  // So a pager that gets to the end has read the one snapshot, without any assumption on time.
  lemma PaginationNeverMixesMaps(s: StoreState, now: Time, limit: nat, visits: seq<Visit>)
    requires OneMapPerSlot(s) && s.current.slot != 0 && limit > 0
    requires var (s2, page) := Page(s, now, None, None, limit);
             page.Ok? && page.value.next.Some? ==>
               NeverFalls(s2, s.current.slot, page.value.next.value, limit, visits)
    ensures var m := s.current.accounts;
            var outcome := Paginate(s, now, limit, visits);
            outcome.Complete? ==> outcome == Complete(Values(m, KeysAfter(m, None)), Pages(|m|, limit))
  {
    var m := s.current.accounts;
    var keys := KeysAfter(m, None);
    KeysAfterIsListing(m, None);
    var (s2, page) := Page(s, now, None, None, limit);
    if s.ready && |m| > limit {
      FirstPage(s, now, limit);
      StepNamesOnly(s, s.current, Read(now, None, None, limit));
      var rest := Follow(s2, s.current.slot, keys[limit - 1], limit, visits);
      FollowNeverMixes(s2, s.current, keys, limit, limit, visits);
      PrependRest(m, keys, 0, limit, rest);
      assert keys[0..] == keys;
      assert Paginate(s, now, limit, visits) == Prepend(page.value.accounts, rest);
    }
  }
}
