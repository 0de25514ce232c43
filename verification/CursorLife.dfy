// How long a cursor lives, in every run of the store.
module CursorLife {
  import opened Types
  import opened Store
  import opened Paging
  import opened PagingSafety
  import opened Continuation

  // The last publication or invalidation is a publication.
  ghost predicate IsReady(ops: seq<Op>) {
    exists i :: 0 <= i < |ops| && ops[i].Publish? && NotInvalidSince(ops, i)
  }

  ghost predicate NotInvalidSince(ops: seq<Op>, i: int) {
    forall j :: i < j < |ops| && 0 <= j ==> !ops[j].Invalidate?
  }

  lemma IsReadySnoc(ops: seq<Op>, op: Op)
    ensures IsReady(ops + [op]) <==> op.Publish? || (IsReady(ops) && !op.Invalidate?)
  {
    var all, n := ops + [op], |ops|;
    assert all[n] == op && forall j :: 0 <= j < n ==> all[j] == ops[j];
    if op.Publish? {
      assert NotInvalidSince(all, n);
    }
    if IsReady(ops) && !op.Invalidate? {
      var i :| 0 <= i < n && ops[i].Publish? && NotInvalidSince(ops, i);
      assert NotInvalidSince(all, i);
    }
    if IsReady(all) && !op.Publish? {
      var i :| 0 <= i < |all| && all[i].Publish? && NotInvalidSince(all, i);
      assert NotInvalidSince(ops, i);
    }
  }

  lemma {:induction false} ReadyIff(ops: seq<Op>)
    ensures Run(EMPTY, ops).ready <==> IsReady(ops)
  {
    if ops == [] {
    } else {
      var n := |ops| - 1;
      ReadyIff(ops[..n]);
      IsReadySnoc(ops[..n], ops[n]);
      assert ops[..n] + [ops[n]] == ops;
    }
  }

  // ----- Uses of a cursor's slot -----

  // Op j is an answered continuation under the slot.
  ghost predicate ContinuesIn(s: StoreState, op: Op, slot: Slot) {
    && op.Read? && op.from == Some(slot)
    && Page(s, op.now, op.from, op.after, op.limit).1.Ok?
  }

  // Op j retains the slot's snapshot anew, or continues it.
  ghost predicate Uses(ops: seq<Op>, j: int, slot: Slot) {
    && 0 <= j < |ops|
    && (Inserts(ops, j, slot) || ContinuesIn(Run(EMPTY, ops[..j]), ops[j], slot))
  }

  ghost predicate LastUse(ops: seq<Op>, j: int, slot: Slot) {
    Uses(ops, j, slot) && forall k :: j < k < |ops| ==> !Uses(ops, k, slot)
  }

  // The clock does not go back, and stands at now.
  ghost predicate InTime(ops: seq<Op>, now: Time) {
    && (forall i, j :: 0 <= i < j < |ops| && ops[i].Read? && ops[j].Read? ==> ops[i].now <= ops[j].now)
    && (forall i :: 0 <= i < |ops| && ops[i].Read? ==> ops[i].now <= now)
  }

  lemma UseStep(s: StoreState, op: Op, slot: Slot)
    requires NamesOwnSlot(s)
    ensures NamesOwnSlot(Step(s, op))
    ensures var next, used := Step(s, op), InsertsIn(s, op, slot) || ContinuesIn(s, op, slot);
            && (used ==> slot in next.retained && next.retained[slot].touched == op.now)
            && (!used && slot in next.retained ==>
                  slot in s.retained && next.retained[slot].touched == s.retained[slot].touched)
            && (!used && slot in s.retained && (op.Read? ==> op.now < s.retained[slot].touched + RETENTION) ==>
                  slot in next.retained)
  {
    if op.Read? && op.from.Some? {
      ContinueStep(s, op, slot);
    }
  }

  lemma ContinueStep(s: StoreState, op: Op, slot: Slot)
    requires NamesOwnSlot(s) && op.Read? && op.from.Some?
    ensures NamesOwnSlot(Step(s, op))
    ensures var next := Step(s, op);
            && (ContinuesIn(s, op, slot) ==> slot in next.retained && next.retained[slot].touched == op.now)
            && (!ContinuesIn(s, op, slot) && slot in next.retained ==>
                  slot in s.retained && next.retained[slot].touched == s.retained[slot].touched)
            && (!ContinuesIn(s, op, slot) && slot in s.retained ==>
                  (op.now < s.retained[slot].touched + RETENTION ==> slot in next.retained))
  {
  }

  lemma UsesPrefix(ops: seq<Op>, n: nat, k: nat, slot: Slot)
    requires k < n <= |ops|
    ensures ops[..n][k] == ops[k] && (Uses(ops[..n], k, slot) <==> Uses(ops, k, slot))
  {
    assert ops[..n][..k] == ops[..k];
    assert Inserts(ops[..n], k, slot) <==> Inserts(ops, k, slot);
  }

  lemma LastUseSnoc(ops: seq<Op>, j: int, slot: Slot)
    requires ops != []
    ensures var n := |ops| - 1;
            LastUse(ops, j, slot) <==>
              if j == n then Uses(ops, n, slot) else !Uses(ops, n, slot) && LastUse(ops[..n], j, slot)
    ensures 0 <= j < |ops| - 1 ==> ops[..|ops| - 1][j] == ops[j]
  {
    var n := |ops| - 1;
    forall k | 0 <= k < n
      ensures ops[..n][k] == ops[k]
      ensures Uses(ops[..n], k, slot) <==> Uses(ops, k, slot)
    {
      UsesPrefix(ops, n, k, slot);
    }
  }

  // A slot is retained since its last use, at least until its time is over.
  lemma {:induction false} RetainedSinceLastUse(ops: seq<Op>, slot: Slot, now: Time)
    requires InTime(ops, now)
    ensures var s := Run(EMPTY, ops);
            && NamesOwnSlot(s)
            && (slot in s.retained ==> exists j :: LastUse(ops, j, slot) && s.retained[slot].touched == ops[j].now)
            && (forall j :: LastUse(ops, j, slot) && now < ops[j].now + RETENTION ==>
                  slot in s.retained && s.retained[slot].touched == ops[j].now)
  {
    if ops == [] {
    } else {
      var n := |ops| - 1;
      var before, s := Run(EMPTY, ops[..n]), Run(EMPTY, ops);
      assert InTime(ops[..n], now);
      RetainedSinceLastUse(ops[..n], slot, now);
      UseStep(before, ops[n], slot);
      LastUseSnoc(ops, n, slot);
      if Uses(ops, n, slot) {
        forall j | LastUse(ops, j, slot)
          ensures j == n
        {
          LastUseSnoc(ops, j, slot);
        }
      } else {
        if slot in s.retained {
          var j :| LastUse(ops[..n], j, slot) && before.retained[slot].touched == ops[..n][j].now;
          LastUseSnoc(ops, j, slot);
        }
        forall j | LastUse(ops, j, slot) && now < ops[j].now + RETENTION
          ensures slot in s.retained && s.retained[slot].touched == ops[j].now
        {
          LastUseSnoc(ops, j, slot);
        }
      }
    }
  }

  // In every run, a continuation is answered exactly if the store is ready and less than 300 seconds have
  // passed since the slot was last continued or retained anew.
  lemma AnsweredIff(ops: seq<Op>, slot: Slot, now: Time, after: Option<Key>, limit: nat)
    requires InTime(ops, now)
    ensures var answer := Page(Run(EMPTY, ops), now, Some(slot), after, limit).1;
            var alive := exists j :: LastUse(ops, j, slot) && now < ops[j].now + 300_000_000_000;
            && (answer.Ok? <==> limit > 0 && IsReady(ops) && alive)
            && (answer == Err(BadLimit) <==> limit == 0)
            && (answer == Err(NotReady) <==> limit > 0 && !IsReady(ops))
            && (answer == Err(Expired) <==> limit > 0 && IsReady(ops) && !alive)
  {
    ReadyIff(ops);
    RetainedSinceLastUse(ops, slot, now);
  }

  // A first page is answered whenever the store is ready.
  lemma FirstAnsweredIff(ops: seq<Op>, now: Time, after: Option<Key>, limit: nat)
    ensures var answer := Page(Run(EMPTY, ops), now, None, after, limit).1;
            && (answer.Ok? <==> limit > 0 && IsReady(ops))
            && (answer == Err(BadLimit) <==> limit == 0)
            && (answer == Err(NotReady) <==> limit > 0 && !IsReady(ops))
  {
    ReadyIff(ops);
  }

  // A continuation, answered or expired, leaves retained exactly what was used in the last 300 seconds, so
  // the store does not grow without bound; nothing else removes a retained snapshot.
  lemma PrunesExactly(s: StoreState, now: Time, slot: Slot, after: Option<Key>, limit: nat, other: Slot)
    requires s.ready && limit > 0 && NamesOwnSlot(s)
    ensures var next := Page(s, now, Some(slot), after, limit).0;
            other in next.retained <==> other in s.retained && now < s.retained[other].touched + 300_000_000_000
  {
  }

  lemma OnlyContinuationsPrune(s: StoreState, op: Op, other: Slot)
    requires other in s.retained && !(op.Read? && op.from.Some?)
    ensures other in Step(s, op).retained && Step(s, op).retained[other] == s.retained[other]
  {
  }

  // A first page does not renew what is retained. When the slot was retained 300 seconds ago and nothing
  // has pruned it, the cursor a first page hands out is dead on arrival.
  lemma FirstCursorMayBeDead(url: string, slot: Slot, accounts: Accounts, now: Time, limit: nat)
    requires 0 < limit < |accounts|
    ensures var later := now + 300_000_000_000;
            var s := Run(EMPTY, [Publish(url, slot, accounts)] + [Read(now, None, None, limit)]);
            var (s1, first) := Page(s, later, None, None, limit);
            && first.Ok? && first.value.next.Some?
            && Page(s1, later, Some(slot), first.value.next, limit).1 == Err(Expired)
  {
    var ops := [Publish(url, slot, accounts)];
    RunThen(EMPTY, [], Publish(url, slot, accounts));
    assert [] + ops == ops;
    FirstPage(Run(EMPTY, ops), now, limit);
    RunThen(EMPTY, ops, Read(now, None, None, limit));
    FirstPage(Run(EMPTY, ops + [Read(now, None, None, limit)]), now + 300_000_000_000, limit);
  }
}
