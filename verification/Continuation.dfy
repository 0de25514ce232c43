// Which map a cursor continues, in every run of the store.
module Continuation {
  import opened Types
  import opened Store
  import opened Paging
  import opened PagingSafety

  // Op j is a first page that leaves the snapshot it reads retained under its slot.
  ghost predicate Inserts(ops: seq<Op>, j: int, slot: Slot) {
    && 0 <= j < |ops|
    && InsertsIn(Run(EMPTY, ops[..j]), ops[j], slot)
  }

  ghost predicate InsertsIn(s: StoreState, op: Op, slot: Slot) {
    && op.Read? && op.from.None? && op.limit > 0 && s.ready
    && s.current.slot == slot && slot !in s.retained
    && |KeysAfter(s.current.accounts, op.after)| > op.limit
  }

  ghost predicate LastInsertion(ops: seq<Op>, j: int, slot: Slot) {
    Inserts(ops, j, slot) && forall k :: j < k < |ops| ==> !Inserts(ops, k, slot)
  }

  lemma InsertStep(s: StoreState, op: Op, slot: Slot)
    requires NamesOwnSlot(s)
    ensures NamesOwnSlot(Step(s, op))
    ensures slot in Step(s, op).retained ==>
              if InsertsIn(s, op, slot) then Step(s, op).retained[slot].snapshot == s.current
              else slot in s.retained && Step(s, op).retained[slot].snapshot == s.retained[slot].snapshot
  {
  }

  lemma LastInsertionSnoc(ops: seq<Op>, slot: Slot, j: int)
    requires ops != []
    ensures var n := |ops| - 1;
            && (LastInsertion(ops[..n], j, slot) && !Inserts(ops, n, slot) ==> LastInsertion(ops, j, slot))
            && (Inserts(ops, n, slot) ==> LastInsertion(ops, n, slot))
            && (0 <= j < n ==> ops[..n][..j] == ops[..j])
  {
    var n := |ops| - 1;
    forall k | 0 <= k < n
      ensures ops[..n][..k] == ops[..k]
      ensures Inserts(ops[..n], k, slot) == Inserts(ops, k, slot)
    {
      assert ops[..n][..k] == ops[..k] && ops[..n][k] == ops[k];
    }
  }

  // Whatever is retained under a slot was current at the last first page that retained it anew.
  lemma {:induction false} RetainedIsLastInserted(ops: seq<Op>, slot: Slot) returns (j: int)
    ensures NamesOwnSlot(Run(EMPTY, ops))
    ensures slot in Run(EMPTY, ops).retained ==>
              LastInsertion(ops, j, slot) && Run(EMPTY, ops).retained[slot].snapshot == Run(EMPTY, ops[..j]).current
  {
    if ops == [] {
      j := 0;
    } else {
      var n := |ops| - 1;
      var before := Run(EMPTY, ops[..n]);
      j := RetainedIsLastInserted(ops[..n], slot);
      InsertStep(before, ops[n], slot);
      LastInsertionSnoc(ops, slot, j);
      if InsertsIn(before, ops[n], slot) {
        j := n;
      }
    }
  }

  lemma LastInsertionUnique(ops: seq<Op>, i: int, j: int, slot: Slot)
    requires LastInsertion(ops, i, slot) && LastInsertion(ops, j, slot)
    ensures i == j
  {
  }

  // The key before k, if any.
  function Preceding(k: Key): Option<Key> {
    if k == 0 then None else Some(k - 1)
  }

  // A key of m comes first after the preceding one; another key adds nothing there.
  lemma AbovePreceding(m: Accounts, k: Key)
    ensures KeysAbove(m, Preceding(k)) == KeysAbove(m, Some(k)) + (if k in m then {k} else {})
  {
  }

  lemma KeyAfterPreceding(m: Accounts, k: Key)
    ensures |KeysAfter(m, Preceding(k))| == |KeysAfter(m, Some(k))| + (if k in m then 1 else 0)
  {
    KeysAfterIsListing(m, Preceding(k));
    KeysAfterIsListing(m, Some(k));
    AbovePreceding(m, k);
  }

  lemma FirstAfterPreceding(m: Accounts, k: Key)
    requires k in m
    ensures KeysAfter(m, Preceding(k)) != [] && KeysAfter(m, Preceding(k))[0] == k
  {
    var keys := KeysAfter(m, Preceding(k));
    KeysAfterIsListing(m, Preceding(k));
    AbovePreceding(m, k);
    assert k in keys && keys[0] in keys;
    var i :| 0 <= i < |keys| && keys[i] == k;
    assert i == 0;
  }

  lemma AboveFits(m: Accounts, after: Option<Key>)
    ensures |KeysAbove(m, after)| <= |m|
  {
    assert m.Keys == KeysAbove(m, after) + (m.Keys - KeysAbove(m, after));
    assert |m.Keys| == |KeysAbove(m, after)| + |m.Keys - KeysAbove(m, after)|;
  }

  // All pages of two snapshots of one slot are the same.
  ghost predicate SamePages(a: Snapshot, b: Snapshot) {
    forall after: Option<Key>, limit: nat :: limit > 0 ==> PageFrom(a, after, limit) == PageFrom(b, after, limit)
  }

  // Then they are the same snapshot.
  lemma PagesTell(a: Snapshot, b: Snapshot)
    requires SamePages(a, b)
    ensures a == b
  {
    var limit := |a.accounts| + |b.accounts| + 1;
    forall k
      ensures Lookup(a.accounts, k) == Lookup(b.accounts, k)
    {
      SameLookup(a, b, limit, k);
    }
    SameLookups(a.accounts, b.accounts);
    assert PageFrom(a, None, limit).slot == PageFrom(b, None, limit).slot;
  }

  lemma SameLookup(a: Snapshot, b: Snapshot, limit: nat, k: Key)
    requires limit > |a.accounts| && limit > |b.accounts|
    requires PageFrom(a, Preceding(k), limit) == PageFrom(b, Preceding(k), limit)
    requires PageFrom(a, Some(k), limit) == PageFrom(b, Some(k), limit)
    ensures Lookup(a.accounts, k) == Lookup(b.accounts, k)
  {
    PageTells(a, limit, k);
    PageTells(b, limit, k);
  }

  // The two pages around k tell whether it is in the snapshot, and with what value.
  lemma PageTells(s: Snapshot, limit: nat, k: Key)
    requires limit > |s.accounts|
    ensures var before, after := PageFrom(s, Preceding(k), limit).accounts, PageFrom(s, Some(k), limit).accounts;
            && (k in s.accounts <==> |before| > |after|)
            && (k in s.accounts ==> before[0] == s.accounts[k])
  {
    WholePage(s, Preceding(k), limit);
    WholePage(s, Some(k), limit);
    KeyAfterPreceding(s.accounts, k);
    if k in s.accounts {
      FirstAfterPreceding(s.accounts, k);
    }
  }

  lemma WholePage(s: Snapshot, after: Option<Key>, limit: nat)
    requires limit > |s.accounts|
    ensures PageFrom(s, after, limit)
            == SnapshotPage(s.slot, Values(s.accounts, KeysAfter(s.accounts, after)), None)
  {
    KeysAfterIsListing(s.accounts, after);
    AboveFits(s.accounts, after);
  }

  // Every continuation under the slot, at this time, is answered with the page of one snapshot.
  ghost predicate AnswersFrom(s: StoreState, now: Time, pinned: Snapshot) {
    forall after: Option<Key>, limit: nat ::
      limit > 0 ==> Page(s, now, Some(pinned.slot), after, limit).1 == Ok(PageFrom(pinned, after, limit))
  }

  lemma AnsweredFromRetained(s: StoreState, now: Time, slot: Slot, after: Option<Key>, limit: nat)
    requires limit > 0 && NamesOwnSlot(s) && Page(s, now, Some(slot), after, limit).1.Ok?
    ensures slot in s.retained && AnswersFrom(s, now, s.retained[slot].snapshot)
  {
  }

  // Once a continuation under the slot of pinned is answered, all are answered from pinned exactly when
  // it was current at the last first page that retained its slot anew: in every run, whatever was
  // published in whatever order of slots, expired or pruned.
  lemma ContinuesSnapshotIff(ops: seq<Op>, pinned: Snapshot, now: Time, after: Option<Key>, limit: nat)
    requires limit > 0 && Page(Run(EMPTY, ops), now, Some(pinned.slot), after, limit).1.Ok?
    ensures AnswersFrom(Run(EMPTY, ops), now, pinned)
            <==> exists j :: LastInsertion(ops, j, pinned.slot) && Run(EMPTY, ops[..j]).current == pinned
  {
    var s := Run(EMPTY, ops);
    var j := RetainedIsLastInserted(ops, pinned.slot);
    AnsweredFromRetained(s, now, pinned.slot, after, limit);
    var kept := s.retained[pinned.slot].snapshot;
    if AnswersFrom(s, now, pinned) {
      forall after: Option<Key>, limit: nat | limit > 0
        ensures PageFrom(kept, after, limit) == PageFrom(pinned, after, limit)
      {
        assert Page(s, now, Some(pinned.slot), after, limit).1 == Ok(PageFrom(pinned, after, limit));
      }
      PagesTell(kept, pinned);
    }
    if i :| LastInsertion(ops, i, pinned.slot) && Run(EMPTY, ops[..i]).current == pinned {
      LastInsertionUnique(ops, i, j, pinned.slot);
    }
  }
}
