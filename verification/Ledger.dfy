// The ledger, and when a fetched checkpoint with the events replayed over it is the ledger.
module Ledger {
  import opened Types
  import opened Writes
  import opened Staging
  import opened ClosedForm
  import opened LastWriterWins
  import opened Replay

  // The value of k after every ledger write through slot t.
  function LedgerAt(genesis: Accounts, ledger: seq<Write>, t: Slot, k: Key): Option<Account> {
    Overlay(genesis, Through(ledger, t), k)
  }

  // The map is the ledger at slot t.
  ghost predicate IsLedger(genesis: Accounts, ledger: seq<Write>, t: Slot, m: Accounts) {
    forall k :: Lookup(m, k) == LedgerAt(genesis, ledger, t, k)
  }

  // Every key was fetched (or found absent) as of its own slot in [context, last].
  ghost predicate FuzzyCheckpoint(
    genesis: Accounts, ledger: seq<Write>, base: Accounts, at: Key -> Slot, context: Slot, last: Slot)
  {
    forall k :: context <= at(k) <= last && Lookup(base, k) == LedgerAt(genesis, ledger, at(k), k)
  }

  // es delivers ledger writes only, in order for each key.
  ghost predicate DeliversInOrder(ledger: seq<Write>, es: seq<Event>) {
    Ordered(Puts(es)) && forall w :: w in Puts(es) ==> w in ledger
  }

  // And every one above the context slot up to t.
  ghost predicate DeliversAbove(ledger: seq<Write>, context: Slot, es: seq<Event>, t: Slot) {
    DeliversInOrder(ledger, es) && forall w :: w in ledger && context < w.slot <= t ==> w in Puts(es)
  }

  // And if it delivers one write of a key at the context slot, it delivers the later ones there.
  ghost predicate Delivers(ledger: seq<Write>, context: Slot, es: seq<Event>, t: Slot) {
    && DeliversAbove(ledger, context, es, t)
    && forall v, w :: v in Puts(es) && w in ledger && v.key == w.key && v.slot == w.slot == context && Before(v, w)
                      ==> w in Puts(es)
  }

  // ----- The exact condition -----

  // v is the last write delivered of its key through slot t, and the ledger has a later one.
  ghost predicate IsStale(ledger: seq<Write>, context: Slot, es: seq<Event>, t: Slot, v: Write) {
    v in Puts(es) && context <= v.slot <= t && !Overtaken(Puts(es), t, v) && Overtaken(ledger, t, v)
  }

  // w is a ledger write between the slot its key was fetched at and t, and nothing delivered through t
  // replaces what was fetched.
  ghost predicate IsOff(ledger: seq<Write>, at: Key -> Slot, context: Slot, es: seq<Event>, t: Slot, w: Write) {
    && w in ledger
    && (at(w.key) < w.slot <= t || t < w.slot <= at(w.key))
    && forall v :: v in Puts(es) && v.key == w.key && context <= v.slot ==> t < v.slot
  }

  // Stale writes stored, and keys that are off were fetched with, the value the ledger has at t.
  ghost predicate NoneWrong(
    genesis: Accounts, ledger: seq<Write>, base: Accounts, at: Key -> Slot, context: Slot, es: seq<Event>, t: Slot)
  {
    && (forall v :: IsStale(ledger, context, es, t, v) ==> v.account == LedgerAt(genesis, ledger, t, v.key))
    && (forall w :: IsOff(ledger, at, context, es, t, w) ==>
          Lookup(base, w.key) == LedgerAt(genesis, ledger, t, w.key))
  }

  // The checkpoint with the delivered writes through t laid over it.
  ghost function Replayed(base: Accounts, context: Slot, es: seq<Event>, t: Slot): Accounts {
    ApplyWrites(base, Through(From(Puts(es), context), t))
  }

  lemma ReplayedMembers(base: Accounts, context: Slot, es: seq<Event>, t: Slot, k: Key)
    requires Ordered(Puts(es))
    ensures var ws := Through(From(Puts(es), context), t);
            && Lookup(Replayed(base, context, es, t), k) == Overlay(base, ws, k)
            && Ordered(ws) && forall w :: w in ws <==> w in Puts(es) && context <= w.slot <= t
  {
    FromMembers(Puts(es), context);
    ThroughMembers(From(Puts(es), context), t);
    ApplyWritesLookup(base, Through(From(Puts(es), context), t), k);
  }

  lemma StaleKey(base: Accounts, context: Slot, es: seq<Event>, t: Slot, v: Write)
    requires Ordered(Puts(es)) && v in Puts(es) && context <= v.slot <= t && !Overtaken(Puts(es), t, v)
    ensures Lookup(Replayed(base, context, es, t), v.key) == v.account
  {
    ReplayedMembers(base, context, es, t, v.key);
    var ws := Through(From(Puts(es), context), t);
    LastProperties(ws, v.key);
    assert v in ws;
  }

  lemma UndeliveredKey(base: Accounts, context: Slot, es: seq<Event>, t: Slot, k: Key)
    requires Ordered(Puts(es))
    requires forall v :: v in Puts(es) && v.key == k && context <= v.slot ==> t < v.slot
    ensures Lookup(Replayed(base, context, es, t), k) == Lookup(base, k)
  {
    ReplayedMembers(base, context, es, t, k);
    LastProperties(Through(From(Puts(es), context), t), k);
  }

  // Without a ledger write of k between two slots, its value is the same at both.
  lemma SameBetween(genesis: Accounts, ledger: seq<Write>, a: Slot, b: Slot, k: Key)
    requires Ordered(ledger) && a <= b
    requires forall w :: w in ledger && w.key == k && a < w.slot ==> b < w.slot
    ensures LedgerAt(genesis, ledger, a, k) == LedgerAt(genesis, ledger, b, k)
  {
    ThroughMembers(ledger, a);
    ThroughMembers(ledger, b);
    LastProperties(Through(ledger, a), k);
    LastProperties(Through(ledger, b), k);
    if Last(Through(ledger, b), k).Some? {
      LastIsGreatest(Through(ledger, a), k, Last(Through(ledger, b), k).value);
    }
  }

  lemma LastInLedger(genesis: Accounts, ledger: seq<Write>, t: Slot, v: Write)
    requires Ordered(ledger) && v in ledger && v.slot <= t && !Overtaken(ledger, t, v)
    ensures LedgerAt(genesis, ledger, t, v.key) == v.account
  {
    ThroughMembers(ledger, t);
    LastProperties(Through(ledger, t), v.key);
    assert v in Through(ledger, t);
  }

  lemma ReplayedKey(
    genesis: Accounts, ledger: seq<Write>, base: Accounts, at: Key -> Slot, context: Slot, es: seq<Event>, t: Slot,
    k: Key)
    requires Ordered(ledger) && DeliversInOrder(ledger, es)
    requires Lookup(base, k) == LedgerAt(genesis, ledger, at(k), k)
    requires NoneWrong(genesis, ledger, base, at, context, es, t)
    ensures Lookup(Replayed(base, context, es, t), k) == LedgerAt(genesis, ledger, t, k)
  {
    var ws := Through(From(Puts(es), context), t);
    ReplayedMembers(base, context, es, t, k);
    LastProperties(ws, k);
    match Last(ws, k)
    case Some(v) =>
      StaleKey(base, context, es, t, v);
      if Overtaken(ledger, t, v) {
        assert IsStale(ledger, context, es, t, v);
      } else {
        LastInLedger(genesis, ledger, t, v);
      }
    case None =>
      UndeliveredKey(base, context, es, t, k);
      if w :| w in ledger && w.key == k && IsOff(ledger, at, context, es, t, w) {
      } else if at(k) <= t {
        SameBetween(genesis, ledger, at(k), t, k);
      } else {
        SameBetween(genesis, ledger, t, at(k), k);
      }
  }

  lemma ReplayedIsLedgerIff(
    genesis: Accounts, ledger: seq<Write>, base: Accounts, at: Key -> Slot, context: Slot, es: seq<Event>, t: Slot)
    requires Ordered(ledger) && DeliversInOrder(ledger, es)
    requires forall k :: Lookup(base, k) == LedgerAt(genesis, ledger, at(k), k)
    ensures IsLedger(genesis, ledger, t, Replayed(base, context, es, t))
            <==> NoneWrong(genesis, ledger, base, at, context, es, t)
  {
    if NoneWrong(genesis, ledger, base, at, context, es, t) {
      forall k
        ensures Lookup(Replayed(base, context, es, t), k) == LedgerAt(genesis, ledger, t, k)
      {
        ReplayedKey(genesis, ledger, base, at, context, es, t, k);
      }
    } else if IsLedger(genesis, ledger, t, Replayed(base, context, es, t)) {
      forall v | IsStale(ledger, context, es, t, v)
        ensures v.account == LedgerAt(genesis, ledger, t, v.key)
      {
        StaleKey(base, context, es, t, v);
      }
      forall w | IsOff(ledger, at, context, es, t, w)
        ensures Lookup(base, w.key) == LedgerAt(genesis, ledger, t, w.key)
      {
        UndeliveredKey(base, context, es, t, w.key);
      }
    }
  }

  // After every drain, and so in every publication, the map is the ledger at the confirmed slot exactly
  // when no stale or missed or unconfirmed write makes a difference.
  lemma DrainedIsLedgerIff(
    genesis: Accounts, ledger: seq<Write>, base: Accounts, at: Key -> Slot, context: Slot, last: Slot,
    es: seq<Event>, e: Event)
    requires Ordered(ledger) && FuzzyCheckpoint(genesis, ledger, base, at, context, last)
    requires Drains(e, MaxConfirmed(context, es)) && DeliversInOrder(ledger, es)
    ensures var s := Run(FromFetched(context, base), es + [e]);
            IsLedger(genesis, ledger, s.confirmed, s.accounts)
            <==> NoneWrong(genesis, ledger, base, at, context, es, s.confirmed)
  {
    RunIsClosed(base, context, es + [e]);
    SettledByDrain(context, es, e);
    InOrderAllAccepted(context, es);
    ReplayedIsLedgerIff(genesis, ledger, base, at, context, es, MaxConfirmed(context, es + [e]));
  }

  // And so at any later moment at which nothing late waits, whatever was consumed since the drain.
  lemma SettledIsLedgerIff(
    genesis: Accounts, ledger: seq<Write>, base: Accounts, at: Key -> Slot, context: Slot, last: Slot, es: seq<Event>)
    requires Ordered(ledger) && FuzzyCheckpoint(genesis, ledger, base, at, context, last)
    requires NoneLate(context, es) && DeliversInOrder(ledger, es)
    ensures var s := Run(FromFetched(context, base), es);
            IsLedger(genesis, ledger, s.confirmed, s.accounts)
            <==> NoneWrong(genesis, ledger, base, at, context, es, s.confirmed)
  {
    InOrderSettles(base, context, es);
    ReplayedIsLedgerIff(genesis, ledger, base, at, context, es, MaxConfirmed(context, es));
  }

  // ----- When the stream delivers what it should -----

  // With every write above the context slot delivered, only a write at the context slot can be stale,
  // and only a key fetched above t can be off; with the later ones at the context slot, none is stale.
  lemma OnlyAtTheEnds(
    genesis: Accounts, ledger: seq<Write>, base: Accounts, at: Key -> Slot, context: Slot, last: Slot, es: seq<Event>,
    t: Slot)
    requires FuzzyCheckpoint(genesis, ledger, base, at, context, last) && DeliversAbove(ledger, context, es, t)
    ensures forall v :: IsStale(ledger, context, es, t, v) ==> v.slot == context && !Delivers(ledger, context, es, t)
    ensures forall w :: IsOff(ledger, at, context, es, t, w) ==> t < w.slot <= at(w.key)
  {
    forall v | IsStale(ledger, context, es, t, v)
      ensures v.slot == context && !Delivers(ledger, context, es, t)
    {
      var u :| u in ledger && u.key == v.key && Before(v, u) && u.slot <= t;
      assert u in Puts(es) ==> Overtaken(Puts(es), t, v);
    }
    forall w | IsOff(ledger, at, context, es, t, w)
      ensures t < w.slot <= at(w.key)
    {
      assert context <= at(w.key) <= last;
    }
  }

  lemma DeliveredIsRight(
    genesis: Accounts, ledger: seq<Write>, base: Accounts, at: Key -> Slot, context: Slot, last: Slot, es: seq<Event>,
    t: Slot)
    requires FuzzyCheckpoint(genesis, ledger, base, at, context, last) && last <= t
    requires Delivers(ledger, context, es, t)
    ensures NoneWrong(genesis, ledger, base, at, context, es, t)
  {
    OnlyAtTheEnds(genesis, ledger, base, at, context, last, es, t);
    assert forall k :: at(k) <= last;
  }

  // A contiguous piece of an ordered stream delivers what it should once it has confirmed the context
  // slot or a later one, if nothing before it is above the context slot.
  lemma PieceDelivers(before: seq<Event>, es: seq<Event>, after: seq<Event>, context: Slot)
    requires Contract(before + es + after)
    requires forall w :: Put(w) in before ==> w.slot <= context
    requires exists s :: Confirmed(s) in es && context <= s
    ensures Delivers(Puts(before + es + after), context, es, MaxConfirmed(context, es))
  {
    var ledger, t := Puts(before + es + after), MaxConfirmed(context, es);
    PutsConcat(before + es, after);
    PutsConcat(before, es);
    OrderedPrefix(Puts(before + es), Puts(after));
    OrderedPrefix(Puts(before), Puts(es));
    PutsMembers(before);
    PutsMembers(after);
    var s: Slot :| Confirmed(s) in es && context <= s;
    var i :| 0 <= i < |es| && es[i] == Confirmed(s);
    NotAbove(context, es, i);
    var top := GreatestConfirm(es, context, s);
    forall w | Put(w) in after
      ensures t < w.slot
    {
      PieceAbove(before, es, after, top, w);
    }
  }

  // The confirm in es that reaches its greatest confirmed slot.
  lemma GreatestConfirm(es: seq<Event>, context: Slot, s: Slot) returns (top: Slot)
    requires Confirmed(s) in es && context <= s
    ensures Confirmed(top) in es && top == MaxConfirmed(context, es)
  {
    var i :| 0 <= i < |es| && es[i] == Confirmed(s);
    NotAbove(context, es, i);
    ConfirmedMonotone(FromFetched(context, map[]), es);
    top := MaxConfirmed(context, es);
    if top != context {
      ReachedBy(context, es, top);
    }
  }

  lemma PieceAbove(before: seq<Event>, es: seq<Event>, after: seq<Event>, s: Slot, w: Write)
    requires Contract(before + es + after) && Confirmed(s) in es && Put(w) in after
    ensures s < w.slot
  {
    var all := before + es + after;
    var i :| 0 <= i < |es| && es[i] == Confirmed(s);
    var j :| 0 <= j < |after| && after[j] == Put(w);
    assert all[|before| + i] == Confirmed(s) && all[|before| + |es| + j] == Put(w);
  }

  // So a fuzzy checkpoint plus replay is the ledger.
  lemma CheckpointPlusReplayIsLedger(
    genesis: Accounts, ledger: seq<Write>, base: Accounts, at: Key -> Slot, context: Slot, last: Slot,
    es: seq<Event>, e: Event)
    requires Ordered(ledger)
    requires FuzzyCheckpoint(genesis, ledger, base, at, context, last)
    requires Drains(e, MaxConfirmed(context, es)) && last <= MaxConfirmed(context, es + [e])
    requires Delivers(ledger, context, es, MaxConfirmed(context, es + [e]))
    ensures var s := Run(FromFetched(context, base), es + [e]);
            IsLedger(genesis, ledger, s.confirmed, s.accounts)
  {
    ConfirmedMonotone(FromFetched(context, base), es + [e]);
    DeliveredIsRight(genesis, ledger, base, at, context, last, es, MaxConfirmed(context, es + [e]));
    DrainedIsLedgerIff(genesis, ledger, base, at, context, last, es, e);
  }

  // ----- A stale write -----

  // At the context slot itself a drain is not enough: a fetch may have seen a write whose older
  // version at the same slot is still in the buffer, and replaying that brings the older value back
  // until the newer one arrives and a later slot is confirmed.
  lemma OlderValueAtContextSlot(genesis: Accounts, v: Write, w: Write)
    requires v.key == w.key && v.slot == w.slot && Before(v, w) && v.account != w.account
    requires w.account.Some?
    ensures var ledger, base := [v, w], genesis[w.key := w.account.value];
            && Ordered(ledger)
            && FuzzyCheckpoint(genesis, ledger, base, _ => w.slot, w.slot, w.slot)
            && Lookup(Finish(Run(FromFetched(w.slot, base), [Put(v)])).accounts, w.key) == v.account
            && LedgerAt(genesis, ledger, w.slot, w.key) == w.account
  {
    TwoWritesCheckpoint(genesis, v, w);
    ReplayedAlone(genesis[w.key := w.account.value], v);
  }

  lemma TwoWritesCheckpoint(genesis: Accounts, v: Write, w: Write)
    requires v.key == w.key && v.slot == w.slot && w.account.Some?
    ensures forall k :: LedgerAt(genesis, [v, w], w.slot, k) == Lookup(genesis[w.key := w.account.value], k)
  {
    forall k
      ensures LedgerAt(genesis, [v, w], w.slot, k) == Lookup(genesis[w.key := w.account.value], k)
    {
      TwoWrites(genesis, v, w, k);
    }
  }

  lemma TwoWrites(genesis: Accounts, v: Write, w: Write, k: Key)
    requires v.key == w.key && v.slot == w.slot
    ensures LedgerAt(genesis, [v, w], w.slot, k) == if k == w.key then w.account else Lookup(genesis, k)
  {
    var ws := [v, w];
    CutBelow(ws, w.slot);
    LastProperties(ws, k);
    assert ws[|ws| - 1] == w;
  }

  lemma ReplayedAlone(base: Accounts, v: Write)
    ensures Lookup(Finish(Run(FromFetched(v.slot, base), [Put(v)])).accounts, v.key) == v.account
  {
    FinishedForm(base, v.slot, [Put(v)]);
    AloneAccepted(v);
    CutBelow([v], v.slot);
    ApplyWritesLookup(base, [v], v.key);
    assert Last([v], v.key) == Some(v);
  }

  lemma AloneAccepted(v: Write)
    ensures Accepted(v.slot, [Put(v)]) == [v] && MaxConfirmed(v.slot, [Put(v)]) == v.slot
  {
    assert [Put(v)][..0] == [];
    assert Accepted(v.slot, []) == [] && MaxConfirmed(v.slot, []) == v.slot;
  }
}
