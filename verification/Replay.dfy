// Recovery by replay of an ordered stream: when nothing late is left, and when a background refresh
// ends in the state the live updater reached.
module Replay {
  import opened Types
  import opened Writes
  import opened Staging
  import opened ClosedForm
  import opened LastWriterWins

  function Puts(es: seq<Event>): seq<Write> {
    if es == [] then []
    else
      var rest := Puts(es[..|es| - 1]);
      if es[|es| - 1].Put? then rest + [es[|es| - 1].w] else rest
  }

  // The ordering the stream promises: each key's writes arrive in increasing (slot, version), and
  // no write at or below a confirmed slot arrives after its confirmation.
  ghost predicate Contract(es: seq<Event>) {
    && Ordered(Puts(es))
    && forall i, j :: 0 <= i < j < |es| && es[i].Confirmed? && es[j].Put? ==> es[i].slot < es[j].w.slot
  }

  lemma {:induction false} PutsMembers(es: seq<Event>)
    ensures forall w :: w in Puts(es) <==> Put(w) in es
  {
    if es == [] {
    } else {
      assert es == es[..|es| - 1] + [es[|es| - 1]];
      PutsMembers(es[..|es| - 1]);
    }
  }

  lemma {:induction false} PutsConcat(a: seq<Event>, b: seq<Event>)
    ensures Puts(a + b) == Puts(a) + Puts(b)
  {
    if b == [] {
      assert a + b == a;
    } else {
      assert (a + b)[..|a + b| - 1] == a + b[..|b| - 1];
      PutsConcat(a, b[..|b| - 1]);
    }
  }

  lemma {:induction false} MaxConfirmedConcat(boot: Slot, a: seq<Event>, b: seq<Event>)
    ensures MaxConfirmed(boot, a + b) == MaxConfirmed(MaxConfirmed(boot, a), b)
  {
    if b == [] {
      assert a + b == a;
    } else {
      assert (a + b)[..|a + b| - 1] == a + b[..|b| - 1];
      MaxConfirmedConcat(boot, a, b[..|b| - 1]);
    }
  }

  lemma {:induction false} MaxConfirmedFrom(x: Slot, y: Slot, es: seq<Event>)
    requires x <= y
    ensures MaxConfirmed(y, es) == Max(y, MaxConfirmed(x, es))
  {
    if es == [] {
    } else {
      MaxConfirmedFrom(x, y, es[..|es| - 1]);
    }
  }

  lemma OrderedPrefix(a: seq<Write>, b: seq<Write>)
    requires Ordered(a + b)
    ensures Ordered(a) && Ordered(b)
    ensures forall v, w :: v in a && w in b && v.key == w.key ==> Before(v, w)
  {
    assert forall i :: 0 <= i < |a| ==> a[i] == (a + b)[i];
    assert forall i :: 0 <= i < |b| ==> b[i] == (a + b)[|a| + i];
    forall v, w | v in a && w in b && v.key == w.key
      ensures Before(v, w)
    {
      ConcatBefore(a, b, v, w);
    }
  }

  lemma InOrderAccepts(boot: Slot, ws: seq<Write>, w: Write)
    requires Ordered(ws + [w])
    ensures Accepts(boot, Marks(From(ws, boot)), w) <==> boot <= w.slot
  {
    OrderedPrefix(ws, [w]);
    FromMembers(ws, boot);
    MarksLookup(From(ws, boot), w.key);
    LastProperties(From(ws, boot), w.key);
  }

  // In-order delivery loses nothing to the watermarks.
  lemma {:induction false} InOrderAllAccepted(boot: Slot, es: seq<Event>)
    requires Ordered(Puts(es))
    ensures Accepted(boot, es) == From(Puts(es), boot)
  {
    if es == [] {
    } else {
      var init, e := es[..|es| - 1], es[|es| - 1];
      if e.Put? {
        var ws := Puts(init);
        OrderedPrefix(ws, [e.w]);
        assert (ws + [e.w])[..|ws|] == ws;
        InOrderAllAccepted(boot, init);
        InOrderAccepts(boot, ws, e.w);
      } else {
        InOrderAllAccepted(boot, init);
      }
    }
  }

  lemma FinishedForm(base: Accounts, boot: Slot, es: seq<Event>)
    ensures var s := Finish(Run(FromFetched(boot, base), es));
            && s.confirmed == MaxConfirmed(boot, es)
            && s.accounts == ApplyWrites(base, Through(Accepted(boot, es), s.confirmed))
            && s.pending == Bucket(Beyond(Accepted(boot, es), s.confirmed))
  {
    var e := FinishRecovery;
    RunSnoc(FromFetched(boot, base), es, e);
    RunIsClosed(base, boot, es + [e]);
    SettledByDrain(boot, es, e);
    assert (es + [e])[..|es|] == es;
  }

  // ----- A refresh ends where the live updater is -----

  // A confirm at or above the bootstrap slot has been followed by a drain.
  ghost predicate CaughtUp(boot: Slot, es: seq<Event>) {
    || boot < MaxConfirmed(boot, es)
    || exists i, j :: 0 <= i < j < |es| && es[i].Confirmed? && boot <= es[i].slot && es[j].FinishRecovery?
  }

  lemma ContractPrefix(a: seq<Event>, b: seq<Event>)
    requires Contract(a + b)
    ensures Contract(a)
  {
    PutsConcat(a, b);
    OrderedPrefix(Puts(a), Puts(b));
    assert forall i :: 0 <= i < |a| ==> a[i] == (a + b)[i];
  }

  // On a contract-ordered run that has caught up, no accepted write at or below the confirmed
  // slot is left waiting.
  lemma {:induction false} NothingLate(boot: Slot, es: seq<Event>)
    requires Contract(es) && CaughtUp(boot, es)
    ensures Settled(boot, es) <= Accepted(boot, es)
    ensures forall w :: w in Accepted(boot, es)[|Settled(boot, es)|..] ==> MaxConfirmed(boot, es) < w.slot
  {
    SettledIsPrefix(boot, es);
    if es == [] {
    } else {
      var init, e := es[..|es| - 1], es[|es| - 1];
      assert es == init + [e];
      var t := MaxConfirmed(boot, init);
      if !Drains(e, t) {
        ContractPrefix(init, [e]);
        CaughtUpBefore(boot, init, e);
        NothingLate(boot, init);
        if e.Put? {
          LaterIsAbove(boot, init, [e], 0);
          var settled, accepted := Settled(boot, init), Accepted(boot, init);
          assert (accepted + [e.w])[|settled|..] == accepted[|settled|..] + [e.w];
        }
      }
    }
  }

  lemma CaughtUpBefore(boot: Slot, es: seq<Event>, e: Event)
    requires CaughtUp(boot, es + [e]) && !Drains(e, MaxConfirmed(boot, es))
    ensures CaughtUp(boot, es)
  {
    assert (es + [e])[..|es|] == es;
    if MaxConfirmed(boot, es) <= boot {
      var i, j :| 0 <= i < j < |es| + 1 && (es + [e])[i].Confirmed? && boot <= (es + [e])[i].slot
        && (es + [e])[j].FinishRecovery?;
      assert es[i].Confirmed? && es[j].FinishRecovery?;
    }
  }

  // No accepted write at or below the confirmed slot is still waiting.
  ghost predicate NoneLate(boot: Slot, es: seq<Event>) {
    && Settled(boot, es) <= Accepted(boot, es)
    && forall w :: w in Accepted(boot, es)[|Settled(boot, es)|..] ==> MaxConfirmed(boot, es) < w.slot
  }

  // So finishing again would change nothing: the map and pending writes are already those of a drain.
  lemma InOrderSettles(base: Accounts, boot: Slot, es: seq<Event>)
    requires Ordered(Puts(es)) && NoneLate(boot, es)
    ensures var s := Run(FromFetched(boot, base), es);
            && s.confirmed == MaxConfirmed(boot, es)
            && s.accounts == ApplyWrites(base, Through(From(Puts(es), boot), s.confirmed))
            && s.pending == Bucket(Beyond(From(Puts(es), boot), s.confirmed))
  {
    RunIsClosed(base, boot, es);
    InOrderAllAccepted(boot, es);
    var settled, accepted, t := Settled(boot, es), Accepted(boot, es), MaxConfirmed(boot, es);
    var late := accepted[|settled|..];
    assert accepted == settled + late;
    CutConcat(settled, late, t);
    CutNone(late, t);
    assert Through(settled, t) + [] == Through(settled, t);
  }

  lemma ContractSettles(base: Accounts, boot: Slot, es: seq<Event>)
    requires Contract(es) && CaughtUp(boot, es)
    ensures var s := Run(FromFetched(boot, base), es);
            && s.confirmed == MaxConfirmed(boot, es)
            && s.accounts == ApplyWrites(base, Through(From(Puts(es), boot), s.confirmed))
            && s.pending == Bucket(Beyond(From(Puts(es), boot), s.confirmed))
  {
    NothingLate(boot, es);
    InOrderSettles(base, boot, es);
  }

  // A later write of w's key, at or below slot t.
  ghost predicate Overtaken(all: seq<Write>, t: Slot, w: Write) {
    exists v :: v in all && v.key == w.key && Before(w, v) && v.slot <= t
  }

  // Each key of fetched has its value as of its own slot in [context, last], as the stream es that
  // an updater consumes from boot on determines it.
  ghost predicate ReadAt(
    base: Accounts, boot: Slot, es: seq<Event>, at: Key -> Slot, context: Slot, last: Slot, fetched: Accounts)
  {
    forall k :: context <= at(k) <= last
                && Lookup(fetched, k) == Overlay(base, Through(From(Puts(es), boot), at(k)), k)
  }

  // All keys at one slot.
  ghost predicate StateAt(base: Accounts, boot: Slot, es: seq<Event>, context: Slot, fetched: Accounts) {
    forall k :: Lookup(fetched, k) == Overlay(base, Through(From(Puts(es), boot), context), k)
  }

  // The refreshed updater makes up for w, a write consumed before buffering began and above the
  // context slot, by slot t: w has been overtaken, the fetch saw it, or it stored what was fetched.
  ghost predicate MadeUp(all: seq<Write>, at: Key -> Slot, fetched: Accounts, t: Slot, w: Write) {
    w.slot <= t && (Overtaken(all, t, w) || w.slot <= at(w.key) || w.account == Lookup(fetched, w.key))
  }

  ghost predicate AllMadeUp(
    early: seq<Write>, all: seq<Write>, at: Key -> Slot, context: Slot, fetched: Accounts, t: Slot)
  {
    forall w :: w in early && context < w.slot ==> MadeUp(all, at, fetched, t, w)
  }

  // After pre, an updater started at the context slot consumes suf while it recovers and then rest.
  // It has the confirmed slot of the stream, which is above the context slot unless a confirm at or
  // above the context slot came before it finished recovery.
  ghost predicate Reconfirmed(boot: Slot, pre: seq<Event>, suf: seq<Event>, rest: seq<Event>, context: Slot) {
    && MaxConfirmed(context, suf + rest) == MaxConfirmed(boot, pre + suf + rest)
    && (context < MaxConfirmed(context, suf + rest) || exists s :: Confirmed(s) in pre + suf && context <= s)
  }

  // pre is consumed by the live updater before the refresh starts buffering, suf while it fetches,
  // rest after it is installed. The refreshed updater starts from the fetched state, consumes only
  // suf, is installed by finishing recovery, and consumes rest. Once the last fetched slot is
  // confirmed in both, they have the same map and pending writes exactly when every early write above
  // the context slot is made up for.
  lemma RefreshEqualsContinuationIff(
    base: Accounts, boot: Slot, pre: seq<Event>, suf: seq<Event>, rest: seq<Event>, at: Key -> Slot, context: Slot,
    last: Slot, fetched: Accounts)
    requires Contract(pre + suf + rest) && CaughtUp(boot, pre + suf + rest)
    requires boot <= context && ReadAt(base, boot, pre + suf + rest, at, context, last, fetched)
    requires Reconfirmed(boot, pre, suf, rest, context) && last <= MaxConfirmed(boot, pre + suf + rest)
    ensures var live := Run(FromFetched(boot, base), pre + suf + rest);
            var refreshed := Run(FromFetched(context, fetched), suf + [FinishRecovery] + rest);
            && refreshed.confirmed == live.confirmed
            && (refreshed.accounts == live.accounts && refreshed.pending == live.pending
                <==> AllMadeUp(Puts(pre), Puts(pre + suf + rest), at, context, fetched, live.confirmed))
  {
    var all, mine := pre + suf + rest, suf + [FinishRecovery] + rest;
    RefreshedSettles(pre, suf, rest, boot, context, fetched);
    ContractSettles(base, boot, all);
    var t := MaxConfirmed(boot, all);
    var someKey: Key := 0;
    assert context <= at(someKey) <= last;
    PendingEqualIff(Puts(pre), Puts(mine), boot, context, t);
    MapsEqualIff(base, Puts(pre), Puts(mine), boot, context, t, at, fetched);
  }

  // The state of the refreshed updater, and that it has seen the stream's later writes.
  lemma RefreshedSettles(
    pre: seq<Event>, suf: seq<Event>, rest: seq<Event>, boot: Slot, context: Slot, fetched: Accounts)
    requires Contract(pre + suf + rest) && Reconfirmed(boot, pre, suf, rest, context)
    ensures var mine := suf + [FinishRecovery] + rest;
            var refreshed := Run(FromFetched(context, fetched), mine);
            && Ordered(Puts(pre) + Puts(mine)) && Puts(pre + suf + rest) == Puts(pre) + Puts(mine)
            && refreshed.confirmed == MaxConfirmed(boot, pre + suf + rest) >= context
            && refreshed.accounts == ApplyWrites(fetched, Through(From(Puts(mine), context), refreshed.confirmed))
            && refreshed.pending == Bucket(Beyond(From(Puts(mine), context), refreshed.confirmed))
  {
    var mine := suf + [FinishRecovery] + rest;
    SuffixContract(pre, suf, rest);
    FinishKeepsConfirmed(context, suf, rest);
    ConfirmedMonotone(FromFetched(context, fetched), mine);
    RefreshedNoneLate(pre, suf, rest, context);
    InOrderSettles(fetched, context, mine);
  }

  lemma RefreshedNoneLate(pre: seq<Event>, suf: seq<Event>, rest: seq<Event>, context: Slot)
    requires Contract(pre + suf + rest) && Contract(suf + [FinishRecovery] + rest)
    requires || context < MaxConfirmed(context, suf + [FinishRecovery] + rest)
             || exists s :: Confirmed(s) in pre + suf && context <= s
    ensures NoneLate(context, suf + [FinishRecovery] + rest)
  {
    var mine := suf + [FinishRecovery] + rest;
    if context < MaxConfirmed(context, mine) {
      NothingLate(context, mine);
    } else {
      var s: Slot :| Confirmed(s) in pre + suf && context <= s;
      if Confirmed(s) in suf {
        var i :| 0 <= i < |suf| && suf[i] == Confirmed(s);
        assert mine[i] == Confirmed(s) && mine[|suf|] == FinishRecovery;
        NothingLate(context, mine);
      } else {
        SettledIsPrefix(context, mine);
        AcceptedMembers(context, mine);
        forall w | Put(w) in mine
          ensures s < w.slot
        {
          AfterConfirm(pre, suf, rest, s, w);
        }
      }
    }
  }

  lemma AfterConfirm(pre: seq<Event>, suf: seq<Event>, rest: seq<Event>, s: Slot, w: Write)
    requires Contract(pre + suf + rest)
    requires Confirmed(s) in pre && Put(w) in suf + [FinishRecovery] + rest
    ensures s < w.slot
  {
    var all, later := pre + suf + rest, suf + rest;
    var i :| 0 <= i < |pre| && pre[i] == Confirmed(s);
    assert Put(w) in later;
    var j :| 0 <= j < |later| && later[j] == Put(w);
    assert all == pre + later;
    assert all[i] == Confirmed(s) && all[|pre| + j] == Put(w);
  }

  lemma FinishKeepsConfirmed(boot: Slot, suf: seq<Event>, rest: seq<Event>)
    ensures MaxConfirmed(boot, suf + [FinishRecovery] + rest) == MaxConfirmed(boot, suf + rest)
  {
    var f: Event := FinishRecovery;
    MaxConfirmedConcat(boot, suf + [f], rest);
    MaxConfirmedConcat(boot, suf, rest);
    assert (suf + [f])[..|suf|] == suf;
  }

  lemma PendingEqualIff(x: seq<Write>, y: seq<Write>, boot: Slot, context: Slot, t: Slot)
    requires boot <= context <= t
    ensures Bucket(Beyond(From(x + y, boot), t)) == Bucket(Beyond(From(y, context), t))
            <==> forall w :: w in x ==> w.slot <= t
  {
    CutConcat(x, y, t);
    BeyondFrom(x + y, boot, t);
    BeyondFrom(y, context, t);
    BeyondMembers(x, t);
    if forall w :: w in x ==> w.slot <= t {
      CutNone(x, t);
      assert [] + Beyond(y, t) == Beyond(y, t);
    } else {
      var w :| w in x && t < w.slot;
      BucketGrows(Beyond(x, t), Beyond(y, t), w);
    }
  }

  lemma {:induction false} AtSlotConcat(a: seq<Write>, b: seq<Write>, s: Slot)
    ensures AtSlot(a + b, s) == AtSlot(a, s) + AtSlot(b, s)
  {
    if b == [] {
      assert a + b == a;
    } else {
      assert (a + b)[..|a + b| - 1] == a + b[..|b| - 1];
      AtSlotConcat(a, b[..|b| - 1], s);
    }
  }

  lemma {:induction false} MutationsLength(ws: seq<Write>)
    ensures |Mutations(ws)| == |ws|
  {
    if ws == [] {
    } else {
      MutationsLength(ws[..|ws| - 1]);
    }
  }

  lemma BucketGrows(a: seq<Write>, b: seq<Write>, w: Write)
    requires w in a
    ensures Bucket(a + b) != Bucket(b)
  {
    var s := w.slot;
    AtSlotMembers(a, s);
    AtSlotConcat(a, b, s);
    BucketSlot(a + b, s);
    BucketSlot(b, s);
    MutationsLength(AtSlot(a + b, s));
    MutationsLength(AtSlot(b, s));
    assert w in AtSlot(a, s);
  }

  // What both updaters hold for each key.
  lemma BothLookups(base: Accounts, x: seq<Write>, y: seq<Write>, boot: Slot, context: Slot, t: Slot, fetched: Accounts)
    ensures var live := ApplyWrites(base, Through(From(x + y, boot), t));
            forall k :: Lookup(live, k) == Overlay(base, Through(From(x + y, boot), t), k)
    ensures var refreshed := ApplyWrites(fetched, Through(From(y, context), t));
            forall k :: Lookup(refreshed, k) == Overlay(fetched, Through(From(y, context), t), k)
  {
    forall k
      ensures Lookup(ApplyWrites(base, Through(From(x + y, boot), t)), k)
              == Overlay(base, Through(From(x + y, boot), t), k)
      ensures Lookup(ApplyWrites(fetched, Through(From(y, context), t)), k)
              == Overlay(fetched, Through(From(y, context), t), k)
    {
      ApplyWritesLookup(base, Through(From(x + y, boot), t), k);
      ApplyWritesLookup(fetched, Through(From(y, context), t), k);
    }
  }

  lemma MapsEqualIff(
    base: Accounts, x: seq<Write>, y: seq<Write>, boot: Slot, context: Slot, t: Slot, at: Key -> Slot,
    fetched: Accounts)
    requires Ordered(x + y) && boot <= context
    requires forall k :: context <= at(k) <= t
    requires forall k :: Lookup(fetched, k) == Overlay(base, Through(From(x + y, boot), at(k)), k)
    ensures var live := ApplyWrites(base, Through(From(x + y, boot), t));
            var refreshed := ApplyWrites(fetched, Through(From(y, context), t));
            (forall w :: w in x ==> w.slot <= t) ==>
              (refreshed == live <==> AllMadeUp(x, x + y, at, context, fetched, t))
  {
    var live := ApplyWrites(base, Through(From(x + y, boot), t));
    var refreshed := ApplyWrites(fetched, Through(From(y, context), t));
    BothLookups(base, x, y, boot, context, t, fetched);
    if AllMadeUp(x, x + y, at, context, fetched, t) {
      forall k
        ensures Lookup(live, k) == Lookup(refreshed, k)
      {
        forall w | w in x && w.key == k && context < w.slot <= t && !Overtaken(x + y, t, w)
          ensures w.account == Lookup(fetched, k)
        {
          assert MadeUp(x + y, at, fetched, t, w);
          if w.slot <= at(k) {
            SeenIsFetched(base, x, y, boot, at(k), t, fetched, w);
          }
        }
        RefreshedKey(base, x, y, boot, context, at(k), t, fetched, k);
      }
      SameLookups(live, refreshed);
    } else if refreshed == live {
      forall w | w in x && context < w.slot <= t
        ensures MadeUp(x + y, at, fetched, t, w)
      {
        if !Overtaken(x + y, t, w) {
          LostKey(base, x, y, boot, context, t, fetched, w);
        }
      }
    }
  }

  // A write the fetch saw and nothing overtakes is what was fetched.
  lemma SeenIsFetched(
    base: Accounts, x: seq<Write>, y: seq<Write>, boot: Slot, at: Slot, t: Slot, fetched: Accounts, w: Write)
    requires Ordered(x + y) && w in x && boot <= w.slot <= at <= t && !Overtaken(x + y, t, w)
    requires Lookup(fetched, w.key) == Overlay(base, Through(From(x + y, boot), at), w.key)
    ensures Lookup(fetched, w.key) == w.account
  {
    var seen := Through(From(x + y, boot), at);
    CutMembers(x + y, boot);
    CutMembers(From(x + y, boot), at);
    LastProperties(seen, w.key);
    assert w in seen;
    assert Last(seen, w.key) == Some(w);
  }

  // A key holds the same in both unless an early write of it stands at t and is not what was fetched.
  lemma RefreshedKey(
    base: Accounts, x: seq<Write>, y: seq<Write>, boot: Slot, context: Slot, at: Slot, t: Slot, fetched: Accounts,
    k: Key)
    requires Ordered(x + y) && boot <= context <= at <= t
    requires Lookup(fetched, k) == Overlay(base, Through(From(x + y, boot), at), k)
    requires forall w :: w in x && w.key == k && context < w.slot <= t && !Overtaken(x + y, t, w) ==>
               w.account == Lookup(fetched, k)
    ensures Overlay(base, Through(From(x + y, boot), t), k) == Overlay(fetched, Through(From(y, context), t), k)
  {
    var whole, mine, seen :=
      Through(From(x + y, boot), t), Through(From(y, context), t), Through(From(x + y, boot), at);
    OrderedPrefix(x, y);
    FromMembers(x + y, boot);
    FromMembers(y, context);
    ThroughMembers(From(x + y, boot), t);
    ThroughMembers(From(x + y, boot), at);
    ThroughMembers(From(y, context), t);
    LastProperties(mine, k);
    LastProperties(whole, k);
    LastProperties(seen, k);
    match Last(mine, k)
    case Some(g) =>
      LastIsGreatest(whole, k, g);
    case None =>
      match Last(whole, k)
      case Some(g) =>
        assert g !in mine;
        if g.slot <= at {
          LastIsGreatest(seen, k, g);
        } else {
          assert !Overtaken(x + y, t, g);
        }
      case None =>
  }

  // An early write that nothing overtakes by t is live's value, where the refreshed map has the
  // fetched one.
  lemma LostKey(
    base: Accounts, x: seq<Write>, y: seq<Write>, boot: Slot, context: Slot, t: Slot, fetched: Accounts, w: Write)
    requires Ordered(x + y) && boot <= context
    requires w in x && boot <= w.slot <= t && !Overtaken(x + y, t, w)
    ensures Overlay(base, Through(From(x + y, boot), t), w.key) == w.account
    ensures Overlay(fetched, Through(From(y, context), t), w.key) == Lookup(fetched, w.key)
  {
    var whole, mine := Through(From(x + y, boot), t), Through(From(y, context), t);
    OrderedPrefix(x, y);
    CutMembers(x + y, boot);
    CutMembers(y, context);
    CutMembers(From(x + y, boot), t);
    CutMembers(From(y, context), t);
    LastProperties(mine, w.key);
    LastProperties(whole, w.key);
    assert w in whole;
    assert Last(whole, w.key) == Some(w);
  }

  // So nothing is lost if the fetch saw every write consumed before buffering began.
  lemma RefreshReplayEqualsContinuation(
    base: Accounts, boot: Slot, pre: seq<Event>, suf: seq<Event>, rest: seq<Event>, at: Key -> Slot, context: Slot,
    last: Slot, fetched: Accounts)
    requires Contract(pre + suf + rest) && CaughtUp(boot, pre + suf + rest)
    requires boot <= context && ReadAt(base, boot, pre + suf + rest, at, context, last, fetched)
    requires Reconfirmed(boot, pre, suf, rest, context) && last <= MaxConfirmed(boot, pre + suf + rest)
    requires forall w :: Put(w) in pre ==> w.slot <= at(w.key)
    ensures var live := Run(FromFetched(boot, base), pre + suf + rest);
            var refreshed := Run(FromFetched(context, fetched), suf + [FinishRecovery] + rest);
            && refreshed.accounts == live.accounts
            && refreshed.pending == live.pending
            && refreshed.confirmed == live.confirmed
  {
    PutsMembers(pre);
    ConfirmedMonotone(FromFetched(boot, base), pre + suf + rest);
    RefreshEqualsContinuationIff(base, boot, pre, suf, rest, at, context, last, fetched);
  }

  lemma SuffixContract(pre: seq<Event>, suf: seq<Event>, rest: seq<Event>)
    requires Contract(pre + suf + rest)
    ensures var all, mine := pre + suf + rest, suf + [FinishRecovery] + rest;
            && Contract(mine) && Puts(all) == Puts(pre) + Puts(mine) && Ordered(Puts(pre) + Puts(mine))
  {
    SuffixPuts(pre, suf, rest);
    var all, mine := pre + suf + rest, suf + [FinishRecovery] + rest;
    OrderedPrefix(Puts(pre), Puts(mine));
    forall i, j | 0 <= i < j < |mine| && mine[i].Confirmed? && mine[j].Put?
      ensures mine[i].slot < mine[j].w.slot
    {
      assert mine[i] == all[|pre| + (if i < |suf| then i else i - 1)];
      assert mine[j] == all[|pre| + (if j < |suf| then j else j - 1)];
    }
  }

  lemma PutsFinish(es: seq<Event>)
    ensures Puts(es + [FinishRecovery]) == Puts(es)
  {
    var f: Event := FinishRecovery;
    assert (es + [f])[..|es|] == es;
  }

  lemma ConcatAssociates(a: seq<Write>, b: seq<Write>, c: seq<Write>)
    ensures a + b + c == a + (b + c)
  {
  }

  lemma SuffixPuts(pre: seq<Event>, suf: seq<Event>, rest: seq<Event>)
    ensures Puts(pre + suf + rest) == Puts(pre) + Puts(suf + [FinishRecovery] + rest)
  {
    var f: Event := FinishRecovery;
    PutsConcat(pre + suf, rest);
    PutsConcat(pre, suf);
    PutsConcat(suf + [f], rest);
    PutsFinish(suf);
    ConcatAssociates(Puts(pre), Puts(suf), Puts(rest));
  }

  // What a settled updater publishes is the state at its confirmed slot, for any continuation of
  // the stream.
  lemma PublishedIsStateAt(base: Accounts, boot: Slot, es: seq<Event>, rest: seq<Event>)
    requires Contract(es + rest) && CaughtUp(boot, es)
    ensures var s := Run(FromFetched(boot, base), es);
            StateAt(base, boot, es + rest, s.confirmed, s.accounts)
  {
    ContractPrefix(es, rest);
    ContractSettles(base, boot, es);
    var t := MaxConfirmed(boot, es);
    PutsConcat(es, rest);
    CutConcat(Puts(es), Puts(rest), boot);
    CutConcat(From(Puts(es), boot), From(Puts(rest), boot), t);
    PutsMembers(rest);
    FromMembers(Puts(rest), boot);
    forall w | w in From(Puts(rest), boot)
      ensures t < w.slot
    {
      var j :| 0 <= j < |rest| && rest[j] == Put(w);
      LaterIsAbove(boot, es, rest, j);
    }
    CutNone(From(Puts(rest), boot), t);
    var ws := Through(From(Puts(es), boot), t);
    assert ws + [] == ws;
    forall k
      ensures Lookup(ApplyWrites(base, ws), k) == Overlay(base, ws, k)
    {
      ApplyWritesLookup(base, ws, k);
    }
  }

  lemma LaterIsAbove(boot: Slot, es: seq<Event>, rest: seq<Event>, j: nat)
    requires Contract(es + rest) && CaughtUp(boot, es) && j < |rest| && rest[j].Put?
    ensures MaxConfirmed(boot, es) < rest[j].w.slot
  {
    var t, all := MaxConfirmed(boot, es), es + rest;
    assert all[|es| + j] == rest[j];
    ConfirmedMonotone(FromFetched(boot, map[]), es);
    if t != boot {
      ReachedBy(boot, es, t);
      var i :| 0 <= i < |es| && es[i] == Confirmed(t);
      assert all[i] == Confirmed(t);
    } else {
      var i, i' :| 0 <= i < i' < |es| && es[i].Confirmed? && boot <= es[i].slot && es[i'].FinishRecovery?;
      assert all[i] == es[i];
    }
  }

  // And so is what a refreshed updater publishes.
  lemma RefreshedIsStateAt(
    base: Accounts, boot: Slot, pre: seq<Event>, suf: seq<Event>, rest: seq<Event>, at: Key -> Slot, context: Slot,
    last: Slot, fetched: Accounts)
    requires Contract(pre + suf + rest) && CaughtUp(boot, pre + suf + rest)
    requires boot <= context && ReadAt(base, boot, pre + suf + rest, at, context, last, fetched)
    requires Reconfirmed(boot, pre, suf, rest, context) && last <= MaxConfirmed(boot, pre + suf + rest)
    requires forall w :: Put(w) in pre ==> w.slot <= at(w.key)
    ensures var refreshed := Run(FromFetched(context, fetched), suf + [FinishRecovery] + rest);
            StateAt(base, boot, pre + suf + rest, refreshed.confirmed, refreshed.accounts)
  {
    var all := pre + suf + rest;
    RefreshReplayEqualsContinuation(base, boot, pre, suf, rest, at, context, last, fetched);
    assert all + [] == all;
    PublishedIsStateAt(base, boot, all, []);
  }

  // The hypothesis on early writes is needed: a write consumed before buffering began, above the
  // context slot and not followed by another of its key, is missing from the refreshed map.
  lemma EarlyWriteIsLost(
    base: Accounts, boot: Slot, pre: seq<Event>, suf: seq<Event>, context: Slot, fetched: Accounts, w: Write)
    requires Contract(pre + suf) && CaughtUp(boot, pre + suf)
    requires boot <= context
    requires Put(w) in pre && context < w.slot <= MaxConfirmed(boot, pre + suf)
    requires forall v :: Put(v) in pre && v.key == w.key ==> v == w || Before(v, w)
    requires forall v :: Put(v) in suf ==> v.key != w.key
    ensures Lookup(Run(FromFetched(boot, base), pre + suf).accounts, w.key) == w.account
    ensures Lookup(Finish(Run(FromFetched(context, fetched), suf)).accounts, w.key) == Lookup(fetched, w.key)
  {
    var all := pre + suf;
    ContractSettles(base, boot, all);
    var t := MaxConfirmed(boot, all);
    var ws := From(Puts(all), boot);
    PutsMembers(all);
    FromMembers(Puts(all), boot);
    ThroughMembers(ws, t);
    LastIsGreatest(Through(ws, t), w.key, w);
    ApplyWritesLookup(base, Through(ws, t), w.key);
    FinishedForm(fetched, context, suf);
    AcceptedOrdered(context, suf);
    var mine, u := Accepted(context, suf), MaxConfirmed(context, suf);
    ThroughMembers(mine, u);
    LastProperties(Through(mine, u), w.key);
    ApplyWritesLookup(fetched, Through(mine, u), w.key);
  }
}
