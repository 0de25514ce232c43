// The client end to end: from the server's snapshot through the download, the replay and the live
// stream, and exactly what the handoff between them loses.
module Handoff {
  import opened Types
  import opened Writes
  import opened Gate
  import opened Chunks
  import opened Download
  import opened Client
  import opened Staging
  import opened ClosedForm
  import opened Replay
  import opened Agreement
  import opened Service
  import opened ServiceSafety
  import opened ServedMap
  import Store

  // ----- What a snapshot at slot s holds of a stream -----

  // value is that of a write of k at or below t with none below s after it, or the base value if there
  // is no write below s. (Of the writes at s a server may hold any.)
  ghost predicate HeldFor(
    base: Accounts, boot: Slot, all: seq<Write>, s: Slot, t: Slot, k: Key, value: Option<Account>)
  {
    || (exists w :: w in all && HeldWrite(boot, all, s, t, k, w) && value == w.account)
    || ((forall v :: v in all && v.key == k && boot <= v.slot ==> s <= v.slot) && value == Lookup(base, k))
  }

  ghost predicate HeldWrite(boot: Slot, all: seq<Write>, s: Slot, t: Slot, k: Key, w: Write) {
    && w.key == k && boot <= w.slot <= t
    && forall v :: v in all && v.key == k && boot <= v.slot < s ==> v == w || Before(v, w)
  }

  ghost predicate Holds(base: Accounts, boot: Slot, all: seq<Write>, s: Slot, t: Slot, m: Accounts) {
    forall k :: HeldFor(base, boot, all, s, t, k, Lookup(m, k))
  }

  // A map each of whose keys is as of some slot in [s, t].
  lemma ReadHolds(
    base: Accounts, boot: Slot, all: seq<Write>, at: Slot, s: Slot, t: Slot, k: Key, value: Option<Account>)
    requires Ordered(all) && s <= at <= t && value == Overlay(base, Through(From(all, boot), at), k)
    ensures HeldFor(base, boot, all, s, t, k, value)
  {
    var seen := Through(From(all, boot), at);
    FromMembers(all, boot);
    ThroughMembers(From(all, boot), at);
    LastProperties(seen, k);
    match Last(seen, k)
    case Some(w) =>
      assert HeldWrite(boot, all, s, t, k, w);
    case None =>
  }

  // So a refreshed server's map, fetched page by page, or the stream's state.
  lemma FetchedHolds(base: Accounts, boot: Slot, es: seq<Event>, at: Key -> Slot, s: Slot, t: Slot, m: Accounts)
    requires Ordered(Puts(es)) && ReadAt(base, boot, es, at, s, t, m)
    ensures Holds(base, boot, Puts(es), s, t, m)
  {
    forall k
      ensures HeldFor(base, boot, Puts(es), s, t, k, Lookup(m, k))
    {
      assert s <= at(k) <= t;
      ReadHolds(base, boot, Puts(es), at(k), s, t, k, Lookup(m, k));
    }
  }

  // An updater's map at any moment, caught up or still at its bootstrap slot.
  lemma ServedHolds(base: Accounts, boot: Slot, served: seq<Event>, ahead: seq<Event>, t: Slot)
    requires Contract(served + ahead) && MaxConfirmed(boot, served) <= t
    ensures var u := Run(FromFetched(boot, base), served);
            Holds(base, boot, Puts(served + ahead), u.confirmed, t, u.accounts)
  {
    var u, s := Run(FromFetched(boot, base), served), MaxConfirmed(boot, served);
    RunIsClosed(base, boot, served);
    var applied := Through(Settled(boot, served), s);
    forall k
      ensures HeldFor(base, boot, Puts(served + ahead), s, t, k, Lookup(u.accounts, k))
    {
      AppliedMembers(boot, served, ahead, s);
      ApplyWritesLookup(base, applied, k);
      LastProperties(applied, k);
      match Last(applied, k)
      case Some(w) =>
        assert HeldWrite(boot, Puts(served + ahead), s, t, k, w);
      case None =>
    }
  }

  // Of a stream's writes, an updater has applied some through its confirmed slot, and all below it.
  lemma AppliedMembers(boot: Slot, served: seq<Event>, ahead: seq<Event>, s: Slot)
    requires Contract(served + ahead) && s == MaxConfirmed(boot, served)
    requires Settled(boot, served) <= Accepted(boot, served)
    ensures var applied := Through(Settled(boot, served), s);
            && Ordered(applied)
            && (forall w :: w in applied ==> w in Puts(served + ahead) && boot <= w.slot <= s)
            && (forall v :: v in Puts(served + ahead) && boot <= v.slot < s ==> v in applied)
  {
    var settled := Settled(boot, served);
    SettledMembers(boot, served);
    PutsConcat(served, ahead);
    ThroughMembers(settled, s);
    forall v | v in Puts(served + ahead) && boot <= v.slot < s
      ensures v in Through(settled, s)
    {
      BelowIsSettled(boot, served, ahead, v);
    }
  }

  lemma SettledMembers(boot: Slot, es: seq<Event>)
    ensures Ordered(Settled(boot, es))
    ensures forall w :: w in Settled(boot, es) ==> w in Puts(es) && boot <= w.slot
  {
    var settled, accepted := Settled(boot, es), Accepted(boot, es);
    SettledIsPrefix(boot, es);
    AcceptedOrdered(boot, es);
    PutsMembers(es);
    assert settled == accepted[..|settled|];
    assert forall i :: 0 <= i < |settled| ==> settled[i] == accepted[i];
  }

  lemma BelowIsSettled(boot: Slot, served: seq<Event>, ahead: seq<Event>, v: Write)
    requires Contract(served + ahead) && v in Puts(served) + Puts(ahead) && boot <= v.slot < MaxConfirmed(boot, served)
    ensures v in Settled(boot, served)
  {
    ContractPrefix(served, ahead);
    NothingLate(boot, served);
    InOrderAllAccepted(boot, served);
    FromMembers(Puts(served), boot);
    if v in Puts(ahead) {
      PutsMembers(ahead);
      var j :| 0 <= j < |ahead| && ahead[j] == Put(v);
      LaterIsAbove(boot, served, ahead, j);
    }
    var settled, accepted := Settled(boot, served), Accepted(boot, served);
    assert accepted == settled + accepted[|settled|..];
  }

  // ----- What replay makes of it -----

  // Replaying the later writes y over a held value gives the stream's value, unless an early write at or
  // above the snapshot's slot stands at t and is not what was held.
  lemma HandoffKey(
    base: Accounts, x: seq<Write>, y: seq<Write>, boot: Slot, s: Slot, t: Slot, m: Accounts, k: Key)
    requires Ordered(x + y) && boot <= s <= t && HeldFor(base, boot, x + y, s, t, k, Lookup(m, k))
    requires forall w :: w in x && w.key == k && s <= w.slot <= t && !Overtaken(x + y, t, w) ==>
               w.account == Lookup(m, k)
    ensures Overlay(base, Through(From(x + y, boot), t), k) == Overlay(m, Through(From(y, s), t), k)
  {
    var whole, mine := Through(From(x + y, boot), t), Through(From(y, s), t);
    OrderedPrefix(x, y);
    FromMembers(x + y, boot);
    FromMembers(y, s);
    ThroughMembers(From(x + y, boot), t);
    ThroughMembers(From(y, s), t);
    LastProperties(whole, k);
    LastProperties(mine, k);
    match Last(mine, k)
    case Some(g) =>
      LastIsGreatest(whole, k, g);
    case None =>
      match Last(whole, k)
      case Some(g) =>
        assert g !in mine;
        if g.slot < s {
          HeldIsGreatest(base, boot, x + y, s, t, k, Lookup(m, k), g);
        } else {
          assert !Overtaken(x + y, t, g);
        }
      case None =>
  }

  // If the greatest write through t is below s, it is what is held.
  lemma HeldIsGreatest(
    base: Accounts, boot: Slot, all: seq<Write>, s: Slot, t: Slot, k: Key, value: Option<Account>, g: Write)
    requires HeldFor(base, boot, all, s, t, k, value)
    requires g in all && g.key == k && boot <= g.slot < s
    requires forall v :: v in all && v.key == k && boot <= v.slot <= t ==> v == g || Before(v, g)
    ensures value == g.account
  {
    var w :| w in all && HeldWrite(boot, all, s, t, k, w) && value == w.account;
    assert w == g || Before(g, w);
  }

  // The table a stored value decodes to.
  function TableOf(c: Codec, a: Option<Account>): Option<Table> {
    if a.Some? then c.decodeTable(a.value.data) else None
  }

  lemma DecodedLookup(c: Codec, m: Accounts, k: Key)
    requires AllWellFormed(c, m)
    ensures Lookup(DecodeMap(c, m), k) == TableOf(c, Lookup(m, k))
  {
  }

  // Every write of pre at or above the snapshot's slot and standing at slot t decodes to what the
  // snapshot holds for its key.
  ghost predicate EarlyInSnapshot(c: Codec, pre: seq<Event>, all: seq<Event>, snapshot: Store.Snapshot, t: Slot) {
    forall w :: w in Puts(pre) && snapshot.slot <= w.slot <= t && !Overtaken(Puts(all), t, w) ==>
      TableOf(c, w.account) == TableOf(c, Lookup(snapshot.accounts, w.key))
  }

  // A map replayed from the snapshot decodes to the stream's map exactly when the early writes are in
  // the snapshot.
  lemma DecodedEqualIff(
    c: Codec, base: Accounts, boot: Slot, pre: seq<Event>, y: seq<Write>, all: seq<Event>, snapshot: Store.Snapshot,
    server: Store.Snapshot, mine: Accounts)
    requires Puts(all) == Puts(pre) + y && Ordered(Puts(all)) && boot <= snapshot.slot <= server.slot
    requires Holds(base, boot, Puts(all), snapshot.slot, server.slot, snapshot.accounts)
    requires StateAt(base, boot, all, server.slot, server.accounts)
    requires mine == ApplyWrites(snapshot.accounts, Through(From(y, snapshot.slot), server.slot))
    requires AllWellFormed(c, server.accounts) && AllWellFormed(c, mine)
    ensures DecodeMap(c, mine) == DecodeMap(c, server.accounts)
            <==> EarlyInSnapshot(c, pre, all, snapshot, server.slot)
  {
    var x, s, t := Puts(pre), snapshot.slot, server.slot;
    BothLookups(base, x, y, boot, s, t, snapshot.accounts);
    if EarlyInSnapshot(c, pre, all, snapshot, t) {
      forall k
        ensures Lookup(DecodeMap(c, mine), k) == Lookup(DecodeMap(c, server.accounts), k)
      {
        DecodedLookup(c, mine, k);
        DecodedLookup(c, server.accounts, k);
        if w :| w in x && w.key == k && s <= w.slot <= t && !Overtaken(x + y, t, w) {
          LostKey(base, x, y, boot, s, t, snapshot.accounts, w);
        } else {
          HandoffKey(base, x, y, boot, s, t, snapshot.accounts, k);
        }
      }
      SameLookups(DecodeMap(c, mine), DecodeMap(c, server.accounts));
    } else {
      var w :| w in x && s <= w.slot <= t && !Overtaken(x + y, t, w)
               && TableOf(c, w.account) != TableOf(c, Lookup(snapshot.accounts, w.key));
      LostKey(base, x, y, boot, s, t, snapshot.accounts, w);
      DecodedLookup(c, mine, w.key);
      DecodedLookup(c, server.accounts, w.key);
    }
  }

  // ----- The client's session -----

  // Finishing recovery settles everything accepted before.
  lemma {:induction false} SettledCovers(boot: Slot, a: seq<Event>, b: seq<Event>)
    ensures Accepted(boot, a) <= Settled(boot, a + [FinishRecovery] + b)
  {
    var f: Event := FinishRecovery;
    if b == [] {
      SettledByDrain(boot, a, f);
      assert a + [f] + b == a + [f];
    } else {
      var init, e := b[..|b| - 1], b[|b| - 1];
      SettledCovers(boot, a, init);
      SettledIsPrefix(boot, a + [f] + init);
      assert (a + [f] + b)[..|a + [f] + b| - 1] == a + [f] + init;
    }
  }

  // While no write at the snapshot's slot comes after recovery, nothing late is left waiting.
  lemma ClientNoneLate(slot: Slot, suf: seq<Event>, rest: seq<Event>)
    requires Contract(suf + [FinishRecovery] + rest)
    requires forall w :: Put(w) in rest ==> w.slot != slot
    ensures NoneLate(slot, suf + [FinishRecovery] + rest)
  {
    var mine := suf + [FinishRecovery] + rest;
    ConfirmedMonotone(FromFetched(slot, map[]), mine);
    if slot < MaxConfirmed(slot, mine) {
      NothingLate(slot, mine);
    } else {
      SettledCovers(slot, suf, rest);
      SettledIsPrefix(slot, mine);
      PutsConcat(suf + [FinishRecovery], rest);
      PutsFinish(suf);
      OrderedPrefix(Puts(suf), Puts(rest));
      InOrderAllAccepted(slot, suf);
      InOrderAllAccepted(slot, mine);
      CutConcat(Puts(suf), Puts(rest), slot);
      FromMembers(Puts(rest), slot);
      PutsMembers(rest);
      AfterPrefix(From(Puts(suf), slot), From(Puts(rest), slot), |Settled(slot, mine)|);
    }
  }

  lemma AfterPrefix(a: seq<Write>, b: seq<Write>, n: nat)
    requires |a| <= n <= |a + b|
    ensures forall w :: w in (a + b)[n..] ==> w in b
  {
    assert (a + b)[n..] == b[n - |a|..];
  }

  // A client downloads a snapshot of the server's, in any chunk order. The stream reaches it after pre:
  // buffered during the download, live afterwards. It keeps the contract, is clean, and has brought the
  // client to the stream's confirmed slot. Then the session has failed exactly if a live update was at
  // the snapshot's own slot; otherwise its tables are the stream's decoded map exactly when every write
  // of pre at or above the snapshot's slot has been overtaken by a confirmed one or decodes to what the
  // snapshot holds.
  lemma ClientAgreesIff(
    c: Codec, base: Accounts, boot: Slot, pre: seq<Event>, buffered: seq<WireEvent>, live: seq<WireEvent>,
    snapshot: Store.Snapshot, server: Store.Snapshot, pushed: seq<Chunk>)
    requires AllClean(c, buffered) && AllClean(c, live)
    requires Contract(pre + Decoded(c, buffered) + Decoded(c, live))
    requires AllWellFormed(c, snapshot.accounts) && AllWellFormed(c, server.accounts)
    requires boot <= snapshot.slot
    requires Holds(base, boot, Puts(pre + Decoded(c, buffered) + Decoded(c, live)), snapshot.slot, server.slot,
                   snapshot.accounts)
    requires StateAt(base, boot, pre + Decoded(c, buffered) + Decoded(c, live), server.slot, server.accounts)
    requires MaxConfirmed(snapshot.slot, Decoded(c, buffered) + Decoded(c, live)) == server.slot
    requires |snapshot.accounts| < 0x1_0000_0000_0000_0000
    requires Drawn(pushed, ChunksOf(snapshot)) && forall chunk :: chunk in ChunksOf(snapshot) ==> chunk in pushed
    ensures var download := PushAll(c, pushed);
            && download.Ok?
            && download.value.slot.Some? && download.value.totalAccounts.Some? && download.value.tables.Some?
            && Concluded(download.value) == Ok(Completed(snapshot.slot, DecodeMap(c, snapshot.accounts)))
    ensures var session := Established(c, snapshot.slot, DecodeMap(c, snapshot.accounts), buffered);
            && session.Ok?
            && var followed := RunSession(c, session.value, live, false);
               && (followed.Ok?
                   <==> forall i :: 0 <= i < |live| && live[i].Update? ==> live[i].update.slot != snapshot.slot)
               && (followed.Ok? ==>
                     && followed.value.confirmed == server.slot
                     && (followed.value.tables == DecodeMap(c, server.accounts)
                         <==> EarlyInSnapshot(
                                c, pre, pre + Decoded(c, buffered) + Decoded(c, live), snapshot, server.slot)))
  {
    var slot, m := snapshot.slot, snapshot.accounts;
    var suf, rest := Decoded(c, buffered), Decoded(c, live);
    CompleteIffEveryChunkArrived(c, snapshot, pushed);
    DownloadHasSlot(c, pushed);
    SuffixContract(pre, suf, rest);
    LateIffAtSnapshotSlot(c, slot, suf + [FinishRecovery], live);
    SessionAgrees(c, slot, m, buffered, live);
    var session := Established(c, slot, DecodeMap(c, m), buffered);
    if RunSession(c, session.value, live, false).Ok? {
      var mine := suf + [FinishRecovery] + rest;
      NoneAtSlot(c, live, slot);
      ClientNoneLate(slot, suf, rest);
      InOrderSettles(m, slot, mine);
      FinishKeepsConfirmed(slot, suf, rest);
      ConfirmedMonotone(FromFetched(slot, m), mine);
      DecodedEqualIff(
        c, base, boot, pre, Puts(mine), pre + suf + rest, snapshot, server, Run(FromFetched(slot, m), mine).accounts);
    }
  }

  lemma NoneAtSlot(c: Codec, live: seq<WireEvent>, slot: Slot)
    requires AllClean(c, live)
    requires forall i :: 0 <= i < |live| && live[i].Update? ==> live[i].update.slot != slot
    ensures forall w :: Put(w) in Decoded(c, live) ==> w.slot != slot
  {
    forall w | Put(w) in Decoded(c, live)
      ensures w.slot != slot
    {
      var i :| 0 <= i < |live| && Decode(c, live[i]) == Put(w);
      DecodedIsWellFormed(c, live[i].update);
    }
  }

  // ----- Against the running server -----

  // The stream events of a log: all but the ends of recovery.
  function StreamOf(es: seq<Event>): seq<Event> {
    if es == [] then []
    else
      var rest := StreamOf(es[..|es| - 1]);
      if es[|es| - 1].FinishRecovery? then rest else rest + [es[|es| - 1]]
  }

  lemma {:induction false} StreamOfKeeps(boot: Slot, es: seq<Event>)
    ensures Puts(StreamOf(es)) == Puts(es) && MaxConfirmed(boot, StreamOf(es)) == MaxConfirmed(boot, es)
    ensures forall e :: e in StreamOf(es) <==> e in es && !e.FinishRecovery?
  {
    if es == [] {
    } else {
      var init, e := es[..|es| - 1], es[|es| - 1];
      assert es == init + [e];
      StreamOfKeeps(boot, init);
      var rest := StreamOf(init);
      assert (rest + [e])[..|rest|] == rest;
    }
  }

  lemma ContractSnoc(es: seq<Event>, e: Event)
    requires Contract(es) && Ordered(Puts(es + [e]))
    requires e.Put? ==> forall s: Slot :: Confirmed(s) in es ==> s < e.w.slot
    ensures Contract(es + [e])
  {
    forall i | 0 <= i < |es| && es[i].Confirmed? && e.Put?
      ensures es[i].slot < e.w.slot
    {
      assert Confirmed(es[i].slot) in es;
    }
  }

  lemma ConfirmedBefore(es: seq<Event>, e: Event, s: Slot)
    requires Contract(es + [e]) && e.Put? && Confirmed(s) in es
    ensures s < e.w.slot
  {
    var j :| 0 <= j < |es| && es[j] == Confirmed(s);
    assert (es + [e])[j] == Confirmed(s) && (es + [e])[|es|] == e;
  }

  lemma {:induction false} StreamOfContract(es: seq<Event>)
    requires Contract(es)
    ensures Contract(StreamOf(es))
  {
    if es == [] {
    } else {
      var init, e := es[..|es| - 1], es[|es| - 1];
      assert es == init + [e];
      ContractPrefix(init, [e]);
      StreamOfContract(init);
      if !e.FinishRecovery? {
        StreamOfKeeps(0, es);
        StreamOfKeeps(0, init);
        forall s: Slot | e.Put? && Confirmed(s) in StreamOf(init)
          ensures s < e.w.slot
        {
          ConfirmedBefore(init, e, s);
        }
        ContractSnoc(StreamOf(init), e);
      }
    }
  }

  // A machine that serves the map of an updater with this log.
  ghost predicate ServesLog(cfg: Config, m: Machine, base: Accounts, boot: Slot, log: seq<Event>) {
    && Inv(cfg, m)
    && m.phase.Serving?
    && m.phase.updater == Run(FromFetched(boot, base), log)
    && ServesUpdater(m)
  }

  // The client downloads what the server m serves, caught up or still at its bootstrap slot; later the
  // server has consumed more of the same stream, of which the client has seen what follows pre.
  lemma ClientAgreesWithServer(
    cfg: Config, m: Machine, later: Machine, base: Accounts, boot: Slot, served: seq<Event>, ahead: seq<Event>,
    pre: seq<Event>, buffered: seq<WireEvent>, live: seq<WireEvent>, pushed: seq<Chunk>)
    requires ServesLog(cfg, m, base, boot, served) && ServesLog(cfg, later, base, boot, served + ahead)
    requires Contract(served + ahead) && CaughtUp(boot, served + ahead)
    requires AllClean(cfg.codec, buffered) && AllClean(cfg.codec, live)
    requires StreamOf(served + ahead) == pre + Decoded(cfg.codec, buffered) + Decoded(cfg.codec, live)
    requires MaxConfirmed(m.store.current.slot, Decoded(cfg.codec, buffered) + Decoded(cfg.codec, live))
             == MaxConfirmed(boot, served + ahead)
    requires |m.store.current.accounts| < 0x1_0000_0000_0000_0000
    requires Drawn(pushed, ChunksOf(m.store.current))
    requires forall chunk :: chunk in ChunksOf(m.store.current) ==> chunk in pushed
    ensures var c, snapshot := cfg.codec, m.store.current;
            var download := PushAll(c, pushed);
            && download.Ok?
            && download.value.slot.Some? && download.value.totalAccounts.Some? && download.value.tables.Some?
            && Concluded(download.value).Ok?
            && var done := Concluded(download.value).value;
               var session := Established(c, done.slot, done.tables, buffered);
               && session.Ok?
               && var followed := RunSession(c, session.value, live, false);
                  && (followed.Ok?
                      <==> forall i :: 0 <= i < |live| && live[i].Update? ==> live[i].update.slot != snapshot.slot)
                  && (followed.Ok? ==>
                        && followed.value.confirmed == later.store.current.slot
                        && (followed.value.tables == DecodeMap(c, later.store.current.accounts)
                            <==> EarlyInSnapshot(c, pre, served + ahead, snapshot, later.store.current.slot)))
  {
    var c, all := cfg.codec, served + ahead;
    StreamOfKeeps(boot, all);
    StreamOfContract(all);
    ConfirmedMonotone(FromFetched(boot, base), served);
    ConfirmedMonotone(FromFetched(boot, base), all);
    MaxConfirmedConcat(boot, served, ahead);
    ConfirmedMonotone(FromFetched(MaxConfirmed(boot, served), base), ahead);
    ServedHolds(base, boot, served, ahead, MaxConfirmed(boot, all));
    assert all + [] == all;
    PublishedIsStateAt(base, boot, all, []);
    ClientAgreesIff(c, base, boot, pre, buffered, live, m.store.current, later.store.current, pushed);
  }

  // ----- What is lost -----

  // A table created at slot 11 while the server serves slot 10 is announced before the client opens
  // its stream. It is in neither the snapshot nor the client's stream: once slot 11 is confirmed, the
  // server serves it and the client, which has reported no failure, does not have it.
  lemma HandoffLosesEarlyWrite(c: Codec, w: Write, boot: Slot)
    requires boot < 10 && w.slot == 11 && w.account.Some? && WellFormed(c, w.key, w.account.value)
    ensures var served, ahead := [FinishRecovery, Confirmed(10), Put(w)], [Confirmed(11)];
            var pre, buffered := [Confirmed(10), Put(w)], [ConfirmedSlot(11)];
            var start := FromFetched(boot, map[]);
            && Contract(served + ahead)
            && StreamOf(served + ahead) == pre + Decoded(c, buffered)
            && Run(start, served).confirmed == 10 && Run(start, served).accounts == map[]
            && Run(start, served + ahead).confirmed == 11
            && Run(start, served + ahead).accounts == map[w.key := w.account.value]
            && Established(c, 10, map[], buffered) == Ok(SessionState(10, 11, map[], map[]))
  {
    HandoffStream(c, w);
    HandoffConfirms(w, boot);
    HandoffServer(w, boot, [FinishRecovery, Confirmed(10), Put(w)], 10);
    HandoffServer(w, boot, [FinishRecovery, Confirmed(10), Put(w)] + [Confirmed(11)], 11);
    EmptySession(c);
  }

  // A server that has just bootstrapped at slot 10 serves it before slot 10 is confirmed, and holds a
  // write at slot 10 back until the next confirm. If the client opens its stream after that write, it
  // too is in neither.
  lemma HandoffLosesBootstrapWrite(c: Codec, w: Write)
    requires w.slot == 10 && w.account.Some? && WellFormed(c, w.key, w.account.value)
    ensures var served, ahead := [FinishRecovery, Put(w)], [Confirmed(11)];
            var pre, buffered := [Put(w)], [ConfirmedSlot(11)];
            var start := FromFetched(10, map[]);
            && Contract(served + ahead) && CaughtUp(10, served + ahead)
            && StreamOf(served + ahead) == pre + Decoded(c, buffered)
            && Run(start, served).confirmed == 10 && Run(start, served).accounts == map[]
            && Run(start, served + ahead).confirmed == 11
            && Run(start, served + ahead).accounts == map[w.key := w.account.value]
            && Established(c, 10, map[], buffered) == Ok(SessionState(10, 11, map[], map[]))
  {
    var f: Event := FinishRecovery;
    var p, q, u := [f], [f, Put(w)], [f, Put(w), Confirmed(11)];
    assert u[..2] == q && q[..1] == p && p[..0] == [];
    Unfold(p);
    Unfold(q);
    Unfold(u);
    assert q + [Confirmed(11)] == u;
    assert Decoded(c, [ConfirmedSlot(11)]) == [Confirmed(11)];
    BootstrapConfirms(w, 10);
    HeldBack(w, q);
    HandoffServer(w, 10, u, 11);
    EmptySession(c);
  }

  lemma BootstrapConfirms(w: Write, boot: Slot)
    requires boot == 10
    ensures MaxConfirmed(boot, [FinishRecovery, Put(w)]) == 10
    ensures MaxConfirmed(boot, [FinishRecovery, Put(w), Confirmed(11)]) == 11
  {
    var f: Event := FinishRecovery;
    var p, q, u := [f], [f, Put(w)], [f, Put(w), Confirmed(11)];
    assert u[..2] == q && q[..1] == p && p[..0] == [];
    assert MaxConfirmed(boot, p) == boot;
    assert MaxConfirmed(boot, q) == boot;
  }

  lemma HeldBack(w: Write, es: seq<Event>)
    requires es == [FinishRecovery, Put(w)]
    ensures Run(FromFetched(10, map[]), es).accounts == map[]
    ensures Run(FromFetched(10, map[]), es).confirmed == 10
  {
    var f: Event := FinishRecovery;
    assert es[..1] == [f] && [f][..0] == [];
    RunIsClosed(map[], 10, es);
    assert Settled(10, [f]) == Accepted(10, []) == [];
    assert Settled(10, es) == [];
  }

  lemma HandoffStream(c: Codec, w: Write)
    requires w.slot == 11
    ensures var served, ahead := [FinishRecovery, Confirmed(10), Put(w)], [Confirmed(11)];
            && Puts(served) == Puts(served + ahead) == [w]
            && Contract(served) && Contract(served + ahead)
            && StreamOf(served + ahead) == [Confirmed(10), Put(w)] + Decoded(c, [ConfirmedSlot(11)])
  {
    var f: Event := FinishRecovery;
    var p, q, r, u := [f], [f, Confirmed(10)], [f, Confirmed(10), Put(w)], [f, Confirmed(10), Put(w), Confirmed(11)];
    assert u[..3] == r && r[..2] == q && q[..1] == p && p[..0] == [];
    Unfold(p);
    Unfold(q);
    Unfold(r);
    Unfold(u);
    assert r + [Confirmed(11)] == u;
    assert Decoded(c, [ConfirmedSlot(11)]) == [Confirmed(11)];
  }

  lemma HandoffConfirms(w: Write, boot: Slot)
    requires boot < 10
    ensures var served := [FinishRecovery, Confirmed(10), Put(w)];
            MaxConfirmed(boot, served) == 10 && MaxConfirmed(boot, served + [Confirmed(11)]) == 11
  {
    var f: Event := FinishRecovery;
    var p, q, r, u := [f], [f, Confirmed(10)], [f, Confirmed(10), Put(w)], [f, Confirmed(10), Put(w), Confirmed(11)];
    assert u[..3] == r && r[..2] == q && q[..1] == p && p[..0] == [];
    assert r + [Confirmed(11)] == u;
    assert MaxConfirmed(boot, p) == boot;
    assert MaxConfirmed(boot, q) == 10;
  }

  lemma HandoffServer(w: Write, boot: Slot, es: seq<Event>, t: Slot)
    requires boot < t && boot <= w.slot && Contract(es) && Puts(es) == [w]
    requires MaxConfirmed(boot, es) == t
    ensures var s := Run(FromFetched(boot, map[]), es);
            && s.confirmed == t
            && s.accounts == if w.slot <= t && w.account.Some? then map[w.key := w.account.value] else map[]
  {
    ContractSettles(map[], boot, es);
    OneWrite(w, boot, t);
  }

  lemma Unfold(es: seq<Event>)
    requires es != []
    ensures Puts(es) == Puts(es[..|es| - 1]) + if es[|es| - 1].Put? then [es[|es| - 1].w] else []
    ensures StreamOf(es) == StreamOf(es[..|es| - 1]) + if es[|es| - 1].FinishRecovery? then [] else [es[|es| - 1]]
  {
  }

  lemma OneWrite(w: Write, boot: Slot, t: Slot)
    requires boot <= w.slot
    ensures ApplyWrites(map[], Through(From([w], boot), t))
            == if w.slot <= t && w.account.Some? then map[w.key := w.account.value] else map[]
  {
    FromAll([w], boot);
    if w.slot <= t {
      CutBelow([w], t);
      assert [w][..0] == [];
    } else {
      CutAbove([w], t);
    }
  }

  lemma EmptySession(c: Codec)
    ensures Established(c, 10, map[], [ConfirmedSlot(11)]) == Ok(SessionState(10, 11, map[], map[]))
  {
    var s, e := SessionState(10, 10, map[], map[]), ConfirmedSlot(11);
    DrainNothing(c, map[], map[], 11);
    assert [e][..0] == [];
    assert Later(map[], 11) == map[];
    assert RunSession(c, s, [], true) == Ok(s);
  }

  lemma {:induction false} DownloadHasSlot(c: Codec, pushed: seq<Chunk>)
    requires PushAll(c, pushed).Ok?
    ensures var s := PushAll(c, pushed).value;
            if pushed == [] then s.slot.None? else s.slot.Some? && s.totalAccounts.Some? && s.tables.Some?
  {
  }
}
