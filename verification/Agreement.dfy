// The client's version-free tables agree with the server's version-checked map.
module Agreement {
  import opened Types
  import opened Writes
  import opened Keys
  import opened Gate
  import opened Download
  import opened Client
  import opened Staging
  import opened ClosedForm
  import opened Replay

  // An update both sides understand the same way: it decodes, and a funded table account has
  // decodable data (the server would store a tombstone where the client would fail).
  ghost predicate Clean(c: Codec, u: WireUpdate) {
    && DecodeUpdate(c, u).Ok?
    && var a := u.account.value;
       (a.lamports != 0 && a.owner == c.programId ==> c.decodeTable(a.data).Some?)
  }

  ghost predicate AllClean(c: Codec, es: seq<WireEvent>) {
    forall i :: 0 <= i < |es| && es[i].Update? ==> Clean(c, es[i].update)
  }

  function Decode(c: Codec, e: WireEvent): Event {
    match e
    case ConfirmedSlot(t) => Confirmed(t)
    case Update(u) =>
      match DecodeUpdate(c, u)
      case Ok(w) => Put(w)
      case Err(_) => Confirmed(0)
  }

  function Decoded(c: Codec, es: seq<WireEvent>): seq<Event> {
    seq(|es|, i requires 0 <= i < |es| => Decode(c, es[i]))
  }

  // Both sides apply u to the same effect, or both refuse it.
  ghost predicate SameOutcome(c: Codec, m: Accounts, u: WireUpdate)
    requires AllWellFormed(c, m)
  {
    match DecodeUpdate(c, u)
    case Ok(w) =>
      var next := Assign(m, w.key, w.account);
      AllWellFormed(c, next) && ApplyUpdate(c, DecodeMap(c, m), u) == Ok(DecodeMap(c, next))
    case Err(_) => ApplyUpdate(c, DecodeMap(c, m), u).Err?
  }

  // A missing body or a malformed key is refused by both. Otherwise the owner must be a key, and a
  // funded table account must have decodable data.
  predicate Shared(c: Codec, u: WireUpdate) {
    || u.account.None?
    || KeyOf(u.account.value.pubkey).None?
    || (var a := u.account.value;
        |a.owner| == 32 && (a.lamports != 0 && a.owner == c.programId ==> c.decodeTable(a.data).Some?))
  }

  lemma CleanUpdateAgrees(c: Codec, m: Accounts, u: WireUpdate)
    requires AllWellFormed(c, m) && Clean(c, u)
    ensures SameOutcome(c, m, u)
  {
    DecodedIsWellFormed(c, u);
    var w := DecodeUpdate(c, u).value;
    var next := Assign(m, w.key, w.account);
    match w.account
    case None =>
      assert DecodeMap(c, next) == DecodeMap(c, m) - {w.key};
    case Some(a) =>
      assert DecodeMap(c, next) == DecodeMap(c, m)[w.key := c.decodeTable(a.data).value];
  }

  // The client treats an update as the server does exactly in these cases. With undecodable table
  // data the server stores a tombstone and the client fails; with an owner of the wrong length the
  // server fails its source and the client removes the table.
  lemma UpdateAgreesIff(c: Codec, m: Accounts, u: WireUpdate)
    requires AllWellFormed(c, m) && |c.programId| == 32
    ensures SameOutcome(c, m, u) <==> Shared(c, u)
  {
    if Clean(c, u) {
      CleanUpdateAgrees(c, m, u);
    }
  }

  // ----- The simulation between a session and a freshly fetched updater -----

  ghost predicate Mirrors(c: Codec, us: seq<WireUpdate>, ms: seq<Mutation>) {
    |us| == |ms| && forall i :: 0 <= i < |us| ==>
      Clean(c, us[i]) && ms[i] == Mutation(DecodeUpdate(c, us[i]).value.key, DecodeUpdate(c, us[i]).value.account)
  }

  ghost predicate MirrorsPending(c: Codec, staged: Staged, pending: Pending) {
    staged.Keys == pending.Keys && forall s :: s in staged ==> Mirrors(c, staged[s], pending[s])
  }

  ghost predicate Agree(c: Codec, client: SessionState, server: State) {
    && client.bootstrap == server.bootstrap
    && client.confirmed == server.confirmed
    && AllWellFormed(c, server.accounts)
    && client.tables == DecodeMap(c, server.accounts)
    && MirrorsPending(c, client.pending, server.pending)
  }

  lemma {:induction false} ApplyMirrored(c: Codec, m: Accounts, us: seq<WireUpdate>, ms: seq<Mutation>)
    requires AllWellFormed(c, m) && Mirrors(c, us, ms)
    ensures AllWellFormed(c, ApplyMutations(m, ms))
    ensures ApplyUpdates(c, DecodeMap(c, m), us) == Ok(DecodeMap(c, ApplyMutations(m, ms)))
  {
    if us == [] {
    } else {
      var n := |us| - 1;
      ApplyMirrored(c, m, us[..n], ms[..n]);
      CleanUpdateAgrees(c, ApplyMutations(m, ms[..n]), us[n]);
    }
  }

  lemma {:induction false} DrainMirrored(c: Codec, m: Accounts, staged: Staged, pending: Pending, t: nat)
    requires AllWellFormed(c, m) && MirrorsPending(c, staged, pending)
    ensures AllWellFormed(c, DrainThrough(m, pending, t))
    ensures DrainTables(c, DecodeMap(c, m), staged, t) == Ok(DecodeMap(c, DrainThrough(m, pending, t)))
  {
    if t == 0 {
    } else {
      DrainMirrored(c, m, staged, pending, t - 1);
    }
    if t in pending {
      ApplyMirrored(c, if t == 0 then m else DrainThrough(m, pending, t - 1), staged[t], pending[t]);
    }
  }

  lemma DrainAgrees(c: Codec, client: SessionState, server: State, t: Slot)
    requires Agree(c, client, server)
    ensures Drain(c, client, t).Ok? && Agree(c, Drain(c, client, t).value, Drained(server, t))
  {
    DrainMirrored(c, server.accounts, client.pending, server.pending, t);
  }

  lemma StageAgrees(c: Codec, staged: Staged, pending: Pending, u: WireUpdate)
    requires MirrorsPending(c, staged, pending) && Clean(c, u)
    ensures MirrorsPending(c, StageUpdate(staged, u), Stage(pending, DecodeUpdate(c, u).value))
  {
    DecodedIsWellFormed(c, u);
  }

  // One event keeps the agreement, when the server's watermark test comes down to the bootstrap
  // slot and, while following, the update is not late.
  lemma StepAgrees(c: Codec, client: SessionState, server: State, e: WireEvent, recovering: bool)
    requires Agree(c, client, server)
    requires e.Update? ==> Clean(c, e.update)
    requires e.Update? ==>
               (Accepts(server.bootstrap, server.versions, Decode(c, e).w) <==> server.bootstrap <= e.update.slot)
    ensures var late := !recovering && e.Update? && client.bootstrap <= e.update.slot <= client.confirmed;
            var r := StepSession(c, client, e, recovering);
            && (r.Ok? <==> !late)
            && (r.Ok? ==> Agree(c, r.value, Staging.Step(server, Decode(c, e))))
  {
    match e
    case Update(u) =>
      DecodedIsWellFormed(c, u);
      StageAgrees(c, client.pending, server.pending, u);
    case ConfirmedSlot(t) =>
      DrainAgrees(c, client, server, t);
  }

  // The server's watermark test on an in-order stream.
  lemma InOrderTest(boot: Slot, base: Accounts, es: seq<Event>, w: Write)
    requires Ordered(Puts(es + [Put(w)]))
    ensures Accepts(boot, Run(FromFetched(boot, base), es).versions, w) <==> boot <= w.slot
  {
    PutsConcat(es, [Put(w)]);
    assert [Put(w)][..0] == [];
    assert Puts([Put(w)]) == [w];
    OrderedPrefix(Puts(es), [w]);
    InOrderAllAccepted(boot, es);
    InOrderAccepts(boot, Puts(es), w);
    RunIsClosed(base, boot, es);
  }

  // Is there an update in es that the follow mode refuses, given what came before?
  ghost predicate HasLate(c: Codec, slot: Slot, before: seq<Event>, es: seq<WireEvent>) {
    exists i :: 0 <= i < |es| && es[i].Update? &&
                slot <= es[i].update.slot <= MaxConfirmed(slot, before + Decoded(c, es[..i]))
  }

  // A run of clean events, in order after `before`, keeps the agreement; while following it fails
  // exactly when a late update comes.
  lemma {:induction false} RunAgrees(
    c: Codec, slot: Slot, base: Accounts, before: seq<Event>, client: SessionState, es: seq<WireEvent>,
    recovering: bool)
    requires Agree(c, client, Run(FromFetched(slot, base), before))
    requires AllClean(c, es) && Ordered(Puts(before + Decoded(c, es)))
    ensures var r := RunSession(c, client, es, recovering);
            && (r.Ok? <==> recovering || !HasLate(c, slot, before, es))
            && (r.Ok? ==> Agree(c, r.value, Run(FromFetched(slot, base), before + Decoded(c, es))))
  {
    if es == [] {
      assert before + Decoded(c, es) == before;
    } else {
      var n := |es| - 1;
      var init, e := es[..n], es[n];
      var sofar := before + Decoded(c, init);
      assert before + Decoded(c, es) == sofar + [Decode(c, e)];
      PutsConcat(sofar, [Decode(c, e)]);
      OrderedPrefix(Puts(sofar), Puts([Decode(c, e)]));
      RunAgrees(c, slot, base, before, client, init, recovering);
      LateSnoc(c, slot, before, es);
      if RunSession(c, client, init, recovering).Ok? {
        var server := Run(FromFetched(slot, base), sofar);
        ConfirmedMonotone(FromFetched(slot, base), sofar);
        RunSnoc(FromFetched(slot, base), sofar, Decode(c, e));
        if e.Update? {
          InOrderTest(slot, base, sofar, Decode(c, e).w);
          DecodedIsWellFormed(c, e.update);
        }
        StepAgrees(c, RunSession(c, client, init, recovering).value, server, e, recovering);
      }
    }
  }

  lemma LateSnoc(c: Codec, slot: Slot, before: seq<Event>, es: seq<WireEvent>)
    requires es != []
    ensures var n := |es| - 1;
            HasLate(c, slot, before, es) <==>
              || HasLate(c, slot, before, es[..n])
              || (es[n].Update? && slot <= es[n].update.slot <= MaxConfirmed(slot, before + Decoded(c, es[..n])))
  {
    var n := |es| - 1;
    forall i | 0 <= i < n
      ensures es[..n][..i] == es[..i] && es[..n][i] == es[i]
    {
    }
    if HasLate(c, slot, before, es[..n]) {
      var i :| 0 <= i < n && es[..n][i].Update? &&
               slot <= es[..n][i].update.slot <= MaxConfirmed(slot, before + Decoded(c, es[..n][..i]));
      assert es[i].Update?;
    }
  }

  // ----- After the snapshot -----

  // Replaying and then following clean, in-order events: the session is established, following
  // fails exactly when a late update comes, and otherwise agrees with an updater that was fetched
  // at the snapshot and finished recovery between the two phases.
  lemma SessionAgrees(
    c: Codec, slot: Slot, m: Accounts, buffered: seq<WireEvent>, live: seq<WireEvent>)
    requires AllWellFormed(c, m) && AllClean(c, buffered) && AllClean(c, live)
    requires Ordered(Puts(Decoded(c, buffered) + [FinishRecovery] + Decoded(c, live)))
    ensures var before := Decoded(c, buffered) + [FinishRecovery];
            var s := Established(c, slot, DecodeMap(c, m), buffered);
            && s.Ok?
            && var r := RunSession(c, s.value, live, false);
               && (r.Ok? <==> !HasLate(c, slot, before, live))
               && (r.Ok? ==> Agree(c, r.value, Run(FromFetched(slot, m), before + Decoded(c, live))))
  {
    var start := SessionState(slot, slot, DecodeMap(c, m), map[]);
    var first: seq<Event> := Decoded(c, buffered);
    var f: Event := FinishRecovery;
    assert Run(FromFetched(slot, m), []) == FromFetched(slot, m);
    assert [] + first == first;
    PutsConcat(first + [f], Decoded(c, live));
    OrderedPrefix(Puts(first + [f]), Puts(Decoded(c, live)));
    PutsFinish(first);
    RunAgrees(c, slot, m, [], start, buffered, true);
    var s := RunSession(c, start, buffered, true).value;
    DrainAgrees(c, s, Run(FromFetched(slot, m), first), s.confirmed);
    RunSnoc(FromFetched(slot, m), first, f);
    RunAgrees(c, slot, m, first + [f], Established(c, slot, DecodeMap(c, m), buffered).value, live, false);
  }

  // Under the contract the only late update there can be is one at the snapshot's own slot.
  lemma LateIffAtSnapshotSlot(c: Codec, slot: Slot, before: seq<Event>, live: seq<WireEvent>)
    requires AllClean(c, live) && Contract(before + Decoded(c, live))
    ensures HasLate(c, slot, before, live)
      <==> exists i :: 0 <= i < |live| && live[i].Update? && live[i].update.slot == slot
  {
    var all := before + Decoded(c, live);
    forall i | 0 <= i < |live| && live[i].Update?
      ensures slot <= live[i].update.slot <= MaxConfirmed(slot, before + Decoded(c, live[..i]))
        <==> live[i].update.slot == slot
    {
      var prefix := before + Decoded(c, live[..i]);
      DecodedIsWellFormed(c, live[i].update);
      assert all == prefix + Decoded(c, live[i..]);
      assert all[|prefix|] == Decode(c, live[i]);
      ConfirmedMonotone(FromFetched(slot, map[]), prefix);
      if slot < MaxConfirmed(slot, prefix) {
        LaterIsAbove(slot, prefix, Decoded(c, live[i..]), 0);
      }
    }
  }
}
