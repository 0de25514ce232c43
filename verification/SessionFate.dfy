// Exactly when the client's session survives, on any stream.
module SessionFate {
  import opened Types
  import opened Keys
  import opened Gate
  import opened Download
  import opened Client

  // An update the client cannot apply: no body, a malformed key, or a funded account of the program
  // whose data is no table.
  predicate IsBad(c: Codec, u: WireUpdate) {
    || u.account.None?
    || |u.account.value.pubkey| != 32
    || (u.account.value.lamports != 0 && u.account.value.owner == c.programId
        && c.decodeTable(u.account.value.data).None?)
  }

  // What an update does to the tables: it sets the table of its key if it is a funded account of the
  // program, and else removes it.
  lemma AppliesExactly(c: Codec, tables: Tables, u: WireUpdate)
    ensures ApplyUpdate(c, tables, u).Err? <==> IsBad(c, u)
    ensures !IsBad(c, u) ==>
              var a, next := u.account.value, ApplyUpdate(c, tables, u).value;
              exists k :: BytesOf(k) == a.pubkey
                          && next == if a.lamports != 0 && a.owner == c.programId
                                     then tables[k := c.decodeTable(a.data).value] else tables - {k}
    ensures ApplyUpdate(c, tables, u) == Err(AccountMissing) <==> u.account.None?
    ensures ApplyUpdate(c, tables, u) == Err(AddressInvalid) <==> u.account.Some? && |u.account.value.pubkey| != 32
  {
    if u.account.Some? && |u.account.value.pubkey| == 32 {
      BytesRoundTrip(u.account.value.pubkey);
    }
  }

  ghost predicate NoneBad(c: Codec, us: seq<WireUpdate>) {
    forall i :: 0 <= i < |us| ==> !IsBad(c, us[i])
  }

  lemma {:induction false} ApplyAllExactly(c: Codec, tables: Tables, us: seq<WireUpdate>)
    ensures ApplyUpdates(c, tables, us).Ok? <==> NoneBad(c, us)
  {
    if us == [] {
    } else {
      var n := |us| - 1;
      ApplyAllExactly(c, tables, us[..n]);
      assert NoneBad(c, us) <==> NoneBad(c, us[..n]) && !IsBad(c, us[n]);
      if NoneBad(c, us[..n]) {
        AppliesExactly(c, ApplyUpdates(c, tables, us[..n]).value, us[n]);
      }
    }
  }

  lemma {:induction false} DrainExactly(c: Codec, tables: Tables, pending: Staged, t: nat)
    ensures DrainTables(c, tables, pending, t).Ok? <==> forall s :: s in pending && s <= t ==> NoneBad(c, pending[s])
  {
    var before := if t == 0 then Ok(tables) else DrainTables(c, tables, pending, t - 1);
    if t == 0 {
    } else {
      DrainExactly(c, tables, pending, t - 1);
    }
    if before.Ok? && t in pending {
      ApplyAllExactly(c, before.value, pending[t]);
    }
  }

  // ----- A session's history -----

  // The greatest of the start and the confirmed slots among the events.
  function GreatestSlot(start: Slot, es: seq<WireEvent>): Slot {
    if es == [] then start
    else
      var m := GreatestSlot(start, es[..|es| - 1]);
      match es[|es| - 1]
      case ConfirmedSlot(t) => Max(m, t)
      case Update(_) => m
  }

  // Event i is an update that counts: at or above the session's first slot.
  predicate Counts(es: seq<WireEvent>, slot: Slot, i: int) {
    0 <= i < |es| && es[i].Update? && slot <= es[i].update.slot
  }

  // Event i counts, is bad, and its slot has been confirmed by the end of the events.
  ghost predicate IsFatal(c: Codec, es: seq<WireEvent>, slot: Slot, i: int) {
    Counts(es, slot, i) && IsBad(c, es[i].update) && es[i].update.slot <= GreatestSlot(slot, es)
  }

  // Event i counts, and comes when its slot has been confirmed.
  ghost predicate IsLate(es: seq<WireEvent>, slot: Slot, i: int) {
    Counts(es, slot, i) && es[i].update.slot <= GreatestSlot(slot, es[..i])
  }

  // What a surviving session is like after the events: what waits came with them, and every bad update
  // that counts is still waiting.
  ghost predicate Survived(c: Codec, es: seq<WireEvent>, slot: Slot, s: SessionState) {
    && s.bootstrap == slot && s.confirmed == GreatestSlot(slot, es)
    && (forall t, u :: t in s.pending && u in s.pending[t] ==> Update(u) in es && slot <= u.slot == t)
    && (forall i :: Counts(es, slot, i) && IsBad(c, es[i].update) ==>
          es[i].update.slot in s.pending && es[i].update in s.pending[es[i].update.slot])
  }

  // And nothing that waits is confirmed.
  ghost predicate NothingDue(s: SessionState) {
    forall t :: t in s.pending ==> s.confirmed < t
  }

  lemma {:induction false} GreatestGrows(slot: Slot, a: seq<WireEvent>, b: seq<WireEvent>)
    ensures slot <= GreatestSlot(slot, a) <= GreatestSlot(slot, a + b)
  {
    if b == [] {
      assert a + b == a;
      GreatestAbove(slot, a);
    } else {
      assert (a + b)[..|a + b| - 1] == a + b[..|b| - 1];
      GreatestGrows(slot, a, b[..|b| - 1]);
    }
  }

  lemma {:induction false} GreatestAbove(slot: Slot, es: seq<WireEvent>)
    ensures slot <= GreatestSlot(slot, es)
  {
    if es == [] {
    } else {
      GreatestAbove(slot, es[..|es| - 1]);
    }
  }

  lemma QueueSurvives(c: Codec, es: seq<WireEvent>, slot: Slot, s: SessionState, u: WireUpdate, recovering: bool)
    requires Survived(c, es, slot, s)
    ensures var late := !recovering && slot <= u.slot <= s.confirmed;
            var r := Queue(s, u, recovering);
            && (r.Ok? <==> !late)
            && (r.Ok? ==> Survived(c, es + [Update(u)], slot, r.value))
            && (r.Ok? && !recovering && NothingDue(s) ==> NothingDue(r.value))
  {
    var all, n := es + [Update(u)], |es|;
    assert all[n] == Update(u) && forall j :: 0 <= j < n ==> all[j] == es[j];
    assert all[..n] == es;
    forall i
      ensures Counts(all, slot, i) <==> if i == n then slot <= u.slot else Counts(es, slot, i)
    {
    }
  }

  // Draining fails exactly if a bad update that counts is due.
  lemma DrainSurvives(c: Codec, es: seq<WireEvent>, slot: Slot, s: SessionState, t: Slot)
    requires Survived(c, es, slot, s)
    ensures var r := Drain(c, s, t);
            && (r.Ok? <==> forall i :: Counts(es, slot, i) && IsBad(c, es[i].update) ==> t < es[i].update.slot)
            && (r.Ok? ==> Survived(c, es, slot, r.value) && forall t' :: t' in r.value.pending ==> t < t')
  {
    DrainExactly(c, s.tables, s.pending, t);
    if Drain(c, s, t).Ok? {
      forall i | Counts(es, slot, i) && IsBad(c, es[i].update)
        ensures t < es[i].update.slot
      {
        var u := es[i].update;
        var k :| 0 <= k < |s.pending[u.slot]| && s.pending[u.slot][k] == u;
      }
    } else {
      var due :| due in s.pending && due <= t && !NoneBad(c, s.pending[due]);
      var k :| 0 <= k < |s.pending[due]| && IsBad(c, s.pending[due][k]);
      assert s.pending[due][k] in s.pending[due];
      var i :| 0 <= i < |es| && es[i] == Update(s.pending[due][k]);
      assert Counts(es, slot, i);
    }
  }

  lemma ConfirmSurvives(c: Codec, es: seq<WireEvent>, slot: Slot, s: SessionState, t: Slot)
    requires Survived(c, es, slot, s)
    ensures var r := ConfirmSlot(c, s, t);
            && (r.Ok? <==> t <= s.confirmed
                           || forall i :: Counts(es, slot, i) && IsBad(c, es[i].update) ==> t < es[i].update.slot)
            && (r.Ok? ==> Survived(c, es + [ConfirmedSlot(t)], slot, r.value))
            && (r.Ok? && NothingDue(s) ==> NothingDue(r.value))
  {
    var all, n := es + [ConfirmedSlot(t)], |es|;
    assert all[n] == ConfirmedSlot(t) && forall j :: 0 <= j < n ==> all[j] == es[j];
    assert all[..n] == es;
    forall i
      ensures Counts(all, slot, i) <==> Counts(es, slot, i)
    {
    }
    if t > s.confirmed {
      DrainSurvives(c, es, slot, s, t);
    }
  }

  // ----- The recovering session -----

  // While recovering it fails only at a fatal update.
  lemma {:induction false} RecoveringFate(c: Codec, slot: Slot, tables: Tables, es: seq<WireEvent>)
    ensures var r := RunSession(c, SessionState(slot, slot, tables, map[]), es, true);
            && (r.Ok? ==> Survived(c, es, slot, r.value))
            && (r.Err? ==> exists i :: IsFatal(c, es, slot, i))
  {
    var start := SessionState(slot, slot, tables, map[]);
    if es == [] {
    } else {
      var n := |es| - 1;
      var init, e := es[..n], es[n];
      assert init + [e] == es;
      RecoveringFate(c, slot, tables, init);
      var r := RunSession(c, start, init, true);
      if r.Err? {
        var i :| IsFatal(c, init, slot, i);
        GreatestGrows(slot, init, [e]);
        assert IsFatal(c, es, slot, i);
      } else {
        match e
        case Update(u) => QueueSurvives(c, init, slot, r.value, u, true);
        case ConfirmedSlot(t) =>
          ConfirmSurvives(c, init, slot, r.value, t);
          if ConfirmSlot(c, r.value, t).Err? {
            var i :| Counts(init, slot, i) && IsBad(c, init[i].update) && init[i].update.slot <= t;
            assert IsFatal(c, es, slot, i);
          }
      }
    }
  }

  // The session is established exactly if no fatal update was buffered; then nothing due is left.
  lemma EstablishedIff(c: Codec, slot: Slot, tables: Tables, buffered: seq<WireEvent>)
    ensures var r := Established(c, slot, tables, buffered);
            && (r.Ok? <==> forall i :: !IsFatal(c, buffered, slot, i))
            && (r.Ok? ==> Survived(c, buffered, slot, r.value) && NothingDue(r.value))
  {
    RecoveringFate(c, slot, tables, buffered);
    var r := RunSession(c, SessionState(slot, slot, tables, map[]), buffered, true);
    if r.Ok? {
      DrainSurvives(c, buffered, slot, r.value, r.value.confirmed);
      forall i
        ensures IsFatal(c, buffered, slot, i)
                <==> Counts(buffered, slot, i) && IsBad(c, buffered[i].update)
                     && buffered[i].update.slot <= r.value.confirmed
      {
      }
    }
  }

  // ----- The following session -----

  lemma FatalLater(c: Codec, es: seq<WireEvent>, e: WireEvent, slot: Slot, i: int)
    ensures IsFatal(c, es, slot, i) ==> IsFatal(c, es + [e], slot, i)
    ensures 0 <= i < |es| ==> (IsLate(es, slot, i) <==> IsLate(es + [e], slot, i))
  {
    GreatestGrows(slot, es, [e]);
    if 0 <= i < |es| {
      assert (es + [e])[..i] == es[..i];
    }
  }

  // A live update that is late, or any that is fatal.
  ghost predicate Ends(c: Codec, buffered: seq<WireEvent>, live: seq<WireEvent>, slot: Slot, i: int) {
    (|buffered| <= i && IsLate(buffered + live, slot, i)) || IsFatal(c, buffered + live, slot, i)
  }

  lemma {:induction false} FollowingFate(
    c: Codec, slot: Slot, s: SessionState, buffered: seq<WireEvent>, live: seq<WireEvent>)
    requires Survived(c, buffered, slot, s) && NothingDue(s)
    ensures var r := RunSession(c, s, live, false);
            && (r.Ok? <==> forall i :: !Ends(c, buffered, live, slot, i))
            && (r.Ok? ==> Survived(c, buffered + live, slot, r.value) && NothingDue(r.value))
  {
    if live == [] {
      assert buffered + live == buffered;
      NoneFatal(c, buffered, slot, s);
    } else {
      var n := |live| - 1;
      var before, e := buffered + live[..n], live[n];
      assert before + [e] == buffered + live;
      FollowingFate(c, slot, s, buffered, live[..n]);
      forall i
        ensures Ends(c, buffered, live[..n], slot, i) ==> Ends(c, buffered, live, slot, i)
      {
        FatalLater(c, before, e, slot, i);
      }
      if RunSession(c, s, live[..n], false).Ok? {
        assert live[..n] + [e] == live;
        FollowStep(c, slot, RunSession(c, s, live[..n], false).value, buffered, live[..n], e);
      }
    }
  }

  // A surviving session with nothing due has had no fatal update.
  lemma NoneFatal(c: Codec, es: seq<WireEvent>, slot: Slot, s: SessionState)
    requires Survived(c, es, slot, s) && NothingDue(s)
    ensures forall i :: !IsFatal(c, es, slot, i)
  {
  }

  lemma FollowStep(
    c: Codec, slot: Slot, s: SessionState, buffered: seq<WireEvent>, live: seq<WireEvent>, e: WireEvent)
    requires Survived(c, buffered + live, slot, s) && NothingDue(s)
    requires forall i :: !Ends(c, buffered, live, slot, i)
    ensures var r := StepSession(c, s, e, false);
            && (r.Ok? <==> forall i :: !Ends(c, buffered, live + [e], slot, i))
            && (r.Ok? ==> Survived(c, buffered + (live + [e]), slot, r.value) && NothingDue(r.value))
  {
    var before, all := buffered + live, buffered + (live + [e]);
    assert before + [e] == all && all[..|before|] == before && all[|before|] == e;
    var r := StepSession(c, s, e, false);
    match e {
      case Update(u) => QueueSurvives(c, before, slot, s, u, false);
      case ConfirmedSlot(t) => ConfirmSurvives(c, before, slot, s, t);
    }
    if r.Ok? {
      NoneFatal(c, all, slot, r.value);
      forall i
        ensures !Ends(c, buffered, live + [e], slot, i)
      {
        assert !Ends(c, buffered, live, slot, i);
        FatalLater(c, before, e, slot, i);
        assert !IsLate(all, slot, |before|);
      }
    } else if e.Update? {
      assert IsLate(all, slot, |before|);
      assert Ends(c, buffered, live + [e], slot, |before|);
    } else {
      var i :| Counts(before, slot, i) && IsBad(c, before[i].update) && before[i].update.slot <= e.slot;
      assert IsFatal(c, all, slot, i);
      assert Ends(c, buffered, live + [e], slot, i);
    }
  }

  // On any stream: the session has failed exactly if a fatal update has come, buffered or live, or a live
  // one was late.
  lemma SessionSurvivesIff(
    c: Codec, slot: Slot, tables: Tables, buffered: seq<WireEvent>, live: seq<WireEvent>)
    ensures var s := Established(c, slot, tables, buffered);
            (s.Ok? && RunSession(c, s.value, live, false).Ok?) <==> forall i :: !Ends(c, buffered, live, slot, i)
  {
    EstablishedIff(c, slot, tables, buffered);
    var s := Established(c, slot, tables, buffered);
    if s.Ok? {
      FollowingFate(c, slot, s.value, buffered, live);
    } else {
      var i :| IsFatal(c, buffered, slot, i);
      GreatestGrows(slot, buffered, live);
      assert IsFatal(c, buffered + live, slot, i);
      assert Ends(c, buffered, live, slot, i);
    }
  }
}
