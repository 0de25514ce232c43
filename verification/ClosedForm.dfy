// A closed form of every run of the updater, and the last-writer-wins characterisation read off it.
module ClosedForm {
  import opened Types
  import opened Writes
  import opened Staging

  // ----- The writes a run accepts, as a function of its events alone -----

  function Marks(ws: seq<Write>): map<Key, Mark> {
    if ws == [] then map[]
    else Marks(ws[..|ws| - 1])[ws[|ws| - 1].key := Mark(ws[|ws| - 1].slot, ws[|ws| - 1].version)]
  }

  function Accepted(boot: Slot, es: seq<Event>): seq<Write> {
    if es == [] then []
    else
      var prev := Accepted(boot, es[..|es| - 1]);
      match es[|es| - 1]
      case Put(w) => if Accepts(boot, Marks(prev), w) then prev + [w] else prev
      case _ => prev
  }

  // Does e, arriving when t is confirmed, drain the pending writes?
  predicate Drains(e: Event, t: Slot) {
    e.FinishRecovery? || (e.Confirmed? && t < e.slot)
  }

  // The writes accepted before the last drain.
  function Settled(boot: Slot, es: seq<Event>): seq<Write> {
    if es == [] then []
    else
      var init := es[..|es| - 1];
      if Drains(es[|es| - 1], MaxConfirmed(boot, init)) then Accepted(boot, init) else Settled(boot, init)
  }

  // The pending mutations, by slot, of writes in arrival order.
  function Bucket(ws: seq<Write>): Pending {
    if ws == [] then map[] else Stage(Bucket(ws[..|ws| - 1]), ws[|ws| - 1])
  }

  // The accepted writes still pending, in arrival order.
  function Waiting(boot: Slot, es: seq<Event>): seq<Write>
    requires Settled(boot, es) <= Accepted(boot, es)
  {
    Beyond(Settled(boot, es), MaxConfirmed(boot, es)) + Accepted(boot, es)[|Settled(boot, es)|..]
  }

  lemma {:induction false} SettledIsPrefix(boot: Slot, es: seq<Event>)
    ensures Settled(boot, es) <= Accepted(boot, es)
  {
    if es == [] {
    } else {
      SettledIsPrefix(boot, es[..|es| - 1]);
    }
  }

  lemma {:induction false} MarksLookup(ws: seq<Write>, k: Key)
    ensures Lookup(Marks(ws), k) ==
            match Last(ws, k) case Some(w) => Some(Mark(w.slot, w.version)) case None => None
  {
    if ws == [] {
    } else {
      MarksLookup(ws[..|ws| - 1], k);
    }
  }

  lemma {:induction false} AcceptedMembers(boot: Slot, es: seq<Event>)
    ensures forall w :: w in Accepted(boot, es) ==> boot <= w.slot && Put(w) in es
  {
    if es == [] {
    } else {
      assert es == es[..|es| - 1] + [es[|es| - 1]];
      AcceptedMembers(boot, es[..|es| - 1]);
    }
  }

  lemma {:induction false} AcceptedOrdered(boot: Slot, es: seq<Event>)
    ensures Ordered(Accepted(boot, es))
    ensures forall w :: w in Accepted(boot, es) ==> boot <= w.slot && Put(w) in es
  {
    AcceptedMembers(boot, es);
    if es == [] {
    } else {
      var init, e := es[..|es| - 1], es[|es| - 1];
      AcceptedOrdered(boot, init);
      var prev := Accepted(boot, init);
      if e.Put? && Accepts(boot, Marks(prev), e.w) {
        MarksLookup(prev, e.w.key);
        LastProperties(prev, e.w.key);
        OrderedSnoc(prev, e.w);
      }
    }
  }

  lemma OrderedSnoc(ws: seq<Write>, w: Write)
    requires Ordered(ws)
    requires forall v :: v in ws && v.key == w.key ==> Before(v, w)
    ensures Ordered(ws + [w])
  {
  }

  // ----- Bucketing -----

  lemma {:induction false} BucketBeyond(ws: seq<Write>, t: Slot)
    ensures After(Bucket(ws), t) == Bucket(Beyond(ws, t))
  {
    if ws == [] {
    } else {
      var init, w := ws[..|ws| - 1], ws[|ws| - 1];
      BucketBeyond(init, t);
      assert (Beyond(init, t) + [w])[..|Beyond(init, t)|] == Beyond(init, t);
    }
  }

  function AtSlot(ws: seq<Write>, s: nat): seq<Write> {
    if ws == [] then []
    else
      var rest := AtSlot(ws[..|ws| - 1], s);
      if ws[|ws| - 1].slot == s then rest + [ws[|ws| - 1]] else rest
  }

  lemma {:induction false} AtSlotMembers(ws: seq<Write>, s: nat)
    ensures forall w :: w in AtSlot(ws, s) <==> w in ws && w.slot == s
    ensures Ordered(ws) ==> Ordered(AtSlot(ws, s))
  {
    if ws == [] {
    } else {
      var init, w := ws[..|ws| - 1], ws[|ws| - 1];
      assert ws == init + [w];
      AtSlotMembers(init, s);
      if Ordered(ws) {
        assert Ordered(init);
        assert forall v :: v in init && v.key == w.key ==> Before(v, w);
      }
    }
  }

  function Mutations(ws: seq<Write>): seq<Mutation> {
    if ws == [] then [] else Mutations(ws[..|ws| - 1]) + [Mutation(ws[|ws| - 1].key, ws[|ws| - 1].account)]
  }

  lemma {:induction false} MutationsApply(base: Accounts, ws: seq<Write>)
    ensures ApplyMutations(base, Mutations(ws)) == ApplyWrites(base, ws)
  {
    if ws == [] {
    } else {
      var init := ws[..|ws| - 1];
      MutationsApply(base, init);
      assert Mutations(ws)[..|Mutations(ws)| - 1] == Mutations(init);
    }
  }

  lemma {:induction false} BucketSlot(ws: seq<Write>, s: Slot)
    ensures s in Bucket(ws) <==> AtSlot(ws, s) != []
    ensures s in Bucket(ws) ==> Bucket(ws)[s] == Mutations(AtSlot(ws, s))
  {
    if ws == [] {
    } else {
      var init, w := ws[..|ws| - 1], ws[|ws| - 1];
      BucketSlot(init, s);
      if w.slot == s {
        assert AtSlot(ws, s)[..|AtSlot(ws, s)| - 1] == AtSlot(init, s);
      }
    }
  }

  // Draining buckets slot by slot overlays the writes as if applied in arrival order, because
  // each key's writes are in slot order.
  lemma {:induction false} DrainLookup(base: Accounts, ws: seq<Write>, t: Slot, k: Key)
    requires Ordered(ws)
    ensures Lookup(DrainThrough(base, Bucket(ws), t), k) == Overlay(base, Through(ws, t), k)
    decreases t
  {
    var here := AtSlot(ws, t);
    AtSlotMembers(ws, t);
    BucketSlot(ws, t);
    CutMembers(ws, t);
    var before := if t == 0 then base else DrainThrough(base, Bucket(ws), t - 1);
    MutationsApply(before, here);
    ApplyWritesLookup(before, here, k);
    LastProperties(here, k);
    LastProperties(Through(ws, t), k);
    assert Lookup(DrainThrough(base, Bucket(ws), t), k) == Overlay(before, here, k);
    if Last(here, k).Some? {
      LastIsGreatest(Through(ws, t), k, Last(here, k).value);
    } else if t > 0 {
      DrainLookup(base, ws, t - 1, k);
      CutMembers(ws, t - 1);
      LastProperties(Through(ws, t - 1), k);
      if Last(Through(ws, t), k).Some? {
        LastIsGreatest(Through(ws, t - 1), k, Last(Through(ws, t), k).value);
      }
    }
  }

  // ----- The closed form -----

  ghost function Closed(base: Accounts, boot: Slot, es: seq<Event>): State
    requires Settled(boot, es) <= Accepted(boot, es)
  {
    var t := MaxConfirmed(boot, es);
    State(boot, t,
          ApplyWrites(base, Through(Settled(boot, es), t)),
          Bucket(Waiting(boot, es)),
          Marks(Accepted(boot, es)),
          FinishRecovery !in es)
  }

  // Draining at t moves the map from "settled writes" to "all accepted writes".
  lemma DrainSettles(base: Accounts, settled: seq<Write>, late: seq<Write>, t: Slot, u: Slot)
    requires Ordered(settled + late) && t <= u
    ensures var waiting := Beyond(settled, t) + late;
            && DrainThrough(ApplyWrites(base, Through(settled, t)), Bucket(waiting), u)
               == ApplyWrites(base, Through(settled + late, u))
            && After(Bucket(waiting), u) == Bucket(Beyond(settled + late, u))
  {
    var all := settled + late;
    var waiting := Beyond(settled, t) + late;
    var applied := ApplyWrites(base, Through(settled, t));
    BucketBeyond(waiting, u);
    CutConcat(Beyond(settled, t), late, u);
    CutConcat(settled, late, u);
    BeyondTwice(settled, t, u);
    assert Ordered(settled) by {
      assert forall i :: 0 <= i < |settled| ==> settled[i] == all[i];
    }
    WaitingOrdered(settled, late, t);
    forall k
      ensures Lookup(DrainThrough(applied, Bucket(waiting), u), k) == Lookup(ApplyWrites(base, Through(all, u)), k)
    {
      DrainLookup(applied, waiting, u, k);
      ApplyWritesLookup(base, Through(settled, t), k);
      ApplyWritesLookup(base, Through(all, u), k);
      SplitOverlay(base, settled, late, t, u, k);
    }
    SameLookups(DrainThrough(applied, Bucket(waiting), u), ApplyWrites(base, Through(all, u)));
  }

  lemma WaitingOrdered(settled: seq<Write>, late: seq<Write>, t: Slot)
    requires Ordered(settled + late)
    ensures Ordered(settled) && Ordered(Beyond(settled, t) + late)
  {
    var all := settled + late;
    assert Ordered(settled) by {
      assert forall i :: 0 <= i < |settled| ==> settled[i] == all[i];
    }
    assert Ordered(late) by {
      assert forall i :: 0 <= i < |late| ==> late[i] == all[|settled| + i];
    }
    CutMembers(settled, t);
    forall v, w | v in settled && w in late && v.key == w.key
      ensures Before(v, w)
    {
      ConcatBefore(settled, late, v, w);
    }
  }

  lemma SplitOverlay(base: Accounts, settled: seq<Write>, late: seq<Write>, t: Slot, u: Slot, k: Key)
    requires Ordered(settled + late) && t <= u
    ensures Overlay(ApplyWrites(base, Through(settled, t)), Through(Beyond(settled, t) + late, u), k)
            == Overlay(base, Through(settled + late, u), k)
  {
    var applied, waiting, all := Through(settled, t), Through(Beyond(settled, t) + late, u), Through(settled + late, u);
    WaitingOrdered(settled, late, t);
    ApplyWritesLookup(base, applied, k);
    CutMembers(settled, t);
    ThroughMembers(settled + late, u);
    ThroughMembers(Beyond(settled, t) + late, u);
    forall v, w | v in applied && w in waiting && v.key == w.key
      ensures Before(v, w)
    {
      if w in late {
        ConcatBefore(settled, late, v, w);
      }
    }
    OverlayTwice(base, applied, waiting, all, k);
  }

  lemma ConcatBefore(a: seq<Write>, b: seq<Write>, v: Write, w: Write)
    requires Ordered(a + b) && v in a && w in b && v.key == w.key
    ensures Before(v, w)
  {
    var i :| 0 <= i < |a| && a[i] == v;
    var j :| 0 <= j < |b| && b[j] == w;
    assert (a + b)[i] == v && (a + b)[|a| + j] == w;
  }

  // Laying older writes and then newer ones over base is laying all of them.
  lemma OverlayTwice(base: Accounts, older: seq<Write>, newer: seq<Write>, all: seq<Write>, k: Key)
    requires Ordered(older) && Ordered(newer) && Ordered(all)
    requires forall w :: w in all <==> w in older || w in newer
    requires forall v, w :: v in older && w in newer && v.key == w.key ==> Before(v, w)
    ensures Overlay(ApplyWrites(base, older), newer, k) == Overlay(base, all, k)
  {
    ApplyWritesLookup(base, older, k);
    LastProperties(older, k);
    LastProperties(newer, k);
    LastProperties(all, k);
    match Last(newer, k)
    case Some(q) =>
      LastIsGreatest(all, k, q);
    case None =>
      if Last(all, k).Some? {
        LastIsGreatest(older, k, Last(all, k).value);
      }
  }

  lemma DrainStep(s: State, e: Event)
    requires Drains(e, s.confirmed)
    ensures var u := if e.Confirmed? then e.slot else s.confirmed;
            Step(s, e) == State(s.bootstrap, u, DrainThrough(s.accounts, s.pending, u), After(s.pending, u),
                                s.versions, s.recovering && !e.FinishRecovery?)
  {
  }

  lemma SettledByDrain(boot: Slot, es: seq<Event>, e: Event)
    requires Drains(e, MaxConfirmed(boot, es))
    ensures Settled(boot, es + [e]) == Accepted(boot, es + [e]) == Accepted(boot, es)
    ensures Waiting(boot, es + [e]) == Beyond(Accepted(boot, es), MaxConfirmed(boot, es + [e]))
  {
    assert (es + [e])[..|es|] == es;
    var accepted := Accepted(boot, es);
    assert accepted[|accepted|..] == [];
  }

  lemma ClosedDrain(base: Accounts, boot: Slot, es: seq<Event>, e: Event)
    requires Settled(boot, es) <= Accepted(boot, es)
    requires Drains(e, MaxConfirmed(boot, es))
    ensures Settled(boot, es + [e]) <= Accepted(boot, es + [e])
    ensures Step(Closed(base, boot, es), e) == Closed(base, boot, es + [e])
  {
    SettledByDrain(boot, es, e);
    AcceptedOrdered(boot, es);
    var settled, accepted, t := Settled(boot, es), Accepted(boot, es), MaxConfirmed(boot, es);
    var late := accepted[|settled|..];
    assert accepted == settled + late;
    var u := MaxConfirmed(boot, es + [e]);
    assert (es + [e])[..|es|] == es;
    DrainStep(Closed(base, boot, es), e);
    DrainSettles(base, settled, late, t, u);
  }

  // Does e stage a write in a state with these watermarks?
  predicate Stages(boot: Slot, versions: map<Key, Mark>, e: Event) {
    e.Put? && Accepts(boot, versions, e.w)
  }

  lemma IdleStep(s: State, e: Event)
    requires !Drains(e, s.confirmed) && !Stages(s.bootstrap, s.versions, e)
    ensures Step(s, e) == s
  {
  }

  lemma ClosedIdle(base: Accounts, boot: Slot, es: seq<Event>, e: Event)
    requires Settled(boot, es) <= Accepted(boot, es)
    requires !Drains(e, MaxConfirmed(boot, es)) && !Stages(boot, Marks(Accepted(boot, es)), e)
    ensures Settled(boot, es + [e]) == Settled(boot, es) <= Accepted(boot, es + [e])
    ensures Step(Closed(base, boot, es), e) == Closed(base, boot, es + [e])
  {
    assert (es + [e])[..|es|] == es;
    IdleStep(Closed(base, boot, es), e);
    assert Accepted(boot, es + [e]) == Accepted(boot, es);
    assert MaxConfirmed(boot, es + [e]) == MaxConfirmed(boot, es);
    assert Waiting(boot, es + [e]) == Waiting(boot, es);
  }

  lemma ClosedStage(base: Accounts, boot: Slot, es: seq<Event>, e: Event)
    requires Settled(boot, es) <= Accepted(boot, es)
    requires Stages(boot, Marks(Accepted(boot, es)), e)
    ensures Settled(boot, es + [e]) == Settled(boot, es) <= Accepted(boot, es + [e])
    ensures Step(Closed(base, boot, es), e) == Closed(base, boot, es + [e])
  {
    assert (es + [e])[..|es|] == es;
    var accepted, waiting := Accepted(boot, es), Waiting(boot, es);
    assert Accepted(boot, es + [e]) == accepted + [e.w];
    assert Waiting(boot, es + [e]) == waiting + [e.w];
    assert (waiting + [e.w])[..|waiting|] == waiting;
    assert (accepted + [e.w])[..|accepted|] == accepted;
    assert Bucket(waiting + [e.w]) == Stage(Bucket(waiting), e.w);
    assert Marks(accepted + [e.w]) == Marks(accepted)[e.w.key := Mark(e.w.slot, e.w.version)];
  }

  lemma {:induction false} RunIsClosed(base: Accounts, boot: Slot, es: seq<Event>)
    ensures Settled(boot, es) <= Accepted(boot, es)
    ensures Run(FromFetched(boot, base), es) == Closed(base, boot, es)
  {
    if es == [] {
    } else {
      var init, e := es[..|es| - 1], es[|es| - 1];
      assert es == init + [e];
      RunIsClosed(base, boot, init);
      if Drains(e, MaxConfirmed(boot, init)) {
        ClosedDrain(base, boot, init, e);
      } else if Stages(boot, Marks(Accepted(boot, init)), e) {
        ClosedStage(base, boot, init, e);
      } else {
        ClosedIdle(base, boot, init, e);
      }
    }
  }
}
