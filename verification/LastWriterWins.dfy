// What every run of the updater computes, stated over the raw log of events it consumed.
module LastWriterWins {
  import opened Types
  import opened Writes
  import opened Staging
  import opened ClosedForm

  // Event i is a write at or above the bootstrap slot that is newer than every earlier such write
  // of its key.
  ghost predicate AcceptedAt(boot: Slot, es: seq<Event>, i: int) {
    && 0 <= i < |es|
    && es[i].Put?
    && boot <= es[i].w.slot
    && forall j :: 0 <= j < i && es[j].Put? && es[j].w.key == es[i].w.key && boot <= es[j].w.slot
                   ==> Before(es[j].w, es[i].w)
  }

  // Event i is the newest accepted write of k among those at or below slot t.
  ghost predicate WinsAt(boot: Slot, es: seq<Event>, k: Key, t: Slot, i: int) {
    && AcceptedAt(boot, es, i)
    && es[i].w.key == k
    && es[i].w.slot <= t
    && forall j :: AcceptedAt(boot, es, j) && es[j].w.key == k && es[j].w.slot <= t
                   ==> j == i || Before(es[j].w, es[i].w)
  }

  // value is that of the newest accepted write of k at or below slot t, or the fetched one if
  // there is no such write.
  ghost predicate HoldsNewest(base: Accounts, boot: Slot, es: seq<Event>, t: Slot, k: Key, value: Option<Account>) {
    || (exists i :: WinsAt(boot, es, k, t, i) && value == es[i].w.account)
    || ((forall i :: AcceptedAt(boot, es, i) && es[i].w.key == k ==> t < es[i].w.slot) && value == Lookup(base, k))
  }

  // The watermark of a key is never below any write received for it.
  lemma {:induction false} WatermarkCovers(boot: Slot, es: seq<Event>, w: Write)
    requires Put(w) in es && boot <= w.slot
    ensures var last := Last(Accepted(boot, es), w.key);
            last.Some? && !Before(last.value, w)
  {
    var init, e := es[..|es| - 1], es[|es| - 1];
    assert es == init + [e];
    var prev := Accepted(boot, init);
    if Put(w) in init {
      WatermarkCovers(boot, init, w);
    }
    if e.Put? {
      MarksLookup(prev, e.w.key);
      assert (prev + [e.w])[..|prev|] == prev;
    }
  }

  lemma {:induction false} AcceptedIff(boot: Slot, es: seq<Event>, w: Write)
    ensures w in Accepted(boot, es) <==> exists i :: AcceptedAt(boot, es, i) && es[i].w == w
  {
    if es == [] {
    } else {
      var n := |es| - 1;
      var init, e := es[..n], es[n];
      assert es == init + [e];
      AcceptedIff(boot, init, w);
      forall i | i < n
        ensures AcceptedAt(boot, es, i) <==> AcceptedAt(boot, init, i)
      {
      }
      if e.Put? {
        NewestAccepted(boot, init, e.w);
        assert AcceptedAt(boot, es, n) <==> Accepts(boot, Marks(Accepted(boot, init)), e.w);
      }
      if exists i :: AcceptedAt(boot, init, i) && init[i].w == w {
        var i :| AcceptedAt(boot, init, i) && init[i].w == w;
        assert AcceptedAt(boot, es, i) && es[i].w == w;
      }
    }
  }

  // The watermark test is the test against every earlier write.
  lemma NewestAccepted(boot: Slot, es: seq<Event>, w: Write)
    ensures Accepts(boot, Marks(Accepted(boot, es)), w) <==> AcceptedAt(boot, es + [Put(w)], |es|)
  {
    var prev, all := Accepted(boot, es), es + [Put(w)];
    MarksLookup(prev, w.key);
    LastProperties(prev, w.key);
    AcceptedOrdered(boot, es);
    if Accepts(boot, Marks(prev), w) {
      forall j | 0 <= j < |es| && es[j].Put? && es[j].w.key == w.key && boot <= es[j].w.slot
        ensures Before(es[j].w, w)
      {
        assert Put(es[j].w) in es;
        WatermarkCovers(boot, es, es[j].w);
      }
      assert forall j :: 0 <= j < |es| ==> all[j] == es[j];
    } else if boot <= w.slot {
      var last := Last(prev, w.key).value;
      assert Put(last) in es;
      var j :| 0 <= j < |es| && es[j] == Put(last);
      assert all[j] == Put(last);
    }
  }

  // After a confirm that raises the confirmed slot, and after recovery ends, each key holds its
  // newest accepted write at or below the confirmed slot, or its fetched value if it has none.
  lemma NewestWriteWins(base: Accounts, boot: Slot, es: seq<Event>, e: Event, k: Key)
    requires Drains(e, MaxConfirmed(boot, es))
    ensures var s := Run(FromFetched(boot, base), es + [e]);
            HoldsNewest(base, boot, es, s.confirmed, k, Lookup(s.accounts, k))
  {
    RunIsClosed(base, boot, es + [e]);
    SettledByDrain(boot, es, e);
    AcceptedOrdered(boot, es);
    var s := Run(FromFetched(boot, base), es + [e]);
    var ws, t := Accepted(boot, es), s.confirmed;
    assert s.accounts == ApplyWrites(base, Through(ws, t));
    ApplyWritesLookup(base, Through(ws, t), k);
    ThroughMembers(ws, t);
    LastProperties(Through(ws, t), k);
    match Last(Through(ws, t), k)
    case Some(w) =>
      AcceptedIff(boot, es, w);
      var i :| AcceptedAt(boot, es, i) && es[i].w == w;
      forall j | AcceptedAt(boot, es, j) && es[j].w.key == k && es[j].w.slot <= t
        ensures j == i || Before(es[j].w, es[i].w)
      {
        AcceptedIff(boot, es, es[j].w);
      }
      assert WinsAt(boot, es, k, t, i);
    case None =>
      forall i | AcceptedAt(boot, es, i) && es[i].w.key == k
        ensures t < es[i].w.slot
      {
        AcceptedIff(boot, es, es[i].w);
      }
  }

  // At every moment the map is the fetched one with some accepted writes applied, the pending table
  // holds the rest, and for each key the pending writes are newer than everything applied to it,
  // strictly increase in drain order, and end at its watermark.
  lemma PendingAboveApplied(base: Accounts, boot: Slot, es: seq<Event>)
    ensures Settled(boot, es) <= Accepted(boot, es)
    ensures var s := Run(FromFetched(boot, base), es);
            var applied, waiting := Through(Settled(boot, es), s.confirmed), Waiting(boot, es);
            && s.accounts == ApplyWrites(base, applied)
            && s.pending == Bucket(waiting)
            && Ordered(applied + waiting)
            && s.versions == Marks(applied + waiting)
  {
    RunIsClosed(base, boot, es);
    AcceptedOrdered(boot, es);
    var settled, all, t := Settled(boot, es), Accepted(boot, es), MaxConfirmed(boot, es);
    var late := all[|settled|..];
    assert all == settled + late;
    AppliedThenWaiting(settled, late, t);
    SameMarks(Through(settled, t) + Waiting(boot, es), all);
  }

  lemma AppliedThenWaiting(settled: seq<Write>, late: seq<Write>, t: Slot)
    requires Ordered(settled + late)
    ensures var ws := Through(settled, t) + (Beyond(settled, t) + late);
            Ordered(ws) && forall w :: w in ws <==> w in settled + late
  {
    WaitingOrdered(settled, late, t);
    CutMembers(settled, t);
    forall v, w | v in Through(settled, t) && w in late && v.key == w.key
      ensures Before(v, w)
    {
      ConcatBefore(settled, late, v, w);
    }
  }

  // Ordered sequences of the same writes leave the same watermarks.
  lemma SameMarks(a: seq<Write>, b: seq<Write>)
    requires Ordered(a) && Ordered(b)
    requires forall w :: w in a <==> w in b
    ensures Marks(a) == Marks(b)
  {
    forall k
      ensures Lookup(Marks(a), k) == Lookup(Marks(b), k)
    {
      MarksLookup(a, k);
      MarksLookup(b, k);
      LastProperties(a, k);
      LastProperties(b, k);
      if Last(b, k).Some? {
        LastIsGreatest(a, k, Last(b, k).value);
      }
    }
    SameLookups(Marks(a), Marks(b));
  }

  // ----- Delivery order and duplication do not matter -----

  // The payload of a write is determined by its key, slot and version.
  ghost predicate Deterministic(es: seq<Event>) {
    forall v, w :: Put(v) in es && Put(w) in es && v.key == w.key && v.slot == w.slot && v.version == w.version
                   ==> v == w
  }

  // The last accepted write of a key is the greatest received one.
  lemma LastAcceptedIsGreatestReceived(boot: Slot, es: seq<Event>, k: Key)
    requires Deterministic(es)
    ensures match Last(Accepted(boot, es), k)
            case None => forall w :: Put(w) in es && w.key == k ==> w.slot < boot
            case Some(g) =>
              && Put(g) in es && g.key == k && boot <= g.slot
              && forall w :: Put(w) in es && w.key == k && boot <= w.slot ==> w == g || Before(w, g)
  {
    AcceptedOrdered(boot, es);
    LastProperties(Accepted(boot, es), k);
    forall w | Put(w) in es && w.key == k && boot <= w.slot
      ensures var last := Last(Accepted(boot, es), k);
              last.Some? && (w == last.value || Before(w, last.value))
    {
      WatermarkCovers(boot, es, w);
    }
  }

  // Two deliveries of the same writes, in any orders, with any duplication and any confirms in
  // between, leave the same map, watermarks and (empty) pending set once a slot at or above all of
  // them is confirmed.
  lemma DeliveryOrderIndependence(base: Accounts, boot: Slot, a: seq<Event>, b: seq<Event>, t: Slot)
    requires Deterministic(a)
    requires forall w :: Put(w) in a <==> Put(w) in b
    requires forall w :: Put(w) in a ==> w.slot <= t
    requires MaxConfirmed(boot, a) < t && MaxConfirmed(boot, b) < t
    ensures var start := FromFetched(boot, base);
            var sa, sb := Run(start, a + [Confirmed(t)]), Run(start, b + [Confirmed(t)]);
            && sa.accounts == sb.accounts
            && sa.versions == sb.versions
            && sa.pending == sb.pending == map[]
  {
    EverythingConfirmed(base, boot, a, t);
    EverythingConfirmed(base, boot, b, t);
    var wa, wb := Accepted(boot, a), Accepted(boot, b);
    forall k
      ensures Last(wa, k) == Last(wb, k)
    {
      LastAcceptedIsGreatestReceived(boot, a, k);
      LastAcceptedIsGreatestReceived(boot, b, k);
    }
    forall k
      ensures Lookup(ApplyWrites(base, wa), k) == Lookup(ApplyWrites(base, wb), k)
      ensures Lookup(Marks(wa), k) == Lookup(Marks(wb), k)
    {
      ApplyWritesLookup(base, wa, k);
      ApplyWritesLookup(base, wb, k);
      MarksLookup(wa, k);
      MarksLookup(wb, k);
    }
    SameLookups(ApplyWrites(base, wa), ApplyWrites(base, wb));
    SameLookups(Marks(wa), Marks(wb));
  }

  lemma EverythingConfirmed(base: Accounts, boot: Slot, es: seq<Event>, t: Slot)
    requires forall w :: Put(w) in es ==> w.slot <= t
    requires MaxConfirmed(boot, es) < t
    ensures var s := Run(FromFetched(boot, base), es + [Confirmed(t)]);
            && s.accounts == ApplyWrites(base, Accepted(boot, es))
            && s.versions == Marks(Accepted(boot, es))
            && s.pending == map[]
  {
    var e := Confirmed(t);
    RunIsClosed(base, boot, es + [e]);
    SettledByDrain(boot, es, e);
    AcceptedOrdered(boot, es);
    CutNone(Accepted(boot, es), t);
    assert (es + [e])[..|es|] == es;
  }

  // ----- Confirms coalesce -----

  function Keep(es: seq<Event>, mask: seq<bool>): seq<Event>
    requires |mask| == |es|
  {
    if es == [] then []
    else
      var rest := Keep(es[..|es| - 1], mask[..|es| - 1]);
      if mask[|es| - 1] then rest + [es[|es| - 1]] else rest
  }

  // The mask drops confirms only, and keeps the first one that reaches the greatest slot.
  ghost predicate DropsOldConfirms(boot: Slot, es: seq<Event>, mask: seq<bool>) {
    && |mask| == |es|
    && (forall i :: 0 <= i < |es| && !mask[i] ==> es[i].Confirmed?)
    && var t := MaxConfirmed(boot, es);
       t == boot || exists d :: FirstConfirm(es, t, d) && mask[d]
  }

  ghost predicate FirstConfirm(es: seq<Event>, t: Slot, d: int) {
    0 <= d < |es| && es[d] == Confirmed(t) && forall j :: 0 <= j < d ==> es[j] != Confirmed(t)
  }

  lemma {:induction false} KeepAccepts(boot: Slot, es: seq<Event>, mask: seq<bool>)
    requires |mask| == |es|
    requires forall i :: 0 <= i < |es| && !mask[i] ==> es[i].Confirmed?
    ensures Accepted(boot, Keep(es, mask)) == Accepted(boot, es)
    ensures MaxConfirmed(boot, Keep(es, mask)) <= MaxConfirmed(boot, es)
    ensures FinishRecovery in Keep(es, mask) <==> FinishRecovery in es
  {
    if es == [] {
    } else {
      var init, e, n := es[..|es| - 1], es[|es| - 1], |es| - 1;
      assert es == init + [e];
      KeepAccepts(boot, init, mask[..n]);
      var rest := Keep(init, mask[..n]);
      assert (rest + [e])[..|rest|] == rest;
    }
  }

  lemma {:induction false} KeepSettles(boot: Slot, es: seq<Event>, mask: seq<bool>)
    requires DropsOldConfirms(boot, es, mask)
    ensures Settled(boot, Keep(es, mask)) == Settled(boot, es)
    ensures MaxConfirmed(boot, Keep(es, mask)) == MaxConfirmed(boot, es)
  {
    if es == [] {
    } else {
      var init, e, n, t := es[..|es| - 1], es[|es| - 1], |es| - 1, MaxConfirmed(boot, es);
      assert es == init + [e];
      var rest := Keep(init, mask[..n]);
      assert (rest + [e])[..|rest|] == rest;
      KeepAccepts(boot, init, mask[..n]);
      ConfirmedMonotone(FromFetched(boot, map[]), init);
      if MaxConfirmed(boot, init) == t {
        InitDropsOldConfirms(boot, es, mask);
        KeepSettles(boot, init, mask[..n]);
      } else {
        LastIsKept(boot, es, mask);
      }
    }
  }

  lemma InitDropsOldConfirms(boot: Slot, es: seq<Event>, mask: seq<bool>)
    requires es != [] && DropsOldConfirms(boot, es, mask)
    requires MaxConfirmed(boot, es[..|es| - 1]) == MaxConfirmed(boot, es)
    ensures DropsOldConfirms(boot, es[..|es| - 1], mask[..|es| - 1])
  {
    var n, t := |es| - 1, MaxConfirmed(boot, es);
    if t != boot {
      var d :| FirstConfirm(es, t, d) && mask[d];
      ReachedBy(boot, es[..n], t);
      assert d < n;
      assert FirstConfirm(es[..n], t, d) && mask[..n][d];
    }
  }

  lemma LastIsKept(boot: Slot, es: seq<Event>, mask: seq<bool>)
    requires es != [] && DropsOldConfirms(boot, es, mask)
    requires boot <= MaxConfirmed(boot, es[..|es| - 1]) != MaxConfirmed(boot, es)
    ensures mask[|es| - 1] && es[|es| - 1] == Confirmed(MaxConfirmed(boot, es))
  {
    var n, t := |es| - 1, MaxConfirmed(boot, es);
    var d :| FirstConfirm(es, t, d) && mask[d];
    if d < n {
      NotAbove(boot, es[..n], d);
    }
  }

  lemma {:induction false} ReachedBy(boot: Slot, es: seq<Event>, t: Slot)
    requires MaxConfirmed(boot, es) == t != boot
    ensures Confirmed(t) in es
  {
    if es == [] {
    } else {
      assert es == es[..|es| - 1] + [es[|es| - 1]];
      if MaxConfirmed(boot, es[..|es| - 1]) == t {
        ReachedBy(boot, es[..|es| - 1], t);
      }
    }
  }

  lemma {:induction false} NotAbove(boot: Slot, es: seq<Event>, d: nat)
    requires d < |es| && es[d].Confirmed?
    ensures es[d].slot <= MaxConfirmed(boot, es)
  {
    if d == |es| - 1 {
    } else {
      NotAbove(boot, es[..|es| - 1], d);
    }
  }

  // Dropping any confirms but the first of the greatest slot changes nothing in the final state.
  lemma ConfirmsCoalesce(base: Accounts, boot: Slot, es: seq<Event>, mask: seq<bool>)
    requires DropsOldConfirms(boot, es, mask)
    ensures Run(FromFetched(boot, base), Keep(es, mask)) == Run(FromFetched(boot, base), es)
  {
    RunIsClosed(base, boot, es);
    RunIsClosed(base, boot, Keep(es, mask));
    KeepAccepts(boot, es, mask);
    KeepSettles(boot, es, mask);
  }
}
