// Sequences of account writes in arrival order: the last write of a key, cutting a sequence at a
// slot, and the map a sequence leaves behind.
module Writes {
  import opened Types

  // One account write. No account means that the key is closed or no longer a valid table.
  datatype Write = Write(key: Key, slot: Slot, version: U64, account: Option<Account>)

  // The order of two writes of one key: by slot, then by write version.
  predicate Before(a: Write, b: Write) {
    a.slot < b.slot || (a.slot == b.slot && a.version < b.version)
  }

  // The writes of each key are in strictly increasing order.
  ghost predicate Ordered(ws: seq<Write>) {
    forall i, j :: 0 <= i < j < |ws| && ws[i].key == ws[j].key ==> Before(ws[i], ws[j])
  }

  function Last(ws: seq<Write>, k: Key): Option<Write> {
    if ws == [] then None
    else
      var w := ws[|ws| - 1];
      if w.key == k then Some(w) else Last(ws[..|ws| - 1], k)
  }

  // w is the greatest write of key k in ws.
  ghost predicate IsGreatest(w: Write, ws: seq<Write>, k: Key) {
    && w in ws
    && w.key == k
    && forall v :: v in ws && v.key == k ==> v == w || Before(v, w)
  }

  function Through(ws: seq<Write>, t: Slot): seq<Write> {
    if ws == [] then []
    else
      var rest := Through(ws[..|ws| - 1], t);
      if ws[|ws| - 1].slot <= t then rest + [ws[|ws| - 1]] else rest
  }

  function Beyond(ws: seq<Write>, t: Slot): seq<Write> {
    if ws == [] then []
    else
      var rest := Beyond(ws[..|ws| - 1], t);
      if t < ws[|ws| - 1].slot then rest + [ws[|ws| - 1]] else rest
  }

  // The writes at or above slot lo.
  function From(ws: seq<Write>, lo: Slot): seq<Write> {
    if ws == [] then []
    else
      var rest := From(ws[..|ws| - 1], lo);
      if lo <= ws[|ws| - 1].slot then rest + [ws[|ws| - 1]] else rest
  }

  function ApplyWrites(base: Accounts, ws: seq<Write>): Accounts {
    if ws == [] then base
    else
      var w := ws[|ws| - 1];
      Assign(ApplyWrites(base, ws[..|ws| - 1]), w.key, w.account)
  }

  // The value of k when the writes ws are laid over base.
  function Overlay(base: Accounts, ws: seq<Write>, k: Key): Option<Account> {
    match Last(ws, k)
    case Some(w) => w.account
    case None => Lookup(base, k)
  }

  lemma {:induction false} ApplyWritesLookup(base: Accounts, ws: seq<Write>, k: Key)
    ensures Lookup(ApplyWrites(base, ws), k) == Overlay(base, ws, k)
  {
    if ws == [] {
    } else {
      ApplyWritesLookup(base, ws[..|ws| - 1], k);
    }
  }

  lemma {:induction false} LastProperties(ws: seq<Write>, k: Key)
    ensures match Last(ws, k)
            case None => forall w :: w in ws ==> w.key != k
            case Some(w) => w in ws && w.key == k
    ensures Ordered(ws) && Last(ws, k).Some? ==> IsGreatest(Last(ws, k).value, ws, k)
  {
    if ws == [] {
    } else {
      var init, w := ws[..|ws| - 1], ws[|ws| - 1];
      assert ws == init + [w];
      LastProperties(init, k);
      assert Ordered(ws) ==> Ordered(init);
    }
  }

  // In an ordered sequence the last write of a key is its greatest.
  lemma LastIsGreatest(ws: seq<Write>, k: Key, w: Write)
    requires Ordered(ws) && IsGreatest(w, ws, k)
    ensures Last(ws, k) == Some(w)
  {
    LastProperties(ws, k);
  }

  lemma {:induction false} ThroughMembers(ws: seq<Write>, t: Slot)
    ensures forall w :: w in Through(ws, t) <==> w in ws && w.slot <= t
    ensures Ordered(ws) ==> Ordered(Through(ws, t))
  {
    if ws == [] {
    } else {
      var init, w := ws[..|ws| - 1], ws[|ws| - 1];
      assert ws == init + [w];
      ThroughMembers(init, t);
      if Ordered(ws) {
        assert forall v :: v in init && v.key == w.key ==> Before(v, w);
      }
    }
  }

  lemma {:induction false} BeyondMembers(ws: seq<Write>, t: Slot)
    ensures forall w :: w in Beyond(ws, t) <==> w in ws && t < w.slot
    ensures Ordered(ws) ==> Ordered(Beyond(ws, t))
  {
    if ws == [] {
    } else {
      var init, w := ws[..|ws| - 1], ws[|ws| - 1];
      assert ws == init + [w];
      BeyondMembers(init, t);
      if Ordered(ws) {
        assert forall v :: v in init && v.key == w.key ==> Before(v, w);
      }
    }
  }

  lemma {:induction false} FromMembers(ws: seq<Write>, t: Slot)
    ensures forall w :: w in From(ws, t) <==> w in ws && t <= w.slot
    ensures Ordered(ws) ==> Ordered(From(ws, t))
  {
    if ws == [] {
    } else {
      var init, w := ws[..|ws| - 1], ws[|ws| - 1];
      assert ws == init + [w];
      FromMembers(init, t);
      if Ordered(ws) {
        assert forall v :: v in init && v.key == w.key ==> Before(v, w);
      }
    }
  }

  lemma CutMembers(ws: seq<Write>, t: Slot)
    ensures forall w :: w in Through(ws, t) <==> w in ws && w.slot <= t
    ensures forall w :: w in Beyond(ws, t) <==> w in ws && t < w.slot
    ensures forall w :: w in From(ws, t) <==> w in ws && t <= w.slot
    ensures Ordered(ws) ==> Ordered(Through(ws, t)) && Ordered(Beyond(ws, t)) && Ordered(From(ws, t))
  {
    ThroughMembers(ws, t);
    BeyondMembers(ws, t);
    FromMembers(ws, t);
  }

  lemma {:induction false} CutConcat(a: seq<Write>, b: seq<Write>, t: Slot)
    ensures Through(a + b, t) == Through(a, t) + Through(b, t)
    ensures Beyond(a + b, t) == Beyond(a, t) + Beyond(b, t)
    ensures From(a + b, t) == From(a, t) + From(b, t)
  {
    if b == [] {
      assert a + b == a;
    } else {
      var init := b[..|b| - 1];
      assert (a + b)[..|a + b| - 1] == a + init;
      CutConcat(a, init, t);
    }
  }

  lemma {:induction false} BeyondTwice(ws: seq<Write>, t: Slot, u: Slot)
    requires t <= u
    ensures Beyond(Beyond(ws, t), u) == Beyond(ws, u)
  {
    if ws == [] {
    } else {
      var b := Beyond(ws[..|ws| - 1], t);
      BeyondTwice(ws[..|ws| - 1], t, u);
      assert (b + [ws[|ws| - 1]])[..|b|] == b;
    }
  }

  lemma {:induction false} BeyondFrom(ws: seq<Write>, t: Slot, u: Slot)
    requires t <= u
    ensures Beyond(From(ws, t), u) == Beyond(ws, u)
  {
    if ws == [] {
    } else {
      var f := From(ws[..|ws| - 1], t);
      BeyondFrom(ws[..|ws| - 1], t, u);
      assert (f + [ws[|ws| - 1]])[..|f|] == f;
    }
  }

  lemma {:induction false} CutAbove(ws: seq<Write>, t: Slot)
    requires forall i :: 0 <= i < |ws| ==> t < ws[i].slot
    ensures Through(ws, t) == [] && Beyond(ws, t) == ws
  {
    if ws == [] {
    } else {
      CutAbove(ws[..|ws| - 1], t);
    }
  }

  lemma {:induction false} CutBelow(ws: seq<Write>, t: Slot)
    requires forall i :: 0 <= i < |ws| ==> ws[i].slot <= t
    ensures Through(ws, t) == ws && Beyond(ws, t) == []
  {
    if ws == [] {
    } else {
      CutBelow(ws[..|ws| - 1], t);
    }
  }

  lemma {:induction false} FromAll(ws: seq<Write>, t: Slot)
    requires forall i :: 0 <= i < |ws| ==> t <= ws[i].slot
    ensures From(ws, t) == ws
  {
    if ws == [] {
    } else {
      FromAll(ws[..|ws| - 1], t);
    }
  }

  // A cut below or above everything keeps all or nothing.
  lemma CutNone(ws: seq<Write>, t: Slot)
    ensures (forall w :: w in ws ==> t < w.slot) ==> Through(ws, t) == [] && Beyond(ws, t) == ws
    ensures (forall w :: w in ws ==> w.slot <= t) ==> Through(ws, t) == ws && Beyond(ws, t) == []
    ensures (forall w :: w in ws ==> t <= w.slot) ==> From(ws, t) == ws
  {
    if forall w :: w in ws ==> t < w.slot {
      CutAbove(ws, t);
    }
    if forall w :: w in ws ==> w.slot <= t {
      CutBelow(ws, t);
    }
    if forall w :: w in ws ==> t <= w.slot {
      FromAll(ws, t);
    }
  }
}
