// Rotation over sources: the next connected one, and the order in which a list is tried.
module Rotation {
  import opened Types

  // The first connected source at offsets offset, offset + 1, ..., count after the active one.
  function Search(active: nat, connected: set<nat>, count: nat, offset: nat): Option<nat>
    decreases count + 1 - offset
  {
    if offset > count || count == 0 then None
    else if (active + offset) % count in connected then Some((active + offset) % count)
    else Search(active, connected, count, offset + 1)
  }

  function NextConnected(active: nat, connected: set<nat>, count: nat): Option<nat> {
    Search(active, connected, count, 1)
  }

  // Going k places round a cycle of n from a.
  function Wrap(a: nat, k: nat, n: nat): nat
    requires a < n && k <= n
  {
    if a + k < n then a + k else a + k - n
  }

  lemma {:induction false} Multiples(p: nat, q: nat, n: nat)
    requires p < q
    ensures p * n + n <= q * n
  {
    if p + 1 == q {
    } else {
      Multiples(p, q - 1, n);
    }
    assert q * n == (q - 1) * n + n;
  }

  lemma UniqueRemainder(x: nat, q: nat, r: nat, n: nat)
    requires n > 0 && r < n && x == q * n + r
    ensures x % n == r
  {
    var p := x / n;
    assert x == p * n + x % n;
    if p < q {
      Multiples(p, q, n);
    } else if q < p {
      Multiples(q, p, n);
    }
  }

  lemma ModIsWrap(a: nat, k: nat, n: nat)
    requires a < n && k <= n
    ensures (a + k) % n == Wrap(a, k, n)
  {
    if a + k < n {
      UniqueRemainder(a + k, 0, a + k, n);
    } else {
      UniqueRemainder(a + k, 1, a + k - n, n);
    }
  }

  // The number of places, from 1 to n, that lead from a to s.
  function Distance(a: nat, s: nat, n: nat): nat
    requires a < n && s < n
  {
    if a < s then s - a else s + n - a
  }

  lemma DistanceWraps(a: nat, s: nat, n: nat)
    requires a < n && s < n
    ensures 1 <= Distance(a, s, n) <= n && Wrap(a, Distance(a, s, n), n) == s
    ensures forall k :: 1 <= k <= n && Wrap(a, k, n) == s ==> k == Distance(a, s, n)
  {
  }

  lemma {:induction false} SearchIsNearest(active: nat, connected: set<nat>, count: nat, offset: nat)
    requires active < count && 1 <= offset <= count + 1
    ensures var r := Search(active, connected, count, offset);
            && (r.None? ==> forall s :: s in connected && s < count ==> Distance(active, s, count) < offset)
            && (r.Some? ==>
                  && r.value in connected && r.value < count && offset <= Distance(active, r.value, count)
                  && forall s :: s in connected && s < count && offset <= Distance(active, s, count) ==>
                       Distance(active, r.value, count) <= Distance(active, s, count))
    decreases count + 1 - offset
  {
    if offset <= count {
      ModIsWrap(active, offset, count);
      var here := Wrap(active, offset, count);
      DistanceWraps(active, here, count);
      if here !in connected {
        SearchIsNearest(active, connected, count, offset + 1);
        forall s | s in connected && s < count && offset <= Distance(active, s, count)
          ensures offset + 1 <= Distance(active, s, count)
        {
          DistanceWraps(active, s, count);
        }
      }
    } else {
      forall s | s in connected && s < count
        ensures Distance(active, s, count) < offset
      {
        DistanceWraps(active, s, count);
      }
    }
  }

  // The next source exists exactly when one in range is connected, and is the nearest going forward;
  // the active source itself is the farthest.
  lemma NextIsNearest(active: nat, connected: set<nat>, count: nat)
    requires active < count
    ensures var r := NextConnected(active, connected, count);
            && (r.Some? <==> exists s :: s in connected && s < count)
            && (r.Some? ==>
                  && r.value in connected && r.value < count
                  && forall s :: s in connected && s < count ==>
                    Distance(active, r.value, count) <= Distance(active, s, count))
  {
    SearchIsNearest(active, connected, count, 1);
    forall s | s in connected && s < count
      ensures 1 <= Distance(active, s, count)
    {
      DistanceWraps(active, s, count);
    }
  }

  // ----- A full rotation -----

  // The sources selected by i successive rotations.
  function Rotated(active: nat, connected: set<nat>, count: nat, i: nat): nat {
    if i == 0 then active
    else
      var before := Rotated(active, connected, count, i - 1);
      match NextConnected(before, connected, count)
      case Some(s) => s
      case None => before
  }

  // Places passed after i rotations, counted without wrapping.
  function Travelled(active: nat, connected: set<nat>, count: nat, i: nat): nat
    requires active < count && forall s :: s in connected ==> s < count
  {
    if i == 0 then 0
    else
      RotatedInRange(active, connected, count, i - 1);
      RotatedInRange(active, connected, count, i);
      Travelled(active, connected, count, i - 1)
      + Distance(Rotated(active, connected, count, i - 1), Rotated(active, connected, count, i), count)
  }

  lemma {:induction false} RotatedInRange(active: nat, connected: set<nat>, count: nat, i: nat)
    requires active < count && forall s :: s in connected ==> s < count
    ensures Rotated(active, connected, count, i) < count
    ensures active in connected ==> Rotated(active, connected, count, i) in connected
  {
    if i == 0 {
    } else {
      RotatedInRange(active, connected, count, i - 1);
      NextIsNearest(Rotated(active, connected, count, i - 1), connected, count);
    }
  }

  // Starting from a connected source, no rotation jumps over a connected one: once i rotations have
  // travelled less than a full circle, a source within that distance has been selected on the way.
  lemma {:induction false} NoneSkipped(active: nat, connected: set<nat>, count: nat, i: nat, s: nat)
    requires active in connected && s in connected && forall x :: x in connected ==> x < count
    requires Reach(active, s, count) <= Travelled(active, connected, count, i) <= count
    ensures exists j :: 0 <= j <= i && Travelled(active, connected, count, j) == Reach(active, s, count)
                        && Rotated(active, connected, count, j) == s
  {
    TravelledPlace(active, connected, count, i);
    if Travelled(active, connected, count, i) == Reach(active, s, count) {
      assert Rotated(active, connected, count, i) == s;
    } else if i > 0 {
      var t := Travelled(active, connected, count, i - 1);
      RotatedInRange(active, connected, count, i - 1);
      RotatedInRange(active, connected, count, i);
      TravelledPlace(active, connected, count, i - 1);
      if Reach(active, s, count) <= t {
        NoneSkipped(active, connected, count, i - 1, s);
      } else {
        NextIsNearest(Rotated(active, connected, count, i - 1), connected, count);
        CloserSource(active, Rotated(active, connected, count, i - 1), s, count, t);
        assert false;
      }
    }
  }

  // Places from the starting source to s; none to itself.
  function Reach(active: nat, s: nat, count: nat): nat
    requires active < count && s < count
  {
    if s == active then 0 else Distance(active, s, count)
  }

  lemma CloserSource(active: nat, here: nat, s: nat, count: nat, t: nat)
    requires active < count && here < count && s < count
    requires t < count && here == Wrap(active, t, count) && t < Reach(active, s, count)
    ensures Distance(here, s, count) == Reach(active, s, count) - t
  {
  }

  // The place reached is the distance travelled, while it is at most one circle.
  lemma {:induction false} TravelledPlace(active: nat, connected: set<nat>, count: nat, i: nat)
    requires active in connected && forall x :: x in connected ==> x < count
    requires Travelled(active, connected, count, i) <= count
    ensures Rotated(active, connected, count, i) == Wrap(active, Travelled(active, connected, count, i), count)
    ensures i > 0 ==> Travelled(active, connected, count, i - 1) < Travelled(active, connected, count, i)
  {
    if i == 0 {
    } else {
      RotatedInRange(active, connected, count, i - 1);
      RotatedInRange(active, connected, count, i);
      var a, b := Rotated(active, connected, count, i - 1), Rotated(active, connected, count, i);
      DistanceWraps(a, b, count);
      TravelledPlace(active, connected, count, i - 1);
    }
  }

  // Each rotation moves forward.
  lemma {:induction false} TravelGrows(active: nat, connected: set<nat>, count: nat, i: nat, j: nat)
    requires active in connected && i <= j && forall x :: x in connected ==> x < count
    ensures Travelled(active, connected, count, i) + (j - i) <= Travelled(active, connected, count, j)
    decreases j
  {
    if i >= j {
    } else {
      TravelGrows(active, connected, count, i, j - 1);
      RotatedInRange(active, connected, count, j - 1);
      RotatedInRange(active, connected, count, j);
      DistanceWraps(Rotated(active, connected, count, j - 1), Rotated(active, connected, count, j), count);
    }
  }

  // No rotation passes the starting source without stopping on it.
  lemma {:induction false} StopsAtStart(active: nat, connected: set<nat>, count: nat, i: nat)
    requires active in connected && forall x :: x in connected ==> x < count
    requires Travelled(active, connected, count, i) < count
    ensures Travelled(active, connected, count, i + 1) <= count
  {
    RotatedInRange(active, connected, count, i);
    RotatedInRange(active, connected, count, i + 1);
    TravelledPlace(active, connected, count, i);
    NextIsNearest(Rotated(active, connected, count, i), connected, count);
  }

  // Rotation i and rotation j select the same source only if i == j, every connected source is
  // selected, and then the rotation is back where it began.
  ghost predicate FullRotation(active: nat, connected: set<nat>, count: nat, n: nat) {
    && n > 0
    && Rotated(active, connected, count, n) == active
    && (forall s :: s in connected ==> SelectedWithin(active, connected, count, n, s))
    && (forall i, j :: 0 <= i < j < n ==> Rotated(active, connected, count, i) != Rotated(active, connected, count, j))
  }

  ghost predicate SelectedWithin(active: nat, connected: set<nat>, count: nat, n: nat, s: nat) {
    exists j :: 0 <= j < n && Rotated(active, connected, count, j) == s
  }

  lemma CircleIsFullRotation(active: nat, connected: set<nat>, count: nat, n: nat)
    requires active in connected && forall x :: x in connected ==> x < count
    requires Travelled(active, connected, count, n) == count
    ensures FullRotation(active, connected, count, n)
  {
    TravelledPlace(active, connected, count, n);
    forall s | s in connected
      ensures SelectedWithin(active, connected, count, n, s)
    {
      NoneSkipped(active, connected, count, n, s);
      var j :| 0 <= j <= n && Travelled(active, connected, count, j) == Reach(active, s, count)
               && Rotated(active, connected, count, j) == s;
      assert Reach(active, s, count) < count;
      assert j < n;
    }
    forall i, j | 0 <= i < j < n
      ensures Rotated(active, connected, count, i) != Rotated(active, connected, count, j)
    {
      TravelGrows(active, connected, count, i, j);
      TravelGrows(active, connected, count, j, n);
      TravelledPlace(active, connected, count, i);
      TravelledPlace(active, connected, count, j);
    }
  }

  lemma {:induction false} CircleFrom(active: nat, connected: set<nat>, count: nat, n: nat)
    requires active in connected && forall x :: x in connected ==> x < count
    requires Travelled(active, connected, count, n) <= count
    ensures exists m :: Travelled(active, connected, count, m) == count
    decreases count - Travelled(active, connected, count, n)
  {
    if Travelled(active, connected, count, n) == count {
    } else {
      StopsAtStart(active, connected, count, n);
      TravelGrows(active, connected, count, n, n + 1);
      CircleFrom(active, connected, count, n + 1);
    }
  }

  // Repeated rotation over a fixed set of connected sources, from one of them, selects every
  // connected source exactly once before it comes back.
  lemma RotationIsFair(active: nat, connected: set<nat>, count: nat)
    requires active in connected && forall x :: x in connected ==> x < count
    ensures exists n :: FullRotation(active, connected, count, n)
  {
    CircleFrom(active, connected, count, 0);
    var n :| Travelled(active, connected, count, n) == count;
    CircleIsFullRotation(active, connected, count, n);
  }

  // ----- Trying a list from an offset -----

  function Place(start: nat, i: nat, n: nat): nat
    requires n > 0
  {
    (start + i) % n
  }

  // Tries sources from start, wrapping round, until one is available; tried lists the attempts.
  method FirstAvailable(start: nat, available: seq<bool>) returns (r: Option<nat>, tried: seq<nat>)
    requires available != []
    ensures forall i :: 0 <= i < |tried| ==> tried[i] == Place(start, i, |available|) < |available|
    ensures r.None? ==> |tried| == |available| && forall s :: 0 <= s < |available| ==> !available[s]
    ensures r.Some? ==> tried != [] && tried[|tried| - 1] == r.value && available[r.value]
                        && forall i :: 0 <= i < |tried| - 1 ==> !available[tried[i]]
  {
    tried := [];
    var n := |available|;
    for offset := 0 to n
      invariant |tried| == offset
      invariant forall i :: 0 <= i < offset ==> tried[i] == Place(start, i, n) < n && !available[tried[i]]
    {
      var source := Place(start, offset, n);
      assert 0 <= source < n;
      tried := tried + [source];
      if available[source] {
        return Some(source), tried;
      }
    }
    forall s | 0 <= s < n
      ensures !available[s]
    {
      EveryOneTriedOnce(start, n, s);
      var i :| 0 <= i < n && Place(start, i, n) == s;
      assert tried[i] == s;
    }
    r := None;
  }

  // n consecutive offsets reach every source, each by one offset only.
  lemma EveryOneTriedOnce(start: nat, n: nat, s: nat)
    requires s < n
    ensures exists i :: 0 <= i < n && Place(start, i, n) == s
    ensures forall i, j :: 0 <= i < n && 0 <= j < n && Place(start, i, n) == s && Place(start, j, n) == s ==> i == j
  {
    var a := start % n;
    assert 0 <= a < n;
    forall i | 0 <= i < n
      ensures Place(start, i, n) == Wrap(a, i, n)
    {
      PlaceIsWrap(start, i, n);
    }
    var i := if s >= a then s - a else s + n - a;
    assert Wrap(a, i, n) == s;
    assert Place(start, i, n) == s;
  }

  lemma PlaceIsWrap(start: nat, i: nat, n: nat)
    requires n > 0 && i < n
    ensures start % n < n && Place(start, i, n) == Wrap(start % n, i, n)
  {
    var q, a := start / n, start % n;
    assert start == q * n + a;
    if a + i < n {
      UniqueRemainder(start + i, q, a + i, n);
    } else {
      assert start + i == (q + 1) * n + (a + i - n);
      UniqueRemainder(start + i, q + 1, a + i - n, n);
    }
  }
}
