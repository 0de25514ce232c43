// The elements of a finite set of numbers in increasing order, as an ordered map iterates its keys.
module Ascending {

  ghost predicate Increasing(s: seq<nat>) {
    forall i, j :: 0 <= i < j < |s| ==> s[i] < s[j]
  }

  predicate IsLeast(x: nat, s: set<nat>) {
    x in s && forall y :: y in s ==> x <= y
  }

  lemma {:induction false} LeastExists(s: set<nat>)
    requires s != {}
    ensures exists x :: IsLeast(x, s)
  {
    var a :| a in s;
    var t := s - {a};
    if t == {} {
      assert s == {a};
      assert IsLeast(a, s);
    } else {
      LeastExists(t);
      var x :| IsLeast(x, t);
      assert forall y :: y in s ==> y == a || y in t;
      assert IsLeast(if a < x then a else x, s);
    }
  }

  lemma {:induction false} IncreasingUnique(a: seq<nat>, b: seq<nat>)
    requires Increasing(a) && Increasing(b)
    requires forall x :: x in a <==> x in b
    ensures a == b
  {
    assert |a| > 0 ==> a[0] in b;
    assert |b| > 0 ==> b[0] in a;
    if |a| == 0 {
    } else {
      assert a[0] == b[0];
      assert forall x :: x in a[1..] <==> x in a && x != a[0];
      assert forall x :: x in b[1..] <==> x in b && x != b[0];
      IncreasingUnique(a[1..], b[1..]);
    }
  }

  ghost predicate IsListing(r: seq<nat>, s: set<nat>) {
    && Increasing(r)
    && |r| == |s|
    && forall x :: x in r <==> x in s
  }

  lemma {:induction false} ListingExists(s: set<nat>)
    ensures exists r :: IsListing(r, s)
  {
    if s == {} {
      assert IsListing([], s);
    } else {
      LeastExists(s);
      var x :| IsLeast(x, s);
      ListingExists(s - {x});
      var rest :| IsListing(rest, s - {x});
      assert forall i :: 0 <= i < |rest| ==> rest[i] in rest;
      assert IsListing([x] + rest, s);
    }
  }

  ghost function Sorted(s: set<nat>): seq<nat> {
    ListingExists(s);
    var r :| IsListing(r, s);
    r
  }

  lemma SortedIsListing(s: set<nat>)
    ensures IsListing(Sorted(s), s)
  {
    ListingExists(s);
  }

  method Sort(s: set<nat>) returns (r: seq<nat>)
    ensures r == Sorted(s)
  {
    r := [];
    var left := s;
    while left != {}
      invariant left <= s
      invariant Increasing(r)
      invariant forall x :: x in r <==> x in s && x !in left
      invariant forall x, y :: x in r && y in left ==> x < y
      decreases |left|
    {
      LeastExists(left);
      var x :| IsLeast(x, left);
      assert forall i :: 0 <= i < |r| ==> r[i] in r;
      r := r + [x];
      left := left - {x};
    }
    SortedIsListing(s);
    IncreasingUnique(r, Sorted(s));
  }

  // What follows position i of an increasing sequence is what exceeds its element.
  lemma IncreasingTail(r: seq<nat>, i: nat)
    requires Increasing(r) && i < |r|
    ensures Increasing(r[i + 1..])
    ensures forall x :: x in r[i + 1..] <==> x in r && r[i] < x
  {
    forall x | x in r && r[i] < x
      ensures x in r[i + 1..]
    {
      var j :| 0 <= j < |r| && r[j] == x;
      assert r[i + 1..][j - i - 1] == x;
    }
  }

  // r lists the elements of s up to t in increasing order.
  ghost predicate Lists(r: seq<nat>, s: set<nat>, t: nat) {
    && Increasing(r)
    && (forall i :: 0 <= i < |r| ==> r[i] in s && r[i] <= t)
    && (forall x :: x in s && x <= t ==> x in r)
  }

  method UpTo(s: set<nat>, t: nat) returns (r: seq<nat>)
    ensures Lists(r, s, t)
  {
    r := Sort(set x | x in s && x <= t);
    assert forall i :: 0 <= i < |r| ==> r[i] in r;
  }
}
