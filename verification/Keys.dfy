// Account keys as numbers: the big-endian value of 32 bytes, a bijection that keeps the order in
// which byte arrays compare.
module Keys {
  import opened Types

  function Pow256(n: nat): nat {
    if n == 0 then 1 else 256 * Pow256(n - 1)
  }

  function Value(b: Bytes): nat {
    if b == [] then 0 else 256 * Value(b[..|b| - 1]) + b[|b| - 1]
  }

  function Digits(n: nat, length: nat): Bytes {
    if length == 0 then [] else Digits(n / 256, length - 1) + [n % 256]
  }

  // A byte string of the wrong length is not a key.
  function KeyOf(b: Bytes): Option<Key> {
    if |b| == 32 then ValueBound(b); KeyLimitIsPower(); Some(Value(b)) else None
  }

  function BytesOf(k: Key): Bytes {
    Digits(k, 32)
  }

  lemma KeyLimitIsPower()
    ensures Pow256(32) == KEY_LIMIT
  {
    assert Pow256(8) == 0x1_0000000000000000;
    assert Pow256(16) == 0x1_0000000000000000_0000000000000000;
    assert Pow256(24) == 0x1_0000000000000000_0000000000000000_0000000000000000;
  }

  lemma {:induction false} ValueBound(b: Bytes)
    ensures Value(b) < Pow256(|b|)
  {
    if b == [] {
    } else {
      ValueBound(b[..|b| - 1]);
    }
  }

  lemma {:induction false} DigitsValue(n: nat, length: nat)
    requires n < Pow256(length)
    ensures |Digits(n, length)| == length && Value(Digits(n, length)) == n
  {
    if length == 0 {
    } else {
      DigitsValue(n / 256, length - 1);
      var d := Digits(n, length);
      assert d[..|d| - 1] == Digits(n / 256, length - 1);
    }
  }

  lemma {:induction false} ValueInjective(a: Bytes, b: Bytes)
    requires |a| == |b| && Value(a) == Value(b)
    ensures a == b
  {
    if a == [] {
    } else {
      var n := |a| - 1;
      assert a[n] == b[n];
      ValueInjective(a[..n], b[..n]);
      assert a == a[..n] + [a[n]] && b == b[..n] + [b[n]];
    }
  }

  lemma KeyRoundTrip(k: Key)
    ensures KeyOf(BytesOf(k)) == Some(k)
  {
    KeyLimitIsPower();
    DigitsValue(k, 32);
  }

  lemma BytesRoundTrip(b: Bytes)
    requires |b| == 32
    ensures KeyOf(b).Some? && BytesOf(KeyOf(b).value) == b
  {
    KeyLimitIsPower();
    ValueBound(b);
    DigitsValue(Value(b), 32);
    ValueInjective(BytesOf(Value(b)), b);
  }

  // The order of byte arrays: the first difference decides.
  ghost predicate Below(a: Bytes, b: Bytes)
    requires |a| == |b|
  {
    exists i :: 0 <= i < |a| && a[..i] == b[..i] && a[i] < b[i]
  }

  lemma {:induction false} OrderIsNumeric(a: Bytes, b: Bytes)
    requires |a| == |b|
    ensures Below(a, b) <==> Value(a) < Value(b)
  {
    if a == [] {
    } else {
      var n := |a| - 1;
      var a0, b0 := a[..n], b[..n];
      OrderIsNumeric(a0, b0);
      if Below(a0, b0) {
        var i :| 0 <= i < n && a0[..i] == b0[..i] && a0[i] < b0[i];
        assert a[..i] == a0[..i] && b[..i] == b0[..i];
        assert Below(a, b);
      } else if Value(a0) == Value(b0) {
        ValueInjective(a0, b0);
        if a[n] < b[n] {
          assert Below(a, b);
        }
      }
      if Below(a, b) {
        var i :| 0 <= i <= n && a[..i] == b[..i] && a[i] < b[i];
        if i < n {
          assert a0[..i] == a[..i] && b0[..i] == b[..i];
          assert Below(a0, b0);
        } else {
          assert a0 == b0;
        }
      }
    }
  }
}
