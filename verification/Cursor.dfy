// The text form of pagination cursors: a decimal slot, a colon, and a base58 key.
module Cursor {
  import opened Types
  import opened Keys
  import opened Gate

  function Digit(d: nat): char
    requires d < 10
  {
    '0' + d as char
  }

  function DigitValue(c: char): Option<nat> {
    if '0' <= c <= '9' then Some((c - '0') as nat) else None
  }

  function Decimal(n: nat): string {
    if n < 10 then [Digit(n)] else Decimal(n / 10) + [Digit(n % 10)]
  }

  function ParseDigits(s: string): Option<nat> {
    if s == [] then Some(0)
    else
      match (ParseDigits(s[..|s| - 1]), DigitValue(s[|s| - 1]))
      case (Some(n), Some(d)) => Some(10 * n + d)
      case _ => None
  }

  // An unsigned 64-bit integer: digits after an optional plus sign, at least one, in range.
  function ParseU64(s: string): Option<U64> {
    var digits := if s != [] && s[0] == '+' then s[1..] else s;
    if digits == [] then None
    else
      match ParseDigits(digits)
      case Some(n) => if n < 0x1_0000_0000_0000_0000 then Some(n) else None
      case None => None
  }

  // The text before and after the first colon.
  function SplitColon(s: string): Option<(string, string)> {
    if s == [] then None
    else if s[0] == ':' then Some(([], s[1..]))
    else
      match SplitColon(s[1..])
      case Some((before, after)) => Some(([s[0]] + before, after))
      case None => None
  }

  function ParseCursor(c: Codec, s: string): Option<(Slot, Key)> {
    match SplitColon(s)
    case None => None
    case Some((slot, key)) =>
      match (ParseU64(slot), ParseKey(c, key))
      case (Some(n), Some(b)) =>
        (match KeyOf(b)
         case Some(k) => Some((n, k))
         case None => None)
      case _ => None
  }

  function FormatCursor(c: Codec, slot: Slot, key: Key): string {
    Decimal(slot) + ":" + c.encode58(BytesOf(key))
  }

  lemma {:induction false} DecimalParses(n: nat)
    ensures ParseDigits(Decimal(n)) == Some(n)
    ensures Decimal(n) != [] && Decimal(n)[0] != '+' && ':' !in Decimal(n)
  {
    var s := Decimal(n);
    if n < 10 {
      assert s[..0] == [];
      assert ParseDigits([]) == Some(0);
    } else {
      DecimalParses(n / 10);
      assert s[..|s| - 1] == Decimal(n / 10);
    }
  }

  lemma {:induction false} SplitAtColon(before: string, after: string)
    requires ':' !in before
    ensures SplitColon(before + ":" + after) == Some((before, after))
  {
    var s := before + ":" + after;
    if before == [] {
      assert s[1..] == after;
    } else {
      assert s[1..] == before[1..] + ":" + after;
      SplitAtColon(before[1..], after);
      assert [before[0]] + before[1..] == before;
    }
  }

  // Every cursor the service hands out parses back to its slot and key.
  lemma CursorRoundTrip(c: Codec, slot: Slot, key: Key)
    requires Lawful(c)
    ensures ParseCursor(c, FormatCursor(c, slot, key)) == Some((slot, key))
  {
    DecimalParses(slot);
    SplitAtColon(Decimal(slot), c.encode58(BytesOf(key)));
    KeyRoundTrip(key);
    KeyLimitIsPower();
    DigitsValue(key, 32);
  }

  lemma CursorInjective(c: Codec, s1: Slot, k1: Key, s2: Slot, k2: Key)
    requires Lawful(c) && FormatCursor(c, s1, k1) == FormatCursor(c, s2, k2)
    ensures s1 == s2 && k1 == k2
  {
    CursorRoundTrip(c, s1, k1);
    CursorRoundTrip(c, s2, k2);
  }

  // ----- Exactly which texts parse -----

  function Zeros(n: nat): string {
    seq(n, _ => '0')
  }

  lemma DigitOfValue(c: char)
    requires DigitValue(c).Some?
    ensures DigitValue(c).value < 10 && Digit(DigitValue(c).value) == c
  {
  }

  lemma ZerosSnoc(z: nat)
    ensures Zeros(z) + "0" == Zeros(z + 1)
  {
  }

  lemma {:induction false} ZerosParse(z: nat)
    ensures ParseDigits(Zeros(z)) == Some(0)
  {
    if z == 0 {
    } else {
      ZerosParse(z - 1);
      assert Zeros(z)[..z - 1] == Zeros(z - 1);
    }
  }

  lemma {:induction false} PaddedParses(z: nat, n: nat)
    ensures ParseDigits(Zeros(z) + Decimal(n)) == Some(n)
  {
    var s := Zeros(z) + Decimal(n);
    if n < 10 {
      ZerosParse(z);
      assert s[..|s| - 1] == Zeros(z);
    } else {
      PaddedParses(z, n / 10);
      assert s[..|s| - 1] == Zeros(z) + Decimal(n / 10);
    }
  }

  lemma {:induction false} ParsedIsPadded(s: string) returns (z: nat)
    requires s != [] && ParseDigits(s).Some?
    ensures s == Zeros(z) + Decimal(ParseDigits(s).value)
  {
    var init, c := s[..|s| - 1], s[|s| - 1];
    var m, d := ParseDigits(init).value, DigitValue(c).value;
    DigitOfValue(c);
    assert s == init + [c];
    if init == [] {
      z := 0;
      assert Decimal(d) == [c];
    } else {
      z := ParsedIsPadded(init);
      if m == 0 {
        ZerosSnoc(z);
        z := z + 1;
        assert Decimal(d) == [c];
      } else {
        assert Decimal(10 * m + d) == Decimal(m) + [c];
        assert init + [c] == Zeros(z) + (Decimal(m) + [c]);
      }
    }
  }

  // The decimal digits of n, after any number of zeros.
  ghost predicate IsPadded(s: string, n: nat) {
    exists z: nat :: s == Zeros(z) + Decimal(n)
  }

  lemma DigitsExactly(s: string, n: nat)
    requires s != []
    ensures ParseDigits(s) == Some(n) <==> IsPadded(s, n)
  {
    if ParseDigits(s) == Some(n) {
      var z := ParsedIsPadded(s);
    }
    if z: nat :| s == Zeros(z) + Decimal(n) {
      PaddedParses(z, n);
    }
  }

  // An unsigned 64-bit number is an optional plus sign, any zeros, and its decimal digits.
  lemma NumberExactly(s: string, n: U64)
    ensures ParseU64(s) == Some(n) <==> IsPadded(s, n) || (s != [] && s[0] == '+' && IsPadded(s[1..], n))
  {
    NotSigned(s, n);
    if s != [] {
      DigitsExactly(s, n);
      if s[0] == '+' && s[1..] != [] {
        DigitsExactly(s[1..], n);
      }
      NotSigned(s[1..], n);
    }
  }

  lemma NotSigned(s: string, n: nat)
    ensures IsPadded(s, n) ==> s != [] && s[0] != '+'
  {
    DecimalParses(n);
    if z: nat :| s == Zeros(z) + Decimal(n) {
      assert s[0] == if z > 0 then '0' else Decimal(n)[0];
    }
  }

  lemma {:induction false} SplitIsAtColon(s: string)
    ensures match SplitColon(s)
            case Some((before, after)) => ':' !in before && s == before + ":" + after
            case None => ':' !in s
  {
    if s == [] {
    } else if s[0] == ':' {
      assert s == [] + ":" + s[1..];
    } else {
      SplitIsAtColon(s[1..]);
      assert s == [s[0]] + s[1..];
      match SplitColon(s[1..])
      case Some((before, after)) =>
        assert [s[0]] + (before + ":" + after) == [s[0]] + before + ":" + after;
      case None =>
    }
  }

  // A cursor is a number, the first colon, and the base58 text of a 32-byte key.
  ghost predicate IsCursor(c: Codec, s: string, slot: Slot, key: Key) {
    exists number: string, text: string ::
      && s == number + ":" + text && ':' !in number
      && ParseU64(number) == Some(slot) && c.decode58(text) == Some(BytesOf(key))
  }

  lemma CursorExactly(c: Codec, s: string, slot: Slot, key: Key)
    ensures ParseCursor(c, s) == Some((slot, key)) <==> IsCursor(c, s, slot, key)
  {
    SplitIsAtColon(s);
    KeyRoundTrip(key);
    KeyLimitIsPower();
    DigitsValue(key, 32);
    if ParseCursor(c, s) == Some((slot, key)) {
      var (number, text) := SplitColon(s).value;
      BytesRoundTrip(c.decode58(text).value);
      assert s == number + ":" + text;
    }
    if IsCursor(c, s, slot, key) {
      var number: string, text: string :|
        && s == number + ":" + text && ':' !in number
        && ParseU64(number) == Some(slot) && c.decode58(text) == Some(BytesOf(key));
      SplitAtColon(number, text);
    }
  }
}
