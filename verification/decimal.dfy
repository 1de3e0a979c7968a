/**
  Decimal rendering of integers as Rust's `format!` does it: `{}` for a signed
  year and `{:02}` for month and day, together with the parsers that invert them.
 */
module Decimal {
  import opened Wrappers

  predicate IsDigit(c: char) {
    '0' <= c <= '9'
  }

  predicate IsDigits(s: string) {
    forall i :: 0 <= i < |s| ==> IsDigit(s[i])
  }

  function DigitChar(d: nat): (c: char)
    requires d < 10
    ensures IsDigit(c) && c as int - '0' as int == d
  {
    ('0' as int + d) as char
  }

  function DigitValue(c: char): (d: nat)
    requires IsDigit(c)
    ensures d < 10 && DigitChar(d) == c
  {
    c as int - '0' as int
  }

  /** `{}` on an unsigned integer: shortest decimal form, no leading zeros. */
  function NatToString(n: nat): (s: string)
    ensures |s| >= 1 && IsDigits(s)
    ensures n >= 10 ==> s[0] != '0'
    ensures n < 10 <==> |s| == 1
  {
    if n < 10 then [DigitChar(n)] else NatToString(n / 10) + [DigitChar(n % 10)]
  }

  /** Value of a string of decimal digits (the empty string reads as 0). */
  function DigitsValue(s: string): nat
    requires IsDigits(s)
  {
    if |s| == 0 then 0 else DigitsValue(s[..|s| - 1]) * 10 + DigitValue(s[|s| - 1])
  }

  /** Reads an unsigned decimal; fails on the empty string and on any non-digit. */
  function ParseNat(s: string): Option<nat> {
    if |s| > 0 && IsDigits(s) then Some(DigitsValue(s)) else None
  }

  /**
    `{}` on a signed integer (chrono's year is an `i32`): a minus sign, then the
    magnitude, unpadded.
   */
  function IntToString(i: int): (s: string)
    ensures |s| >= 1
    ensures forall k :: 0 <= k < |s| ==> IsDigit(s[k]) || s[k] == '-'
    ensures i < 0 <==> s[0] == '-'
    ensures var m := if i < 0 then s[1..] else s;
      |m| >= 1 && IsDigits(m) && (|m| > 1 ==> m[0] != '0')
  {
    if i < 0 then "-" + NatToString(-i) else NatToString(i)
  }

  /** Reads an optionally negative decimal. */
  function ParseInt(s: string): Option<int> {
    if |s| > 0 && s[0] == '-' then
      match ParseNat(s[1..])
      case Some(n) => Some(0 - n)
      case None => None
    else
      match ParseNat(s)
      case Some(n) => Some(n)
      case None => None
  }

  /** `{:02}`: at least two digits, zero-filled on the left; never truncated. */
  function Pad2(n: nat): (s: string)
    ensures IsDigits(s)
    ensures n < 100 ==> |s| == 2
    ensures n >= 10 ==> s == NatToString(n)
  {
    if n < 10 then "0" + NatToString(n) else NatToString(n)
  }

  lemma DigitsValueAppend(s: string, c: char)
    requires IsDigits(s) && IsDigit(c)
    ensures IsDigits(s + [c])
    ensures DigitsValue(s + [c]) == DigitsValue(s) * 10 + DigitValue(c)
  {
    assert (s + [c])[..|s + [c]| - 1] == s;
  }

  /** Parsing undoes printing: every natural number reads back as itself. */
  lemma {:induction false} NatRoundTrip(n: nat)
    ensures ParseNat(NatToString(n)) == Some(n)
  {
    if n >= 10 {
      var q, d := n / 10, n % 10;
      var prefix := NatToString(q);
      NatRoundTrip(q);
      assert DigitsValue(prefix) == q;
      DigitsValueAppend(prefix, DigitChar(d));
      assert NatToString(n) == prefix + [DigitChar(d)];
      assert DigitsValue(NatToString(n)) == q * 10 + d;
    } else {
      assert NatToString(n)[..0] == [];
    }
  }

  /** Every signed integer reads back as itself. */
  lemma IntRoundTrip(i: int)
    ensures ParseInt(IntToString(i)) == Some(i)
  {
    if i < 0 {
      NatRoundTrip(-i);
      assert IntToString(i)[1..] == NatToString(-i);
    } else {
      NatRoundTrip(i);
    }
  }

  /** The zero padding does not change the value: `{:02}` reads back as the number. */
  lemma Pad2RoundTrip(n: nat)
    ensures ParseNat(Pad2(n)) == Some(n)
  {
    NatRoundTrip(n);
    if n < 10 {
      var s := Pad2(n);
      assert s == "0" + NatToString(n);
      assert s[..|s| - 1] == "0";
      assert DigitsValue("0") == 0;
    }
  }
}
