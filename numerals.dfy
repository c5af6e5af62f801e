/**
 * Decimal text of integers as Ruby's `Integer#to_s` and string interpolation
 * write it, and the readings of digit strings: the decimal reading the action
 * means, and what `Kernel#Integer` actually does with a leading zero.
 */
module Numerals {
  import opened Wrappers
  import opened Text

  function DigitChar(d: nat): (c: char)
    requires d < 10
    ensures IsDigit(c)
  {
    (48 + d) as char
  }

  function DigitValue(c: char): (d: nat)
    requires IsDigit(c)
    ensures d < 10
  {
    c as int - 48
  }

  /** `n.to_s` for a non-negative integer: decimal digits without leading zeros. */
  function NatToString(n: nat): (r: string)
    ensures |r| > 0 && AllDigits(r)
    ensures r[0] == '0' ==> r == "0"
  {
    if n < 10 then [DigitChar(n)] else NatToString(n / 10) + [DigitChar(n % 10)]
  }

  /** `i.to_s` for any integer: a minus sign before the digits of a negative one. */
  function IntToString(i: int): (r: string)
    ensures |r| > 0 && (r[0] == '-' <==> i < 0)
    ensures forall k :: 0 < k < |r| ==> IsDigit(r[k])
    ensures IsDigit(r[0]) <==> i >= 0
  {
    if i < 0 then "-" + NatToString(-i) else NatToString(i)
  }

  /** The decimal value of a digit string; the empty string reads as 0. */
  function DecimalValue(ds: string): nat
    requires AllDigits(ds)
  {
    if ds == [] then 0 else DecimalValue(ds[..|ds| - 1]) * 10 + DigitValue(ds[|ds| - 1])
  }

  lemma {:induction false} DecimalRoundTrip(n: nat)
    ensures DecimalValue(NatToString(n)) == n
  {
    if n >= 10 {
      DecimalRoundTrip(n / 10);
      var s := NatToString(n);
      assert s[..|s| - 1] == NatToString(n / 10);
    }
  }

  /** Leading zeros do not change a decimal reading. */
  lemma {:induction false} DecimalLeadingZero(ds: string)
    requires AllDigits(ds)
    ensures DecimalValue("0" + ds) == DecimalValue(ds)
  {
    if ds != [] {
      assert ("0" + ds)[..|ds|] == "0" + ds[..|ds| - 1];
      DecimalLeadingZero(ds[..|ds| - 1]);
    }
  }

  predicate IsOctalDigit(c: char) { '0' <= c <= '7' }

  predicate AllOctal(s: string) { forall i :: 0 <= i < |s| ==> IsOctalDigit(s[i]) }

  function OctalValue(ds: string): nat
    requires AllOctal(ds)
  {
    if ds == [] then 0 else OctalValue(ds[..|ds| - 1]) * 8 + (ds[|ds| - 1] as int - 48)
  }

  /**
   * `Integer(ds)` for a string of one or more decimal digits, as Ruby's
   * `Kernel#Integer` reads it: a leading `0` followed by more digits selects
   * octal, and a digit 8 or 9 after it raises (None).
   */
  function RubyInteger(ds: string): Option<int>
    requires |ds| > 0 && AllDigits(ds)
  {
    if ds[0] == '0' && |ds| > 1 then
      if AllOctal(ds) then Some(OctalValue(ds)) else None
    else Some(DecimalValue(ds))
  }

  /** On the digits the writer produces, `Integer` and the decimal reading agree. */
  lemma RubyIntegerOfCanonical(n: nat)
    ensures RubyInteger(NatToString(n)) == Some(n)
  {
    DecimalRoundTrip(n);
  }

  /** `Integer("010")` is 8 where the decimal reading is 10, and `Integer("09")` raises. */
  lemma RubyIntegerReadsLeadingZeroAsOctal()
    ensures RubyInteger("010") == Some(8) && DecimalValue("010") == 10
    ensures RubyInteger("09") == None && DecimalValue("09") == 9
  {
    assert "010"[..2] == "01" && "01"[..1] == "0" && "0"[..0] == "";
    assert "09"[..1] == "0" && "0"[..0] == "";
    assert !IsOctalDigit("09"[1]);
  }

  /** Text of the form `-?\d+` read back as an integer. */
  function ParseInt(s: string): Option<int> {
    if |s| > 0 && s[0] == '-' then
      if |s| > 1 && AllDigits(s[1..]) then Some(0 - DecimalValue(s[1..]) as int) else None
    else if |s| > 0 && AllDigits(s) then Some(DecimalValue(s))
    else None
  }

  lemma IntRoundTrip(i: int)
    ensures ParseInt(IntToString(i)) == Some(i)
  {
    if i < 0 {
      assert IntToString(i)[1..] == NatToString(-i);
      DecimalRoundTrip(-i);
    } else {
      DecimalRoundTrip(i);
    }
  }
}
