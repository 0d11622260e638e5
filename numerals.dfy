/**
 * Decimal and hexadecimal renderings of natural numbers, as the standard
 * streams print them (`std::dec`, `std::hex` with `std::uppercase`,
 * `Long.toString`), and the digit values that read them back.
 */
module Numerals {
  predicate IsDigit(c: char)
  {
    '0' <= c <= '9'
  }

  predicate AllDigits(s: string)
  {
    forall i :: 0 <= i < |s| ==> IsDigit(s[i])
  }

  function DigitValue(c: char): (d: nat)
    requires IsDigit(c)
    ensures d < 10
  {
    c as int - '0' as int
  }

  function DigitChar(d: nat): (c: char)
    requires d < 10
    ensures IsDigit(c) && DigitValue(c) == d
  {
    ('0' as int + d) as char
  }

  /** The value of a string of decimal digits, most significant first. */
  function DecimalValue(s: string): (r: nat)
    requires AllDigits(s)
  {
    if s == [] then 0 else 10 * DecimalValue(s[..|s| - 1]) + DigitValue(s[|s| - 1])
  }

  /** The shortest decimal rendering of n. */
  function Decimal(n: nat): (s: string)
    ensures |s| >= 1 && AllDigits(s)
  {
    if n < 10 then [DigitChar(n)] else Decimal(n / 10) + [DigitChar(n % 10)]
  }

  /** Reading a rendered number gives the number back. */
  lemma {:induction false} DecimalRoundTrip(n: nat)
    ensures DecimalValue(Decimal(n)) == n
  {
    if n >= 10 {
      DecimalRoundTrip(n / 10);
      var s := Decimal(n);
      assert s[..|s| - 1] == Decimal(n / 10);
    }
  }

  /** `hex_lookup`: the uppercase hexadecimal digits by value. */
  const HexLookup: string := "0123456789ABCDEF"

  predicate IsHexDigit(c: char)
  {
    '0' <= c <= '9' || 'A' <= c <= 'F'
  }

  predicate AllHexDigits(s: string)
  {
    forall i :: 0 <= i < |s| ==> IsHexDigit(s[i])
  }

  function HexDigitValue(c: char): (d: nat)
    requires IsHexDigit(c)
    ensures d < 16
  {
    if c <= '9' then c as int - '0' as int else c as int - 'A' as int + 10
  }

  /** The uppercase digit of value d. */
  function HexChar(d: nat): (c: char)
    requires d < 16
    ensures IsHexDigit(c) && HexDigitValue(c) == d
  {
    if d < 10 then ('0' as int + d) as char else ('A' as int + d - 10) as char
  }

  /** The digit of value d is the entry d of the lookup table. */
  lemma HexCharIsLookup(d: nat)
    requires d < 16
    ensures HexChar(d) == HexLookup[d]
  {
    if d < 8 {
      if d < 4 {
        if d < 2 { assert d == 0 || d == 1; } else { assert d == 2 || d == 3; }
      } else {
        if d < 6 { assert d == 4 || d == 5; } else { assert d == 6 || d == 7; }
      }
    } else {
      if d < 12 {
        if d < 10 { assert d == 8 || d == 9; } else { assert d == 10 || d == 11; }
      } else {
        if d < 14 { assert d == 12 || d == 13; } else { assert d == 14 || d == 15; }
      }
    }
  }

  /** The value of a string of hexadecimal digits, most significant first. */
  function HexValue(s: string): (r: nat)
    requires AllHexDigits(s)
  {
    if s == [] then 0 else 16 * HexValue(s[..|s| - 1]) + HexDigitValue(s[|s| - 1])
  }

  /** `std::hex << std::uppercase << n` without a width: the shortest
      uppercase hexadecimal rendering of n. */
  function Hex(n: nat): (s: string)
    ensures |s| >= 1
  {
    if n < 16 then [HexChar(n)] else Hex(n / 16) + [HexChar(n % 16)]
  }

  /** Reading a rendered number in hexadecimal gives the number back. */
  lemma {:induction false} HexRoundTrip(n: nat)
    ensures AllHexDigits(Hex(n)) && HexValue(Hex(n)) == n
  {
    if n >= 16 {
      HexRoundTrip(n / 16);
      var s := Hex(n);
      assert s[..|s| - 1] == Hex(n / 16);
      assert forall i :: 0 <= i < |s| - 1 ==> s[i] == Hex(n / 16)[i];
    }
  }

  /** `std::setw(w)` with fill '0': s right-aligned in w characters. */
  function ZeroPad(s: string, w: nat): (r: string)
    ensures |r| == if |s| >= w then |s| else w
  {
    if |s| >= w then s else seq(w - |s|, _ => '0') + s
  }

  /** The padding is zeros in front of the unchanged string. */
  lemma ZeroPadShape(s: string, w: nat)
    ensures var r := ZeroPad(s, w);
      r[|r| - |s|..] == s && forall i :: 0 <= i < |r| - |s| ==> r[i] == '0'
  {
  }

  /** Leading zeros do not change a hexadecimal value. */
  lemma {:induction false} HexValueZeroPad(s: string, w: nat)
    requires AllHexDigits(s)
    ensures AllHexDigits(ZeroPad(s, w)) && HexValue(ZeroPad(s, w)) == HexValue(s)
  {
    if |s| < w {
      var z := seq(w - |s|, _ => '0');
      LeadingZeros(z, s);
    }
  }

  lemma {:induction false} LeadingZeros(z: string, s: string)
    requires forall i :: 0 <= i < |z| ==> z[i] == '0'
    requires AllHexDigits(s)
    ensures AllHexDigits(z + s) && HexValue(z + s) == HexValue(s)
    decreases |s|, |z|
  {
    if s != [] {
      LeadingZeros(z, s[..|s| - 1]);
      assert (z + s)[..|z + s| - 1] == z + s[..|s| - 1];
    } else if z != [] {
      LeadingZeros(z[..|z| - 1], []);
      assert z + s == z;
      assert (z + s)[..|z + s| - 1] == z[..|z| - 1] + [];
    }
  }
}
