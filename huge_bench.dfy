/**
 * The size arithmetic of the `HugeBench` benchmark: `get_actual_size`
 * turns a size name such as "32KB" or "4MB" into a byte count, and the
 * `size_m` table gives, for each size name, the rows and columns of the
 * matrix of doubles (8 bytes each) that the benchmark serializes.
 *
 * Java's `long` is 64-bit two's complement: `Long.parseLong` rejects values
 * outside its range and the multiplication by 1024 (or 1024 * 1024) wraps.
 */
module HugeBench {
  import opened Wrappers
  import opened Numerals

  const LONG_MIN: int := -0x8000_0000_0000_0000
  const LONG_MAX: int := 0x7FFF_FFFF_FFFF_FFFF
  const LONG_MOD: int := 0x1_0000_0000_0000_0000

  /** Java `long` arithmetic: x reduced into the 64-bit signed range. */
  function WrapLong(x: int): (r: int)
    ensures LONG_MIN <= r <= LONG_MAX
    ensures (x - r) % LONG_MOD == 0
    ensures LONG_MIN <= x <= LONG_MAX ==> r == x
  {
    (x - LONG_MIN) % LONG_MOD + LONG_MIN
  }

  /** The zero of every block of ten decimal digits (Unicode category Nd)
      in the Basic Multilingual Plane, Unicode 7.0 and later, in ascending
      order: ASCII, Arabic-Indic, ..., fullwidth. */
  const DIGIT_ZEROS: seq<int> := [
    0x0030, 0x0660, 0x06F0, 0x07C0, 0x0966, 0x09E6, 0x0A66, 0x0AE6,
    0x0B66, 0x0BE6, 0x0C66, 0x0CE6, 0x0D66, 0x0DE6, 0x0E50, 0x0ED0,
    0x0F20, 0x1040, 0x1090, 0x17E0, 0x1810, 0x1946, 0x19D0, 0x1A80,
    0x1A90, 0x1B50, 0x1BB0, 0x1C40, 0x1C50, 0xA620, 0xA8D0, 0xA900,
    0xA9D0, 0xA9F0, 0xAA50, 0xABF0, 0xFF10]

  /** Neighbouring blocks do not overlap. */
  lemma DigitBlocksAdjacent()
    ensures forall j :: 0 <= j < |DIGIT_ZEROS| - 1 ==> DIGIT_ZEROS[j] + 10 <= DIGIT_ZEROS[j + 1]
  {
  }

  /** The blocks are ascending and do not overlap. */
  lemma {:induction false} DigitBlocksApart(j: nat, i: nat)
    requires j < i < |DIGIT_ZEROS|
    ensures DIGIT_ZEROS[j] + 10 <= DIGIT_ZEROS[i]
    decreases i - j
  {
    DigitBlocksAdjacent();
    if j + 1 < i {
      DigitBlocksApart(j + 1, i);
    }
  }

  /** The digit value of c among the blocks from index i on, or -1. */
  function DigitFrom(c: char, i: nat): (d: int)
    requires i <= |DIGIT_ZEROS|
    ensures -1 <= d <= 9
    decreases |DIGIT_ZEROS| - i
  {
    if i == |DIGIT_ZEROS| then -1
    else if DIGIT_ZEROS[i] <= c as int < DIGIT_ZEROS[i] + 10 then c as int - DIGIT_ZEROS[i]
    else DigitFrom(c, i + 1)
  }

  /** `Character.digit(c, 10)`: the value of a decimal digit of any script,
      -1 for anything else. */
  function JavaDigit(c: char): (d: int)
    ensures -1 <= d <= 9
  {
    DigitFrom(c, 0)
  }

  /** Searching from block i finds a digit exactly when c lies in one of
      the blocks from i on, and its value is its distance from that
      block's zero. */
  lemma {:induction false} DigitFromInBlock(c: char, i: nat)
    requires i <= |DIGIT_ZEROS|
    ensures DigitFrom(c, i) >= 0 <==>
            exists b :: i <= b < |DIGIT_ZEROS| && DIGIT_ZEROS[b] <= c as int < DIGIT_ZEROS[b] + 10
    ensures DigitFrom(c, i) >= 0 ==>
            exists b :: i <= b < |DIGIT_ZEROS| && c as int == DIGIT_ZEROS[b] + DigitFrom(c, i)
    decreases |DIGIT_ZEROS| - i
  {
    if i < |DIGIT_ZEROS| && !(DIGIT_ZEROS[i] <= c as int < DIGIT_ZEROS[i] + 10) {
      DigitFromInBlock(c, i + 1);
      assert forall b :: i <= b < |DIGIT_ZEROS| && DIGIT_ZEROS[b] <= c as int < DIGIT_ZEROS[b] + 10 ==> b != i;
    }
  }

  /** A character is a digit exactly when it lies in one of the blocks, and
      it is then the digit its distance from the block's zero says. */
  lemma JavaDigitInBlock(c: char)
    ensures JavaDigit(c) >= 0 <==>
            exists b :: 0 <= b < |DIGIT_ZEROS| && DIGIT_ZEROS[b] <= c as int < DIGIT_ZEROS[b] + 10
    ensures JavaDigit(c) >= 0 ==>
            exists b :: 0 <= b < |DIGIT_ZEROS| && c as int == DIGIT_ZEROS[b] + JavaDigit(c)
  {
    DigitFromInBlock(c, 0);
  }

  /** Searching from a block no later than the one c lies in skips the
      earlier blocks and reads c's distance from that block's zero. */
  lemma {:induction false} DigitFromSkips(c: char, i: nat, b: nat)
    requires i <= b < |DIGIT_ZEROS|
    requires DIGIT_ZEROS[b] <= c as int < DIGIT_ZEROS[b] + 10
    ensures DigitFrom(c, i) == c as int - DIGIT_ZEROS[b]
    decreases b - i
  {
    if i < b {
      DigitBlocksApart(i, b);
      assert DigitFrom(c, i) == DigitFrom(c, i + 1);
      DigitFromSkips(c, i + 1, b);
    }
  }

  /** Every digit of every block is a character of the Basic Multilingual
      Plane outside the surrogate range. */
  lemma DigitBlockInBmp(b: nat, k: nat)
    requires b < |DIGIT_ZEROS| && k < 10
    ensures 0 <= DIGIT_ZEROS[b] + k < 0xD800
            || 0xE000 <= DIGIT_ZEROS[b] + k < 0x1_0000
  {
    var last := |DIGIT_ZEROS| - 1;
    if b < last - 1 {
      DigitBlocksApart(b, last - 1);
    }
  }

  /** Digit k of block b reads as k. */
  lemma JavaDigitOfBlock(b: nat, k: nat)
    requires b < |DIGIT_ZEROS| && k < 10
    ensures 0 <= DIGIT_ZEROS[b] + k < 0xD800
            || 0xE000 <= DIGIT_ZEROS[b] + k < 0x1_0000
    ensures JavaDigit((DIGIT_ZEROS[b] + k) as char) == k
  {
    DigitBlockInBmp(b, k);
    DigitFromSkips((DIGIT_ZEROS[b] + k) as char, 0, b);
  }

  /** The ASCII digits are the first block. */
  lemma JavaDigitOfAscii(c: char)
    requires IsDigit(c)
    ensures JavaDigit(c) == DigitValue(c)
  {
  }

  predicate AllJavaDigits(s: string)
  {
    forall i :: 0 <= i < |s| ==> JavaDigit(s[i]) >= 0
  }

  /** The value of a string of digits of any script, most significant first. */
  function JavaDecimalValue(s: string): (v: nat)
    requires AllJavaDigits(s)
  {
    if s == [] then 0
    else
      var d := JavaDigit(s[|s| - 1]);
      assert d >= 0;
      10 * JavaDecimalValue(s[..|s| - 1]) + d
  }

  /** On ASCII digits, `Character.digit` reads the ordinary decimal value. */
  lemma {:induction false} JavaDecimalOfAscii(s: string)
    requires AllDigits(s)
    ensures AllJavaDigits(s) && JavaDecimalValue(s) == DecimalValue(s)
  {
    forall i | 0 <= i < |s|
      ensures JavaDigit(s[i]) == DigitValue(s[i])
    {
      JavaDigitOfAscii(s[i]);
    }
    if s != [] {
      JavaDecimalOfAscii(s[..|s| - 1]);
    }
  }

  /** `Long.parseLong(s)`: an optional '-' or '+' followed by at least one
      decimal digit (of any script, as `Character.digit` reads it), whose
      value lies in the `long` range; anything else raises
      `NumberFormatException`. */
  function ParseLong(s: string): (r: Result<int>)
    ensures r.Ok? ==> LONG_MIN <= r.value <= LONG_MAX
    ensures r.Ok? ==> |s| >= 1
    ensures r.Ok? ==> var digits := if s[0] == '-' || s[0] == '+' then s[1..] else s;
                      |digits| >= 1 && AllJavaDigits(digits)
                      && r.value == (if s[0] == '-' then -(JavaDecimalValue(digits) as int) else JavaDecimalValue(digits))
  {
    if |s| == 0 then Err("NumberFormatException")
    else
      var negative := s[0] == '-';
      var digits := if s[0] == '-' || s[0] == '+' then s[1..] else s;
      if |digits| == 0 || !AllJavaDigits(digits) then Err("NumberFormatException")
      else
        var v: int := if negative then -(JavaDecimalValue(digits) as int) else JavaDecimalValue(digits);
        if LONG_MIN <= v <= LONG_MAX then Ok(v) else Err("NumberFormatException")
  }

  /** Every non-negative long, written in decimal, parses back to itself,
      with or without a leading '+'; its negation with a '-' parses to the
      negation. */
  lemma ParseLongOfDecimal(n: nat)
    requires n <= LONG_MAX
    ensures ParseLong(Decimal(n)) == Ok(n)
    ensures ParseLong("+" + Decimal(n)) == Ok(n)
    ensures ParseLong("-" + Decimal(n)) == Ok(-(n as int))
  {
    DecimalRoundTrip(n);
    var d := Decimal(n);
    JavaDecimalOfAscii(d);
    assert d[0] != '-' && d[0] != '+';
    assert ("+" + d)[1..] == d;
    assert ("-" + d)[1..] == d;
  }

  /** Digits of other scripts count: Arabic-Indic "\U{0661}\U{0662}" parses
      to 12. */
  lemma ParseLongArabicIndic()
    ensures ParseLong("\U{0661}\U{0662}") == Ok(12)
  {
    var s := "\U{0661}\U{0662}";
    JavaDigitOfBlock(1, 1);
    JavaDigitOfBlock(1, 2);
    assert JavaDigit(s[0]) == 1 && JavaDigit(s[1]) == 2;
    assert s[..1] == [s[0]];
    assert JavaDecimalValue(s) == 12;
  }

  /** Fullwidth digits count too: "-\U{FF11}\U{FF12}" parses to -12. */
  lemma ParseLongFullwidth()
    ensures ParseLong("-\U{FF11}\U{FF12}") == Ok(-12)
  {
    var s := "-\U{FF11}\U{FF12}";
    var digits := s[1..];
    assert digits == "\U{FF11}\U{FF12}";
    JavaDigitOfBlock(36, 1);
    JavaDigitOfBlock(36, 2);
    assert JavaDigit(digits[0]) == 1 && JavaDigit(digits[1]) == 2;
    assert digits[..1] == [digits[0]];
    assert JavaDecimalValue(digits[..1]) == 1;
    assert JavaDecimalValue(digits) == 12;
  }

  /** Empty text, a lone sign, and text without a sign that holds a
      non-digit do not parse. */
  lemma ParseLongRejects(s: string)
    requires |s| == 0 || s == "-" || s == "+" || (s[0] != '-' && s[0] != '+' && !AllJavaDigits(s))
    ensures ParseLong(s).Err?
  {
  }

  predicate EndsWith(s: string, suffix: string)
  {
    |s| >= |suffix| && s[|s| - |suffix|..] == suffix
  }

  /** `get_actual_size(size)`: "<n>KB" is 1024 * n and "<n>MB" is
      1024 * 1024 * n (the `int` product 0x10_0000), each in wrapping
      `long` arithmetic; the number is everything before the two-letter suffix; another suffix throws. */
  function GetActualSize(size: string): (r: Result<int>)
    ensures r.Ok? ==> LONG_MIN <= r.value <= LONG_MAX
  {
    if EndsWith(size, "KB") then
      match ParseLong(size[..|size| - 2])
      case Ok(n) => Ok(WrapLong(1024 * n))
      case Err(e) => Err(e)
    else if EndsWith(size, "MB") then
      match ParseLong(size[..|size| - 2])
      case Ok(n) => Ok(WrapLong(0x10_0000 * n))
      case Err(e) => Err(e)
    else Err("Unknown suffix")
  }

  /** "<n>KB" is n kibibytes, exactly, when that fits in a `long`, and
      wraps otherwise. */
  lemma SizeOfKiB(n: nat)
    requires n <= LONG_MAX
    ensures GetActualSize(Decimal(n) + "KB") == Ok(WrapLong(1024 * n))
    ensures 1024 * n <= LONG_MAX ==> GetActualSize(Decimal(n) + "KB") == Ok(1024 * n)
    ensures 1024 * n > LONG_MAX ==> GetActualSize(Decimal(n) + "KB") != Ok(1024 * n)
  {
    ParseLongOfDecimal(n);
    var d := Decimal(n);
    var s := d + "KB";
    assert s[|s| - 2..] == "KB";
    assert s[..|s| - 2] == d;
    assert GetActualSize(s) == Ok(WrapLong(1024 * n));
  }

  /** A size written with a fullwidth digit one, "\U{FF11}KB", is one
      kibibyte. */
  lemma SizeOfFullwidthKiB()
    ensures GetActualSize("\U{FF11}KB") == Ok(1024)
  {
    var s := "\U{FF11}KB";
    assert s[|s| - 2..] == "KB";
    assert s[..|s| - 2] == "\U{FF11}";
    JavaDigitOfBlock(36, 1);
    assert JavaDecimalValue("\U{FF11}") == 1;
  }

  /** "<n>MB" is n mebibytes, exactly, when that fits in a `long`, and
      wraps otherwise. */
  lemma SizeOfMiB(n: nat)
    requires n <= LONG_MAX
    ensures GetActualSize(Decimal(n) + "MB") == Ok(WrapLong(0x10_0000 * n))
    ensures 0x10_0000 * n <= LONG_MAX ==> GetActualSize(Decimal(n) + "MB") == Ok(0x10_0000 * n)
    ensures 0x10_0000 * n > LONG_MAX ==> GetActualSize(Decimal(n) + "MB") != Ok(0x10_0000 * n)
  {
    ParseLongOfDecimal(n);
    var d := Decimal(n);
    var s := d + "MB";
    assert s[|s| - 2..] == "MB";
    assert !EndsWith(s, "KB");
    assert s[..|s| - 2] == d;
    assert GetActualSize(s) == Ok(WrapLong(0x10_0000 * n));
  }

  /** The number and the suffix are split two characters from the end, so
      the size is an error exactly when the suffix is unknown or the number
      does not parse. */
  lemma GetActualSizeFails(size: string)
    ensures GetActualSize(size).Err? <==>
      (!EndsWith(size, "KB") && !EndsWith(size, "MB")) || ParseLong(size[..|size| - 2]).Err?
  {
  }

  datatype Unit = KB | MB

  /** One `size_m.put(name, {rows, cols})`: the name is the decimal
      amount followed by the unit, as in "32KB" or "256MB". */
  datatype Entry = Entry(amount: nat, unit: Unit, rows: nat, cols: nat)

  function Name(e: Entry): (name: string)
    ensures EndsWith(name, if e.unit == KB then "KB" else "MB")
  {
    var suffix := if e.unit == KB then "KB" else "MB";
    var name := Decimal(e.amount) + suffix;
    assert name[|name| - 2..] == suffix;
    name
  }

  /** `size_m`, in the order of its `put` calls. */
  const SizeTable: seq<Entry> := [
      Entry(32, KB, 64, 64), Entry(64, KB, 128, 64),
      Entry(128, KB, 128, 128), Entry(256, KB, 256, 128),
      Entry(512, KB, 256, 256), Entry(1, MB, 512, 256),
      Entry(2, MB, 512, 512), Entry(4, MB, 1024, 512),
      Entry(8, MB, 1024, 1024), Entry(16, MB, 1024, 2048),
      Entry(32, MB, 2048, 2048), Entry(64, MB, 2048, 4096),
      Entry(128, MB, 2048, 8192), Entry(256, MB, 2048, 16384)
    ]

  /** `size_m.get(size)`: the rows and columns for a size name. */
  function SizeOf(size: string): (r: Option<(nat, nat)>)
    ensures r.Some? <==> exists i :: 0 <= i < |SizeTable| && Name(SizeTable[i]) == size
  {
    Lookup(SizeTable, size)
  }

  function Lookup(t: seq<Entry>, size: string): (r: Option<(nat, nat)>)
    ensures r.Some? <==> exists i :: 0 <= i < |t| && Name(t[i]) == size
    ensures r.Some? ==> exists i :: 0 <= i < |t| && Name(t[i]) == size && (t[i].rows, t[i].cols) == r.value
  {
    if t == [] then None
    else if Name(t[0]) == size then Some((t[0].rows, t[0].cols))
    else
      var r := Lookup(t[1..], size);
      assert r.Some? ==> exists i :: 0 <= i < |t| && Name(t[i]) == size && (t[i].rows, t[i].cols) == r.value by {
        if r.Some? {
          var i :| 0 <= i < |t| - 1 && Name(t[1..][i]) == size && (t[1..][i].rows, t[1..][i].cols) == r.value;
          assert t[i + 1] == t[1..][i];
        }
      }
      assert (exists i :: 0 <= i < |t| && Name(t[i]) == size) ==> r.Some? by {
        if exists i :: 0 <= i < |t| && Name(t[i]) == size {
          var i :| 0 <= i < |t| && Name(t[i]) == size;
          assert t[1..][i - 1] == t[i];
        }
      }
      r
  }

  /** The matrix named by each size holds exactly as many bytes of doubles
      as the name says. */
  lemma SizeTableMatches(i: nat)
    requires i < |SizeTable|
    ensures GetActualSize(Name(SizeTable[i])) == Ok(SizeTable[i].rows * SizeTable[i].cols * 8)
  {
    var e := SizeTable[i];
    assert e.amount <= 512 && e.rows * e.cols * 8 == (if e.unit == KB then 1024 else 0x10_0000) * e.amount;
    if e.unit == KB {
      SizeOfKiB(e.amount);
    } else {
      SizeOfMiB(e.amount);
    }
  }
}
