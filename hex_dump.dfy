/**
 * `std::to_string(CustomHexdump<RowSize, ShowAscii>)`: the text dump of a
 * byte span. A header line gives the span's address in uppercase hex
 * after "0x" and its size in decimal; then one row per `RowSize` bytes
 * gives the row's offset as 8 zero-padded hex digits, ": ", a three-
 * character cell per slot (two hex digits and a space, or three spaces past
 * the end), a space and, when `ShowAscii`, the printable bytes as
 * themselves and the others as '.'. Rows are separated by newlines.
 *
 * The address is a parameter (the span's `data()` pointer as an integer).
 */
module HexDump {
  import opened Bytes
  import opened Numerals
  import opened Arith

  /** `std::isprint` in the C locale. */
  predicate IsPrint(b: Byte)
  {
    0x20 <= b <= 0x7E
  }

  /** What the ASCII column shows for a byte. */
  function Shown(b: Byte): (c: char)
    ensures c != '\n'
  {
    if IsPrint(b) then b as char else '.'
  }

  /** The cell of a present byte: its high and its low nibble, and a
      space. */
  function Cell(b: Byte): (cell: string)
    ensures |cell| == 3 && cell[2] == ' '
  {
    [HexChar(b / 16), HexChar(b % 16), ' ']
  }

  /** Slot k of the data: the byte's cell, or three spaces past the end. */
  function Slot(data: seq<Byte>, k: nat): (cell: string)
    ensures |cell| == 3
  {
    if k < |data| then Cell(data[k]) else "   "
  }

  /** The cells of slots i to i + j - 1. */
  function Cells(data: seq<Byte>, i: nat, j: nat): (cells: string)
    ensures |cells| == 3 * j
  {
    if j == 0 then [] else Cells(data, i, j - 1) + Slot(data, i + j - 1)
  }

  /** The ASCII column for slots i to i + j - 1: only present bytes. */
  function AsciiColumn(data: seq<Byte>, i: nat, j: nat): (r: string)
  {
    if j == 0 then []
    else AsciiColumn(data, i, j - 1) + (if i + j - 1 < |data| then [Shown(data[i + j - 1])] else [])
  }

  /** The row for the bytes from offset i, without its newline. */
  function Row(data: seq<Byte>, i: nat, rowSize: nat, showAscii: bool): (r: string)
  {
    ZeroPad(Hex(i), 8) + ": " + Cells(data, i, rowSize) + " "
    + (if showAscii then AsciiColumn(data, i, rowSize) else [])
  }

  /** The rows from offset i on, each but the last followed by a newline. */
  function Rows(data: seq<Byte>, i: nat, rowSize: nat, showAscii: bool): (r: string)
    requires rowSize > 0
    decreases |data| - i
  {
    if i >= |data| then []
    else
      Row(data, i, rowSize, showAscii) + (if i + rowSize < |data| then "\n" else [])
      + Rows(data, i + rowSize, rowSize, showAscii)
  }

  function Header(address: nat, size: nat): (r: string)
  {
    "0x" + Hex(address) + " " + Decimal(size) + "\n"
  }

  /** The whole dump. */
  function Dump(address: nat, data: seq<Byte>, rowSize: nat, showAscii: bool): (r: string)
    requires rowSize > 0
  {
    Header(address, |data|) + Rows(data, 0, rowSize, showAscii)
  }

  /** The hex cells of one row, the `for (j < RowSize)` loop with its
      `hex_lookup` indexing. */
  method HexCells(data: seq<Byte>, i: nat, rowSize: nat) returns (cells: string)
    ensures cells == Cells(data, i, rowSize)
  {
    cells := [];
    for j := 0 to rowSize
      invariant cells == Cells(data, i, j)
    {
      if i + j < |data| {
        var b := data[i + j];
        HexCharIsLookup(b / 16);
        HexCharIsLookup(b % 16);
        cells := cells + [HexLookup[b / 16], HexLookup[b % 16], ' '];
      } else {
        cells := cells + "   ";
      }
    }
  }

  /** The ASCII column of one row, the second `for (j < RowSize)` loop. */
  method AsciiCells(data: seq<Byte>, i: nat, rowSize: nat) returns (column: string)
    ensures column == AsciiColumn(data, i, rowSize)
  {
    column := [];
    for j := 0 to rowSize
      invariant column == AsciiColumn(data, i, j)
    {
      if i + j < |data| {
        column := column + [if IsPrint(data[i + j]) then data[i + j] as char else '.'];
      }
    }
  }

  /** One row: the offset, the cells, a space and the ASCII column. */
  method RowLine(data: seq<Byte>, i: nat, rowSize: nat, showAscii: bool) returns (line: string)
    ensures line == Row(data, i, rowSize, showAscii)
  {
    line := ZeroPad(Hex(i), 8) + ": ";
    var cells := HexCells(data, i, rowSize);
    line := line + cells + " ";
    if showAscii {
      var column := AsciiCells(data, i, rowSize);
      line := line + column;
    }
  }

  /** `to_string(dump)`: the header, then a row per `RowSize` bytes. */
  method ToString(address: nat, data: seq<Byte>, rowSize: nat, showAscii: bool) returns (out: string)
    requires rowSize > 0
    ensures out == Dump(address, data, rowSize, showAscii)
  {
    out := "0x" + Hex(address);
    out := out + " " + Decimal(|data|) + "\n";
    out := AppendRows(out, data, rowSize, showAscii);
  }

  /** The row loop `for (i = 0; i < s.size(); i += RowSize)`. */
  method AppendRows(out0: string, data: seq<Byte>, rowSize: nat, showAscii: bool) returns (out: string)
    requires rowSize > 0
    ensures out == out0 + Rows(data, 0, rowSize, showAscii)
  {
    out := out0;
    var i: nat := 0;
    while i < |data|
      invariant out + Rows(data, i, rowSize, showAscii) == out0 + Rows(data, 0, rowSize, showAscii)
      decreases |data| - i
    {
      out := AppendRow(out, data, i, rowSize, showAscii);
      i := i + rowSize;
    }
  }

  /** One turn of the row loop: the row at offset i and, unless it is the
      last, a newline. */
  method AppendRow(out: string, data: seq<Byte>, i: nat, rowSize: nat, showAscii: bool) returns (out': string)
    requires rowSize > 0 && i < |data|
    ensures out' + Rows(data, i + rowSize, rowSize, showAscii) == out + Rows(data, i, rowSize, showAscii)
  {
    var line := RowLine(data, i, rowSize, showAscii);
    if i + rowSize < |data| {
      line := line + "\n";
    }
    ghost var rest := Rows(data, i + rowSize, rowSize, showAscii);
    assert Rows(data, i, rowSize, showAscii) == line + rest;
    out' := out + line;
    assert out' + rest == out + (line + rest);
  }

  /** The rows of the dump, from offset i on, as a list: one row per
      `rowSize` bytes, rounding up. */
  function RowList(data: seq<Byte>, i: nat, rowSize: nat, showAscii: bool): (rows: seq<string>)
    requires rowSize > 0
    ensures i <= |data| ==> |rows| == CeilDiv(|data| - i, rowSize)
    decreases |data| - i
  {
    if i >= |data| then [] else [Row(data, i, rowSize, showAscii)] + RowList(data, i + rowSize, rowSize, showAscii)
  }

  /** The strings of a list joined by newlines. */
  function JoinLines(lines: seq<string>): (r: string)
  {
    if |lines| == 0 then []
    else if |lines| == 1 then lines[0]
    else lines[0] + "\n" + JoinLines(lines[1..])
  }

  /** The rows are the row list joined by newlines: a newline between two
      rows and none after the last. */
  lemma {:induction false} RowsAreJoined(data: seq<Byte>, i: nat, rowSize: nat, showAscii: bool)
    requires rowSize > 0
    ensures Rows(data, i, rowSize, showAscii) == JoinLines(RowList(data, i, rowSize, showAscii))
    decreases |data| - i
  {
    if i < |data| {
      RowsAreJoined(data, i + rowSize, rowSize, showAscii);
      var rest := RowList(data, i + rowSize, rowSize, showAscii);
      assert RowList(data, i, rowSize, showAscii)[1..] == rest;
    }
  }

  /** n / d rounded up, one d at a time. */
  function CeilDiv(n: nat, d: nat): (r: nat)
    requires d > 0
  {
    if n == 0 then 0 else if n <= d then 1 else 1 + CeilDiv(n - d, d)
  }

  /** Counting rows one `d` at a time is `(n + d - 1) / d`. */
  lemma {:induction false} CeilDivIsDivision(n: nat, d: nat)
    requires d > 0
    ensures CeilDiv(n, d) == (n + d - 1) / d
  {
    if n == 0 {
      DivUnique(d - 1, d, 0, d - 1);
    } else {
      CeilStep(n, d);
      if n > d {
        CeilDivIsDivision(n - d, d);
      }
    }
  }

  /** Rounding up: n >= 1 bytes take one row more than the n - d bytes
      after the first row of d. */
  lemma CeilStep(n: nat, d: nat)
    requires n >= 1 && d > 0
    ensures (n + d - 1) / d == if n <= d then 1 else (n - d + d - 1) / d + 1
  {
    if n <= d {
      DivUnique(n + d - 1, d, 1, n - 1);
    } else {
      DivStep(n - 1, d);
    }
  }

  /** Slot k's cell sits at characters 3k to 3k + 2 of the cells. */
  lemma {:induction false} CellsLayout(data: seq<Byte>, i: nat, j: nat, k: nat)
    requires k < j
    ensures Cells(data, i, j)[3 * k..3 * k + 3] == Slot(data, i + k)
  {
    var before := Cells(data, i, j - 1);
    var cells := Cells(data, i, j);
    assert cells == before + Slot(data, i + j - 1);
    if k < j - 1 {
      CellsLayout(data, i, j - 1, k);
      assert cells[3 * k..3 * k + 3] == before[3 * k..3 * k + 3];
    } else {
      assert cells[3 * k..3 * k + 3] == cells[|before|..];
    }
  }

  /** The two digits of a byte's cell read back as the byte. */
  lemma CellReadsBack(b: Byte)
    ensures 16 * HexDigitValue(Cell(b)[0]) + HexDigitValue(Cell(b)[1]) == b
  {
  }

  /** The ASCII column holds one character per present byte of the row,
      the byte itself when printable and '.' otherwise. */
  lemma {:induction false} AsciiColumnLayout(data: seq<Byte>, i: nat, j: nat)
    requires i <= |data|
    ensures |AsciiColumn(data, i, j)| == if i + j <= |data| then j else |data| - i
    ensures forall k :: 0 <= k < |AsciiColumn(data, i, j)| ==> AsciiColumn(data, i, j)[k] == Shown(data[i + k])
  {
    if j > 0 {
      AsciiColumnLayout(data, i, j - 1);
    }
  }

  /** A row starts with its offset as 8 hex digits (for offsets below
      16^8) and ": ". */
  lemma RowOffset(data: seq<Byte>, i: nat, rowSize: nat, showAscii: bool)
    requires i < 0x1_0000_0000
    ensures var row := Row(data, i, rowSize, showAscii);
      |row| >= 10 && row[8..10] == ": " && AllHexDigits(row[..8]) && HexValue(row[..8]) == i
  {
    HexLength(i, 8);
    HexRoundTrip(i);
    HexValueZeroPad(Hex(i), 8);
    var row := Row(data, i, rowSize, showAscii);
    assert row[..8] == ZeroPad(Hex(i), 8);
  }

  /** A number below 16^k has at most k hexadecimal digits. */
  lemma {:induction false} HexLength(n: nat, k: nat)
    requires k >= 1 && n < Pow16(k)
    ensures |Hex(n)| <= k
  {
    if n >= 16 {
      assert k >= 2;
      HexLength(n / 16, k - 1);
    }
  }

  function Pow16(k: nat): (r: nat)
  {
    if k == 0 then 1 else 16 * Pow16(k - 1)
  }

  /** A row ends with a character of its ASCII column or with the space
      before it: never with a newline. */
  lemma RowLastChar(data: seq<Byte>, i: nat, rowSize: nat, showAscii: bool)
    requires rowSize > 0 && i < |data|
    ensures var row := Row(data, i, rowSize, showAscii); |row| > 0 && row[|row| - 1] != '\n'
  {
    var head := ZeroPad(Hex(i), 8) + ": " + Cells(data, i, rowSize) + " ";
    var row := Row(data, i, rowSize, showAscii);
    if showAscii {
      AsciiColumnLayout(data, i, rowSize);
      var column := AsciiColumn(data, i, rowSize);
      assert row == head + column;
      assert row[|row| - 1] == column[|column| - 1];
    } else {
      assert row == head + [];
    }
  }

  /** A dump of a non-empty span ends with its last row: there is no
      newline after it. */
  lemma {:induction false} NoTrailingNewline(data: seq<Byte>, i: nat, rowSize: nat, showAscii: bool)
    requires rowSize > 0 && i < |data|
    ensures var rows := Rows(data, i, rowSize, showAscii); |rows| > 0 && rows[|rows| - 1] != '\n'
    decreases |data| - i
  {
    var row := Row(data, i, rowSize, showAscii);
    var rest := Rows(data, i + rowSize, rowSize, showAscii);
    var rows := Rows(data, i, rowSize, showAscii);
    if i + rowSize < |data| {
      NoTrailingNewline(data, i + rowSize, rowSize, showAscii);
      assert rows == row + "\n" + rest;
      assert rows[|rows| - 1] == rest[|rest| - 1];
    } else {
      RowLastChar(data, i, rowSize, showAscii);
      assert rest == [];
      assert rows == row + [] + [];
    }
  }
}
