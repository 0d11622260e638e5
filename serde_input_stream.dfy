/**
 * The Java reader of serialized records, `SerdeInputStream`. A record on
 * the stream starts with its total length as a little-endian 64-bit
 * integer (the `total_length` the serializer writes at offset 0);
 * `readObject` reads those 8 bytes into a reused 1 MiB buffer, rejects a
 * length above 1 MiB, reads the remaining `length - 8` bytes behind them and
 * hands the buffer to the deserializer.
 *
 * Java bytes are signed. The underlying `InputStream` is modelled by the
 * bytes it has left; a `read` returns some non-empty prefix of them, or -1
 * at the end of the stream.
 */
module SerdeStream {
  import opened Wrappers
  import opened Bytes

  /** A Java `byte`. */
  type JByte = x: int | -128 <= x < 128

  const BUFFER_SIZE: nat := 0x10_0000

  const INT_MIN: int := -0x8000_0000
  const INT_MOD: int := 0x1_0000_0000

  /** `b & 0xff`: the unsigned value of a Java byte. */
  function Unsigned(b: JByte): (u: Byte)
    ensures u % 256 == b % 256
  {
    if b < 0 then b + 256 else b
  }

  /** `(byte) u`: the Java byte with the same low 8 bits. */
  function Signed(u: Byte): (b: JByte)
    ensures Unsigned(b) == u
  {
    if u >= 128 then u - 256 else u
  }

  function UnsignedAll(s: seq<JByte>): (r: seq<Byte>)
    ensures |r| == |s| && forall i :: 0 <= i < |s| ==> r[i] == Unsigned(s[i])
  {
    if s == [] then [] else [Unsigned(s[0])] + UnsignedAll(s[1..])
  }

  function SignedAll(s: seq<Byte>): (r: seq<JByte>)
    ensures |r| == |s| && forall i :: 0 <= i < |s| ==> r[i] == Signed(s[i])
  {
    if s == [] then [] else [Signed(s[0])] + SignedAll(s[1..])
  }

  /** `getLengthOfCurrentObject`: bytes 0 to 6 unsigned, byte 7 signed
      shifted by 56, or-ed together: the signed little-endian value of the
      first 8 bytes. */
  function LengthOf(b: seq<JByte>): (length: int)
    requires |b| >= 8
    ensures -0x8000_0000_0000_0000 <= length < 0x8000_0000_0000_0000
  {
    b[7] * Pow256(7) + FromLE(UnsignedAll(b[..7]))
  }

  /** The 8 bytes a 64-bit signed value is written as, least significant
      first, as Java bytes. */
  function LongBytes(x: int): (b: seq<JByte>)
    requires -0x8000_0000_0000_0000 <= x < 0x8000_0000_0000_0000
    ensures |b| == 8
  {
    Pow256Widths();
    SignedAll(LE(if x < 0 then x + U64_MOD else x, 8))
  }

  /** The low n bytes and the top byte of an n+1-byte image. */
  lemma {:induction false} FromLESnoc(s: seq<Byte>)
    requires |s| >= 1
    ensures FromLE(s) == FromLE(s[..|s| - 1]) + s[|s| - 1] * Pow256(|s| - 1)
  {
    var n := |s|;
    if n > 1 {
      var t := s[1..];
      FromLESnoc(t);
      assert t[..n - 2] == s[..n - 1][1..];
      var low := FromLE(t[..n - 2]);
      var top := s[n - 1] * Pow256(n - 2);
      assert FromLE(s) == s[0] + 256 * (low + top);
      assert FromLE(s[..n - 1]) == s[0] + 256 * low;
      assert 256 * top == s[n - 1] * Pow256(n - 1);
    }
  }

  lemma UnsignedOfSigned(s: seq<Byte>)
    ensures UnsignedAll(SignedAll(s)) == s
  {
  }

  /** Decoding the bytes of any 64-bit value gives the value back. */
  lemma LengthOfLongBytes(x: int)
    requires -0x8000_0000_0000_0000 <= x < 0x8000_0000_0000_0000
    ensures LengthOf(LongBytes(x)) == x
  {
    Pow256Widths();
    var u := if x < 0 then x + U64_MOD else x;
    var le := LE(u, 8);
    FromLEOfLE(u, 8);
    FromLESnoc(le);
    UnsignedOfSigned(le);
    var b := LongBytes(x);
    assert UnsignedAll(b[..7]) == le[..7] by {
      assert b[..7] == SignedAll(le)[..7];
      assert UnsignedAll(b[..7]) == UnsignedAll(SignedAll(le))[..7];
    }
    assert Pow256(7) == 0x100_0000_0000_0000 by {
      assert Pow256(8) == 256 * Pow256(7);
    }
  }

  /** A `total_length` written as an unsigned 64-bit integer is read back
      as the same length whenever it is below 2^63. */
  lemma LengthOfWrittenLength(total: nat)
    requires total < 0x8000_0000_0000_0000
    ensures Pow256(8) == U64_MOD
    ensures LengthOf(SignedAll(LE(total, 8))) == total
  {
    Pow256Widths();
    LengthOfLongBytes(total);
  }

  /** `(int) x` for a `long`: the low 32 bits as a signed int. */
  function WrapInt(x: int): (r: int)
    ensures INT_MIN <= r < -INT_MIN
    ensures (x - r) % INT_MOD == 0
    ensures INT_MIN <= x < -INT_MIN ==> r == x
  {
    (x - INT_MIN) % INT_MOD + INT_MIN
  }

  /** `(int) length - 8` in Java `int` arithmetic: the byte count
      `readObject` asks for after the header. */
  function BodyLength(length: int): (n: int)
  {
    WrapInt(WrapInt(length) - 8)
  }

  lemma BodyLengthOfRecord(length: int)
    requires 8 <= length <= BUFFER_SIZE
    ensures BodyLength(length) == length - 8
  {
  }

  /** The `InputStream` a `SerdeInputStream` reads from. */
  class InputStream {
    /** The bytes still to come before the end of the stream. */
    var rest: seq<JByte>

    constructor (data: seq<JByte>)
      ensures rest == data
    {
      rest := data;
    }

    /** `read(buf, off, len)`: a request of 0 bytes returns 0; at the end
        of the stream it returns -1; otherwise it delivers between 1 and
        `len` of the next bytes. */
    method Read(buf: array<JByte>, off: nat, len: nat) returns (rc: int)
      requires off + len <= buf.Length
      modifies this, buf
      ensures len == 0 ==> rc == 0
      ensures len > 0 && old(rest) == [] ==> rc == -1
      ensures len > 0 && old(rest) != [] ==> 1 <= rc <= len && rc <= |old(rest)|
      ensures rc <= 0 ==> rest == old(rest) && buf[..] == old(buf[..])
      ensures rc > 0 ==>
        rest == old(rest)[rc..] && buf[..] == old(buf[..])[..off] + old(rest)[..rc] + old(buf[..])[off + rc..]
    {
      if len == 0 {
        return 0;
      }
      if rest == [] {
        return -1;
      }
      var most := if len < |rest| then len else |rest|;
      rc :| 1 <= rc <= most;
      forall j | off <= j < off + rc {
        buf[j] := rest[j - off];
      }
      assert buf[..] == old(buf[..])[..off] + rest[..rc] + old(buf[..])[off + rc..];
      rest := rest[rc..];
    }
  }

  class SerdeInputStream {
    var input: InputStream
    var reuseBuffer: array<JByte>

    ghost predicate Valid()
      reads this
    {
      reuseBuffer.Length == BUFFER_SIZE
    }

    constructor (input: InputStream)
      ensures Valid() && this.input == input && fresh(reuseBuffer)
    {
      this.input := input;
      reuseBuffer := new JByte[BUFFER_SIZE](_ => 0);
    }

    /** `readInto(buf, offset, length)`: reads exactly `length` bytes to
        `buf[offset..]`, looping over partial reads; the end of the stream
        first raises `EOFException`. Bounds `read` refuses raise
        `IndexOutOfBoundsException` before anything is read. */
    method ReadInto(buf: array<JByte>, offset: int, length: int) returns (r: Result<()>)
      modifies input, buf
      ensures r.Ok? <==> 0 <= offset && 0 <= length && offset + length <= buf.Length && length <= |old(input.rest)|
      ensures !(0 <= offset && 0 <= length && offset + length <= buf.Length) ==>
        r == Err("IndexOutOfBoundsException") && input.rest == old(input.rest) && buf[..] == old(buf[..])
      ensures r.Ok? ==>
        input.rest == old(input.rest)[length..] && buf[..] == old(buf[..])[..offset] + old(input.rest)[..length] + old(buf[..])[offset + length..]
      ensures r.Err? && 0 <= offset && 0 <= length && offset + length <= buf.Length ==>
        r == Err("EOFException") && input.rest == []
    {
      if offset < 0 || length < 0 || offset + length > buf.Length {
        return Err("IndexOutOfBoundsException");
      }
      ghost var data := input.rest;
      ghost var before := buf[..];
      var off: nat := offset;
      var remain: nat := length;
      while true
        invariant offset <= off && off + remain == offset + length
        invariant off - offset <= |data| && input.rest == data[off - offset..]
        invariant buf[..] == before[..offset] + data[..off - offset] + before[off..]
        decreases remain
      {
        ghost var got := buf[..];
        var rc := input.Read(buf, off, remain);
        if rc == -1 {
          return Err("EOFException");
        }
        assert buf[..] == before[..offset] + data[..off + rc - offset] + before[off + rc..] by {
          assert data[..off + rc - offset] == data[..off - offset] + data[off - offset..][..rc];
          assert got[..off] == before[..offset] + data[..off - offset];
          assert got[off + rc..] == before[off + rc..];
        }
        off := off + rc;
        remain := remain - rc;
        if remain == 0 {
          return Ok(());
        }
      }
    }

    /** `readObject`: the 8-byte length, then the rest of the record behind
        it in the same buffer; a length above 1 MiB raises "Too long" after
        only the header was read. On success the buffer starts with the
        record's `8 + BodyLength(length)` bytes. */
    method ReadObject() returns (r: Result<seq<JByte>>)
      requires Valid()
      modifies input, reuseBuffer
      ensures Valid()
      ensures |old(input.rest)| < 8 ==> r == Err("EOFException")
      ensures |old(input.rest)| >= 8 && LengthOf(old(input.rest)) > BUFFER_SIZE ==>
        r == Err("Too long") && input.rest == old(input.rest)[8..]
      ensures r.Ok? <==>
        |old(input.rest)| >= 8 && LengthOf(old(input.rest)) <= BUFFER_SIZE
        && 0 <= BodyLength(LengthOf(old(input.rest))) <= BUFFER_SIZE - 8
        && 8 + BodyLength(LengthOf(old(input.rest))) <= |old(input.rest)|
      ensures r.Ok? ==>
        var n := 8 + BodyLength(LengthOf(old(input.rest)));
        |r.value| == BUFFER_SIZE && r.value[..n] == old(input.rest)[..n] && input.rest == old(input.rest)[n..]
    {
      ghost var data := input.rest;
      var h := ReadInto(reuseBuffer, 0, 8);
      if h.Err? {
        return Err(h.reason);
      }
      var length := LengthOf(reuseBuffer[..8]);
      assert reuseBuffer[..8][..7] == data[..7];
      if length > BUFFER_SIZE {
        return Err("Too long");
      }
      ghost var header := reuseBuffer[..];
      var b := ReadInto(reuseBuffer, 8, WrapInt(WrapInt(length) - 8));
      if b.Err? {
        return Err(b.reason);
      }
      var n := 8 + BodyLength(length);
      assert reuseBuffer[..n] == data[..n] by {
        assert reuseBuffer[..n] == header[..8] + data[8..][..n - 8];
      }
      return Ok(reuseBuffer[..]);
    }
  }
}
