/**
 * `RWBuffer`: a cursor over a borrowed byte buffer. Values are written and
 * read at the cursor (which then moves past them) or at an explicit offset
 * (which leaves the cursor alone); records are padded with zeros to the next
 * multiple of 8.
 */
module RWBuffers {
  import opened Bytes
  import opened Alignment

  /** The bytes of `a` after `memcpy(a + off, src, |src|)`. */
  function Splice(a: seq<Byte>, off: nat, src: seq<Byte>): (r: seq<Byte>)
    requires off + |src| <= |a|
    ensures |r| == |a|
  {
    a[..off] + src + a[off + |src|..]
  }

  /** Bytes outside the written range keep their values. */
  lemma SpliceKeeps(a: seq<Byte>, off: nat, src: seq<Byte>, lo: nat, hi: nat)
    requires off + |src| <= |a| && lo <= hi <= |a|
    requires hi <= off || off + |src| <= lo
    ensures Splice(a, off, src)[lo..hi] == a[lo..hi]
  {
    var r := Splice(a, off, src);
    forall j | lo <= j < hi
      ensures r[j] == a[j]
    {
      if j < off {
        assert r[j] == a[..off][j];
      } else {
        assert r[j] == a[off + |src|..][j - off - |src|];
      }
    }
  }

  /** The number of zero bytes `fill_next_align_8` writes at `off`. */
  function Pad8(off: nat): (n: nat)
    ensures n < 8
    decreases off
  {
    if off >= 8 then Pad8(off - 8) else if off == 0 then 0 else 8 - off
  }

  /** After the padding the offset is a multiple of 8. */
  lemma {:induction false} Pad8Aligns(off: nat)
    ensures (off + Pad8(off)) % 8 == 0
    decreases off
  {
    if off >= 8 {
      Pad8Aligns(off - 8);
    }
  }

  /** Reading back at the same start the integer just written gives it back:
      `put<T>(x)` followed by `get<T>()` from the same offset is the identity. */
  lemma PutGetRoundTrip(a: seq<Byte>, off: nat, x: nat, w: nat)
    requires x < Pow256(w) && off + w <= |a|
    ensures FromLE(Splice(a, off, LE(x, w))[off..off + w]) == x
  {
    FromLEOfLE(x, w);
  }

  /** A later write that starts at or after the end of an earlier one leaves
      the earlier bytes in place, so a sequence of `put`s can be read back
      field by field. */
  lemma {:induction false} LaterPutKeepsEarlier(a: seq<Byte>, o1: nat, s1: seq<Byte>, o2: nat, s2: seq<Byte>)
    requires o1 + |s1| <= o2 && o2 + |s2| <= |a|
    ensures Splice(Splice(a, o1, s1), o2, s2)[o1..o1 + |s1|] == s1
  {
    var b := Splice(a, o1, s1);
    var c := Splice(b, o2, s2);
    SpliceKeeps(b, o2, s2, o1, o1 + |s1|);
  }

  /** Two writes back to back are one write of both. */
  lemma SpliceThenNext(a: seq<Byte>, k: nat, s: seq<Byte>, t: seq<Byte>)
    requires k + |s| + |t| <= |a|
    ensures Splice(Splice(a, k, s), k + |s|, t) == Splice(a, k, s + t)
  {
    var m := Splice(a, k, s);
    assert m[..k + |s|] == a[..k] + s;
    assert m[k + |s| + |t|..] == a[k + |s| + |t|..];
  }

  /** A write inside bytes just written is a write into what was written. */
  lemma SpliceWithin(a: seq<Byte>, k: nat, s: seq<Byte>, j: nat, u: seq<Byte>)
    requires k + |s| <= |a| && j + |u| <= |s|
    ensures Splice(Splice(a, k, s), k + j, u) == Splice(a, k, Splice(s, j, u))
  {
    var m := Splice(a, k, s);
    assert m[..k + j] == a[..k] + s[..j];
    assert m[k + j + |u|..] == s[j + |u|..] + a[k + |s|..];
  }

  /** A write into the middle part of three leaves the outer two alone. */
  lemma SpliceMiddle(h: seq<Byte>, x: seq<Byte>, y: seq<Byte>, j: nat, u: seq<Byte>)
    requires j + |u| <= |x|
    ensures Splice(h + x + y, |h| + j, u) == h + Splice(x, j, u) + y
  {
    assert (h + x + y)[..|h| + j] == h + x[..j];
    assert (h + x + y)[|h| + j + |u|..] == x[j + |u|..] + y;
  }

  /** Writing nothing changes nothing. */
  lemma SpliceEmpty(a: seq<Byte>, off: nat)
    requires off <= |a|
    ensures Splice(a, off, []) == a
  {
    assert a[..off] + a[off..] == a;
  }

  /** The padding is the kernel's `(8 - addr % 8) % 8`. */
  lemma {:induction false} Pad8Closed(off: nat)
    ensures Pad8(off) == (8 - off % 8) % 8
    decreases off
  {
    if off >= 8 {
      Pad8Closed(off - 8);
      assert (off - 8) % 8 == off % 8;
    }
  }

  /** `Pad8` is the distance `upper_align(off, 8)` moves the cursor. */
  lemma {:induction false} Pad8IsUpperAlign(off: nat)
    ensures off + Pad8(off) == UpperAlign(off, 8)
  {
    Pad8Closed(off);
    var q := off / 8;
    var m := off % 8;
    assert off == 8 * q + m;
    if m == 0 {
      AlignedIsFixpoint(off, 8);
    } else {
      UpperAlignIsLeast(off, 8, 8 * q + 8);
      var r := UpperAlign(off, 8);
      assert (8 * q + 8) % 8 == 0;
      Unique(8 * q + 8, r, 8);
    }
  }

  class RWBuffer {
    /** The borrowed buffer `b`; `limit()` is its length. */
    const buf: array<Byte>
    /** The cursor `off`. */
    var off: nat

    /** `RWBuffer(b)`: the cursor starts at 0. */
    constructor (b: array<Byte>)
      ensures buf == b && off == 0
    {
      buf := b;
      off := 0;
    }

    /** `put_at(src, length, offset)`: write at an explicit offset. */
    method PutAt(src: seq<Byte>, offset: nat)
      requires offset + |src| <= buf.Length
      modifies buf
      ensures buf[..] == Splice(old(buf[..]), offset, src)
      ensures off == old(off)
    {
      WriteBytes(buf, offset, src);
    }

    /** `put_at<T>(value, offset)`: a w-byte integer at an explicit offset. */
    method PutIntAt(x: nat, w: nat, offset: nat)
      requires x < Pow256(w) && offset + w <= buf.Length
      modifies buf
      ensures buf[..] == Splice(old(buf[..]), offset, LE(x, w))
      ensures GetIntAt(offset, w) == x
      ensures off == old(off)
    {
      PutAt(LE(x, w), offset);
      PutGetRoundTrip(old(buf[..]), offset, x, w);
    }

    /** `put(src, length)`: write at the cursor and move past the bytes. */
    method Put(src: seq<Byte>)
      requires off + |src| <= buf.Length
      modifies this, buf
      ensures buf[..] == Splice(old(buf[..]), old(off), src)
      ensures off == old(off) + |src|
    {
      WriteBytes(buf, off, src);
      off := off + |src|;
    }

    /** `put<T>(value)`: a w-byte integer at the cursor. */
    method PutInt(x: nat, w: nat)
      requires x < Pow256(w) && off + w <= buf.Length
      modifies this, buf
      ensures buf[..] == Splice(old(buf[..]), old(off), LE(x, w))
      ensures off == old(off) + w
      ensures GetIntAt(old(off), w) == x
    {
      Put(LE(x, w));
      PutGetRoundTrip(old(buf[..]), old(off), x, w);
    }

    /** `get_at(dest, length, offset)`: the bytes at an explicit offset. */
    function GetAt(offset: nat, n: nat): (r: seq<Byte>)
      requires offset + n <= buf.Length
      reads buf
      ensures |r| == n
    {
      buf[offset..offset + n]
    }

    /** `get_at<T>(offset)`: the w-byte integer at an explicit offset. */
    function GetIntAt(offset: nat, w: nat): (x: nat)
      requires offset + w <= buf.Length
      reads buf
      ensures x < Pow256(w)
    {
      FromLE(GetAt(offset, w))
    }

    /** `peek<T>(offset)`: the w-byte integer `offset` bytes past the cursor. */
    function Peek(offset: nat, w: nat): (x: nat)
      requires off + offset + w <= buf.Length
      reads this, buf
      ensures x < Pow256(w)
    {
      GetIntAt(off + offset, w)
    }

    /** `get(dest, length)`: read at the cursor and move past the bytes. */
    method Get(n: nat) returns (r: seq<Byte>)
      requires off + n <= buf.Length
      modifies this
      ensures r == GetAt(old(off), n)
      ensures off == old(off) + n
    {
      r := buf[off..off + n];
      off := off + n;
    }

    /** `get<T>()`: the w-byte integer at the cursor. */
    method GetInt(w: nat) returns (x: nat)
      requires off + w <= buf.Length
      modifies this
      ensures x == GetIntAt(old(off), w)
      ensures off == old(off) + w
    {
      var bytes := Get(w);
      x := FromLE(bytes);
    }

    /** `skip(n)`: move the cursor without touching the bytes. */
    method Skip(n: nat)
      modifies this
      ensures off == old(off) + n
    {
      off := off + n;
    }

    /** `fill_next_align_8()`: zero the bytes up to the next multiple of 8
        and move the cursor there; at an aligned cursor nothing is written. */
    method FillNextAlign8()
      requires off + Pad8(off) <= buf.Length
      modifies this, buf
      ensures off == old(off) + Pad8(old(off)) && off % 8 == 0
      ensures buf[..] == Splice(old(buf[..]), old(off), Zeros(Pad8(old(off))))
    {
      Pad8IsUpperAlign(off);
      var len := UpperAlign(off, 8) - off;
      if len == 0 {
        SpliceEmpty(buf[..], off);
        assert Zeros(0) == [];
        return;
      }
      WriteBytes(buf, off, Zeros(len));
      off := off + len;
    }

    /** `skip_next_align_8()`: move the cursor to the offset
        `fill_next_align_8` reaches, writing nothing. */
    method SkipNextAlign8()
      modifies this
      ensures off == old(off) + Pad8(old(off)) && off % 8 == 0
    {
      Pad8IsUpperAlign(off);
      off := UpperAlign(off, 8);
    }
  }
}
