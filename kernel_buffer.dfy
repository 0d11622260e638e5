/**
 * The output buffer of the device serializer (`buffer_t` of the DPA
 * kernel): the start `p` of a device buffer, a write pointer `cur_p` and a
 * limit. The `put_uN` / `get_uN` helpers write and read N-bit integers in
 * the device's little-endian byte order at the write pointer (which then
 * moves past them) or at an offset from `p`; `fill_next_align_8` pads with
 * zeros up to the next 8-aligned address through a switch of 1-, 2- and
 * 4-byte stores.
 */
module KernelBuffers {
  import opened Bytes
  import opened RWBuffers

  /** Moving an address by a multiple of 8 does not change its padding. */
  lemma {:induction false} Pad8Shift(k: nat, x: nat)
    ensures Pad8(8 * k + x) == Pad8(x)
  {
    if k > 0 {
      Pad8Shift(k - 1, x);
      assert 8 * k + x - 8 == 8 * (k - 1) + x;
    }
  }

  /** The little-endian image of zero is all zeros. */
  lemma {:induction false} LEZero(w: nat)
    ensures LE(0, w) == Zeros(w)
  {
    if w > 0 {
      LEZero(w - 1);
      assert Zeros(w) == [0] + Zeros(w - 1);
    }
  }

  lemma ZerosAdd(n: nat, w: nat)
    ensures Zeros(n) + Zeros(w) == Zeros(n + w)
  {
  }

  /** The widths the `PUT_DECL` / `GET_DECL` macros are instantiated at,
      in bytes. */
  predicate Width(w: nat)
  {
    w == 1 || w == 2 || w == 4 || w == 8
  }

  class DeviceBuffer {
    /** The device memory the buffer covers, from `p` on. */
    const mem: array<Byte>
    /** The device address of `p`. */
    const addr: nat
    /** `lim`, which the helpers never consult. */
    const lim: nat
    /** `cur_off(b)`: `cur_p - p`. */
    var cur: nat

    /** `p` set to the output buffer and `cur_p` to `p + start`. */
    constructor (mem: array<Byte>, addr: nat, lim: nat, start: nat)
      ensures this.mem == mem && this.addr == addr && this.lim == lim && cur == start
    {
      this.mem := mem;
      this.addr := addr;
      this.lim := lim;
      cur := start;
    }

    /** The w-byte integer at offset `off` from `p`. */
    function UAt(off: nat, w: nat): (x: nat)
      requires off + w <= mem.Length
      reads mem
      ensures x < Pow256(w)
    {
      FromLE(mem[off..off + w])
    }

    /** `put_uN(b, v)`: v's N/8 bytes at the write pointer, which moves past
        them. */
    method PutU(x: nat, w: nat)
      requires Width(w) && x < Pow256(w) && cur + w <= mem.Length
      modifies this, mem
      ensures mem[..] == Splice(old(mem[..]), old(cur), LE(x, w))
      ensures cur == old(cur) + w
      ensures UAt(old(cur), w) == x
    {
      WriteBytes(mem, cur, LE(x, w));
      PutGetRoundTrip(old(mem[..]), cur, x, w);
      cur := cur + w;
    }

    /** `put_uN_at(b, v, off)`: v's bytes at offset `off` from `p`; the
        write pointer stays. */
    method PutUAt(x: nat, w: nat, off: nat)
      requires Width(w) && x < Pow256(w) && off + w <= mem.Length
      modifies mem
      ensures mem[..] == Splice(old(mem[..]), off, LE(x, w))
      ensures UAt(off, w) == x
    {
      WriteBytes(mem, off, LE(x, w));
      PutGetRoundTrip(old(mem[..]), off, x, w);
    }

    /** `get_uN(b)`: the integer at the write pointer, which moves past it. */
    method GetU(w: nat) returns (x: nat)
      requires Width(w) && cur + w <= mem.Length
      modifies this
      ensures x == UAt(old(cur), w) && cur == old(cur) + w
    {
      x := FromLE(mem[cur..cur + w]);
      cur := cur + w;
    }

    /** `get_uN_at(b, off)`: the integer at offset `off` from `p`. */
    method GetUAt(w: nat, off: nat) returns (x: nat)
      requires Width(w) && off + w <= mem.Length
      ensures x == UAt(off, w)
    {
      x := FromLE(mem[off..off + w]);
    }

    /** `put(b, d_src, len)`: `d_memcpy` of the bytes to the write pointer,
        which moves past them. */
    method Put(src: seq<Byte>)
      requires cur + |src| <= mem.Length
      modifies this, mem
      ensures mem[..] == Splice(old(mem[..]), old(cur), src)
      ensures cur == old(cur) + |src|
    {
      WriteBytes(mem, cur, src);
      cur := cur + |src|;
    }

    /** `get(b, d_dest, len)`: the bytes at the write pointer, which moves
        past them. */
    method Get(n: nat) returns (r: seq<Byte>)
      requires cur + n <= mem.Length
      modifies this
      ensures r == old(mem[cur..cur + n]) && cur == old(cur) + n
    {
      r := mem[cur..cur + n];
      cur := cur + n;
    }

    /** `skip(b, n)`. */
    method Skip(n: nat)
      modifies this
      ensures cur == old(cur) + n
    {
      cur := cur + n;
    }

    /** `skip_next_align_8(b)`: the write pointer moved up to the next
        8-aligned address, nothing written. */
    method SkipNextAlign8()
      modifies this
      ensures cur == old(cur) + Pad8(addr + old(cur)) && (addr + cur) % 8 == 0
    {
      Pad8Aligns(addr + cur);
      cur := cur + Pad8(addr + cur);
    }

    /** `fill_next_align_8(b)`: the padding to the next 8-aligned address,
        written as zeros by the switch's 1-, 2- and 4-byte stores; every
        case adds up to the padding. On an 8-aligned buffer the padding is
        the one the record format uses for the offset. */
    method FillNextAlign8()
      requires cur + Pad8(addr + cur) <= mem.Length
      modifies this, mem
      ensures cur == old(cur) + Pad8(addr + old(cur)) && (addr + cur) % 8 == 0
      ensures mem[..] == Splice(old(mem[..]), old(cur), Zeros(Pad8(addr + old(cur))))
      ensures addr % 8 == 0 ==> Pad8(addr + old(cur)) == Pad8(old(cur))
    {
      var padding := Pad8(addr + cur);
      Pad8Aligns(addr + cur);
      if addr % 8 == 0 {
        Pad8Shift(addr / 8, cur);
      }
      FillZeros(padding);
    }

    /** The switch of `fill_next_align_8` on the padding. */
    method FillZeros(padding: nat)
      requires padding < 8 && cur + padding <= mem.Length
      modifies this, mem
      ensures cur == old(cur) + padding
      ensures mem[..] == Splice(old(mem[..]), old(cur), Zeros(padding))
    {
      ghost var a := mem[..];
      ghost var start := cur;
      if padding == 7 {
        PutZeros(1, a, start, 0);
        PutZeros(2, a, start, 1);
        PutZeros(4, a, start, 3);
      } else if padding == 6 {
        PutZeros(2, a, start, 0);
        PutZeros(4, a, start, 2);
      } else if padding == 5 {
        PutZeros(1, a, start, 0);
        PutZeros(4, a, start, 1);
      } else if padding == 4 {
        PutZeros(4, a, start, 0);
      } else if padding == 3 {
        PutZeros(1, a, start, 0);
        PutZeros(2, a, start, 1);
      } else if padding == 2 {
        PutZeros(2, a, start, 0);
      } else if padding == 1 {
        PutZeros(1, a, start, 0);
      } else {
        SpliceEmpty(a, start);
        assert Zeros(0) == [];
      }
    }

    /** One `put_uN(b, 0)` of the padding switch: after the `n` zeros
        written from `start`, w more. */
    method PutZeros(w: nat, ghost a: seq<Byte>, ghost start: nat, ghost n: nat)
      requires Width(w) && cur == start + n && cur + w <= mem.Length && |a| == mem.Length
      requires mem[..] == Splice(a, start, Zeros(n)) || (n == 0 && mem[..] == a)
      modifies this, mem
      ensures cur == old(cur) + w
      ensures mem[..] == Splice(a, start, Zeros(n + w))
    {
      LEZero(w);
      if n == 0 {
        SpliceEmpty(a, start);
        assert Zeros(0) == [];
      }
      PutU(0, w);
      SpliceThenNext(a, start, Zeros(n), Zeros(w));
      ZerosAdd(n, w);
    }
  }
}
