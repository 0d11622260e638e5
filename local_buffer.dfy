/**
 * `LocalBuffer`: a region of local memory. Memory is an array of bytes
 * indexed by address; a buffer is a `MemoryRegion` over it.
 */
module LocalBuffers {
  import opened Bytes
  import opened MemoryRegions

  /** The region lies inside the modelled memory. */
  predicate InMemory(mem: array<Byte>, buf: MemoryRegion)
  {
    buf.base + buf.len <= mem.Length
  }

  /** The bytes of the buffer. */
  function View(mem: array<Byte>, buf: MemoryRegion): (v: seq<Byte>)
    requires InMemory(mem, buf)
    reads mem
    ensures |v| == buf.len
  {
    mem[buf.base..buf.base + buf.len]
  }

  /** `operator[]`: index `i` must be below the buffer size. */
  function At(mem: array<Byte>, buf: MemoryRegion, i: nat): (b: Byte)
    requires InMemory(mem, buf) && i < buf.len
    reads mem
    ensures b == View(mem, buf)[i]
  {
    mem[buf.base + i]
  }

  /** `reset`: zero the buffer; an empty region is left alone. */
  method Reset(mem: array<Byte>, buf: MemoryRegion)
    requires InMemory(mem, buf)
    modifies mem
    ensures mem[..] == old(mem[..])[..buf.base] + Zeros(buf.len) + old(mem[..])[buf.base + buf.len..]
    ensures View(mem, buf) == Zeros(buf.len)
    ensures buf.Empty() ==> mem[..] == old(mem[..])
    ensures forall k :: 0 <= k < mem.Length ==>
      mem[k] == if buf.base <= k < buf.base + buf.len then 0 else old(mem[k])
  {
    if buf.Empty() {
      assert old(mem[..])[..0] + [] + old(mem[..])[0..] == old(mem[..]);
      return;
    }
    FillBytes(mem, buf.base, buf.len, 0);
    assert seq(buf.len, _ => 0) == Zeros(buf.len);
    assert View(mem, buf) == mem[..][buf.base..buf.base + buf.len];
    forall k | 0 <= k < mem.Length
      ensures mem[k] == if buf.base <= k < buf.base + buf.len then 0 else old(mem[k])
    {
      assert mem[k] == mem[..][k];
    }
  }
}
