/**
 * `SimpleAllocator`: a bump allocator over one memory region that keeps its
 * position 8-byte aligned.
 */
module SimpleAllocators {
  import opened Arith
  import opened Alignment
  import opened MemoryRegions

  const ALIGNMENT: nat := 8

  /** The position after allocating `size` bytes at `pos`. */
  function NextPos(pos: nat, size: nat): (r: nat)
  {
    UpperAlign(pos + size, ALIGNMENT)
  }

  /** The offsets a run of allocations returns, starting from `pos`. */
  function Offsets(pos: nat, sizes: seq<nat>): (r: seq<nat>)
    ensures |r| == |sizes|
    decreases |sizes|
  {
    if sizes == [] then [] else [pos] + Offsets(NextPos(pos, sizes[0]), sizes[1..])
  }

  /** Allocations made one after another are disjoint and strictly increasing:
      each starts at or after the end of every earlier one, and every offset
      after an aligned start is 8-aligned. */
  lemma {:induction false} OffsetsDisjoint(pos: nat, sizes: seq<nat>, i: nat, j: nat)
    requires pos % ALIGNMENT == 0
    requires i < j < |sizes|
    ensures Offsets(pos, sizes)[i] + sizes[i] <= Offsets(pos, sizes)[j]
    ensures Offsets(pos, sizes)[j] % ALIGNMENT == 0
    decreases |sizes|
  {
    var next := NextPos(pos, sizes[0]);
    if i == 0 {
      OffsetsAtLeast(next, sizes[1..], j - 1);
    } else {
      OffsetsDisjoint(next, sizes[1..], i - 1, j - 1);
    }
  }

  /** Every offset of a run is at least where the run started, and aligned. */
  lemma {:induction false} OffsetsAtLeast(pos: nat, sizes: seq<nat>, j: nat)
    requires pos % ALIGNMENT == 0
    requires j < |sizes|
    ensures pos <= Offsets(pos, sizes)[j]
    ensures Offsets(pos, sizes)[j] % ALIGNMENT == 0
    decreases |sizes|
  {
    if j > 0 {
      OffsetsAtLeast(NextPos(pos, sizes[0]), sizes[1..], j - 1);
    }
  }

  class SimpleAllocator {
    /** `mr.handle()`, the region's base address. */
    const handle: nat
    /** `mr.size()`. */
    const lim: nat
    var pos: nat

    predicate Valid()
      reads this
    {
      pos % ALIGNMENT == 0
    }

    constructor (mr: MemoryRegion)
      ensures handle == mr.base && lim == mr.len && pos == 0 && Valid()
    {
      handle := mr.base;
      lim := mr.len;
      pos := 0;
    }

    /** `allocate`: hand out `[handle + pos, handle + pos + size)` and move
        `pos` to the next multiple of 8. */
    method Allocate(size: nat) returns (res: nat)
      requires Valid()
      requires size > 0 && pos < lim && pos + size <= lim
      modifies this
      ensures Valid()
      ensures res == handle + old(pos) && pos == NextPos(old(pos), size)
      ensures old(pos) < pos && old(pos) + size <= pos < old(pos) + size + ALIGNMENT
    {
      var p := pos;
      pos := UpperAlign(p + size, ALIGNMENT);
      res := handle + p;
    }

    /** `allocated`: the bytes used so far, always a multiple of 8. */
    method Allocated() returns (r: nat)
      requires Valid()
      ensures r == pos && r % ALIGNMENT == 0
    {
      return pos;
    }
  }
}
