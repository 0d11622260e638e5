/**
 * Address ranges: `MemoryRegion` (a base address and a length) and the
 * overlap and containment tests the transports use to check remote buffers.
 */
module MemoryRegions {
  /** `[base, base + len)`. The null region (base 0, length 0) is "empty". */
  datatype MemoryRegion = MemoryRegion(base: nat, len: nat)
  {
    predicate Empty() { base == 0 && len == 0 }
    /** `other` lies inside this region; false when either region is empty. */
    predicate Contain(other: MemoryRegion)
    {
      !Empty() && !other.Empty() && IsContain(base, len, other.base, other.len)
    }
    /** This region lies inside `other`. */
    predicate Within(other: MemoryRegion)
    {
      !Empty() && !other.Empty() && other.Contain(this)
    }
    predicate Overlap(other: MemoryRegion)
    {
      !Empty() && !other.Empty() && IsOverlap(base, len, other.base, other.len)
    }
  }

  /** A region exported for remote access, with its opaque access descriptor. */
  datatype RemoteBuffer = RemoteBuffer(region: MemoryRegion, desc: string)

  /** `operator==`, inherited by `RemoteBuffer`: base and length only. */
  predicate SameRegion(a: RemoteBuffer, b: RemoteBuffer)
  {
    a.region.base == b.region.base && a.region.len == b.region.len
  }

  function Max(a: nat, b: nat): (r: nat) { if a >= b then a else b }
  function Min(a: nat, b: nat): (r: nat) { if a <= b then a else b }

  /** `is_overlap`: the later start is at most the earlier end. */
  predicate IsOverlap(a: nat, aLen: nat, b: nat, bLen: nat)
  {
    Max(a, b) <= Min(a + aLen, b + bLen)
  }

  /** `is_contain`: `[b, b + bLen)` lies inside `[a, a + aLen)`. */
  predicate IsContain(a: nat, aLen: nat, b: nat, bLen: nat)
  {
    a <= b && b + bLen <= a + aLen
  }

  /** Containment is reflexive on non-empty regions ... */
  lemma ContainReflexive(r: MemoryRegion)
    ensures r.Contain(r) <==> !r.Empty()
  {
  }

  /** ... and transitive. */
  lemma ContainTransitive(a: MemoryRegion, b: MemoryRegion, c: MemoryRegion)
    requires a.Contain(b) && b.Contain(c)
    ensures a.Contain(c)
  {
  }

  /** `within` is `contain` seen from the other side. */
  lemma WithinIsConverseOfContain(a: MemoryRegion, b: MemoryRegion)
    ensures a.Within(b) <==> b.Contain(a)
  {
  }

  /** The empty region contains, lies within and overlaps nothing. */
  lemma EmptyRelatesToNothing(e: MemoryRegion, r: MemoryRegion)
    requires e.Empty()
    ensures !e.Contain(r) && !r.Contain(e)
    ensures !e.Within(r) && !r.Within(e)
    ensures !e.Overlap(r) && !r.Overlap(e)
  {
  }

  /** Containment implies overlap. */
  lemma ContainImpliesOverlap(a: MemoryRegion, b: MemoryRegion)
    requires a.Contain(b)
    ensures a.Overlap(b) && b.Overlap(a)
  {
  }

  /** Overlap is symmetric. */
  lemma OverlapSymmetric(a: MemoryRegion, b: MemoryRegion)
    ensures a.Overlap(b) <==> b.Overlap(a)
  {
  }

  /** The test uses <=, so two regions that only touch end to start count as
      overlapping, exactly when the first ends where the second begins. */
  lemma TouchingRegionsOverlap(a: MemoryRegion, b: MemoryRegion)
    requires !a.Empty() && !b.Empty() && a.base + a.len == b.base
    ensures a.Overlap(b)
  {
  }

  /** Two remote buffers over the same range compare equal whatever their
      descriptors. */
  lemma EqualityIgnoresDescriptor(a: RemoteBuffer, b: RemoteBuffer)
    ensures SameRegion(a, b) <==> a.region == b.region
  {
  }
}
