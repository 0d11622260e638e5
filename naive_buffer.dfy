/**
 * Owned and borrowed local buffers, and `Buffers`: one owned allocation cut
 * into equal pieces.
 */
module NaiveBuffers {
  import opened Bytes
  import opened Arith
  import opened MemoryRegions
  import opened Alignment

  /** A buffer that owns its memory. `base` is the address the allocator
      returned; `data[k]` is the byte at address `base + k`. */
  class OwnedBuffer {
    const base: nat
    const data: array<Byte>

    function Region(): (r: MemoryRegion)
    {
      MemoryRegion(base, data.Length)
    }

    /** `OwnedBuffer(size)`: exactly `size` bytes. */
    constructor (addr: nat, size: nat)
      ensures base == addr && data.Length == size && fresh(data)
    {
      base := addr;
      data := new Byte[size];
    }

    /** `OwnedBuffer(size, align)`: the size rounded up to the alignment. */
    constructor Aligned(addr: nat, size: nat, align: nat)
      requires align > 0
      ensures base == addr && data.Length == UpperAlign(size, align) && fresh(data)
      ensures size <= data.Length < size + align && data.Length % align == 0
    {
      base := addr;
      data := new Byte[UpperAlign(size, align)];
    }

    /** `borrow`: a non-owning view of the same range. */
    function Borrow(): (b: MemoryRegion)
      ensures b.base == base && b.len == data.Length
      ensures !b.Empty() ==> b.Within(Region()) && Region().Within(b)
    {
      MemoryRegion(base, data.Length)
    }
  }

  /** Piece `i` of `n` pieces of length `piece` starting at `addr`; the
      pointer loop yields no piece at all when `piece` is 0. */
  function Pieces(addr: nat, n: nat, piece: nat): (ps: seq<MemoryRegion>)
    ensures |ps| == (if piece == 0 then 0 else n)
  {
    if piece == 0 then [] else seq(n, i requires 0 <= i < n => MemoryRegion(addr + i * piece, piece))
  }

  /** Pieces are laid out back to back: each ends at or before the start of
      every later one, so they are pairwise disjoint. */
  lemma PiecesDisjoint(addr: nat, n: nat, piece: nat, i: nat, j: nat)
    requires i < j < |Pieces(addr, n, piece)|
    ensures Pieces(addr, n, piece)[i].base + piece <= Pieces(addr, n, piece)[j].base
  {
    MulMono(i + 1, j, piece);
    assert (i + 1) * piece == i * piece + piece;
  }

  /** Every piece lies inside the owned region of `n * piece` bytes. */
  lemma PiecesWithin(addr: nat, n: nat, piece: nat, i: nat)
    requires i < |Pieces(addr, n, piece)|
    ensures Pieces(addr, n, piece)[i].Within(MemoryRegion(addr, n * piece))
  {
    MulMono(i + 1, n, piece);
    assert (i + 1) * piece == i * piece + piece;
  }

  /** `piece * k` bytes cut into pieces of `piece` bytes are `k` pieces. */
  lemma PiecesCount(k: nat, piece: nat)
    ensures piece > 0 ==> (piece * k) / piece == k
  {
    if piece > 0 {
      MulDivCancel(k, piece);
      assert piece * k == k * piece;
    }
  }

  /** `Buffers(n, piece_len)`: one allocation of `piece_len * n` bytes and one
      handle per piece. */
  class Buffers {
    const owned: OwnedBuffer
    const pieceLen: nat
    const handles: seq<MemoryRegion>

    /** The handles are exactly the pieces of the owned allocation. */
    predicate Valid()
    {
      handles == Pieces(owned.base, |handles|, pieceLen) &&
      owned.data.Length == pieceLen * |handles|
    }

    constructor (addr: nat, n: nat, piece: nat)
      ensures Valid()
      ensures owned.base == addr && owned.data.Length == piece * n && fresh(owned.data)
      ensures pieceLen == piece
      ensures handles == Pieces(addr, n, piece)
    {
      owned := new OwnedBuffer(addr, piece * n);
      pieceLen := piece;
      var hs: seq<MemoryRegion> := [];
      var p := 0;
      while p < piece * n
        invariant p == |hs| * piece && |hs| <= n
        invariant hs == Pieces(addr, |hs|, piece)
        decreases piece * n - p
      {
        assert piece != 0 && |hs| < n;
        hs := hs + [MemoryRegion(addr + p, piece)];
        p := p + piece;
        assert |hs| * piece == p;
      }
      handles := hs;
      if piece > 0 && |hs| < n {
        MulStrict(|hs|, n, piece);
      }
      assert piece > 0 ==> |hs| == n;
    }

    /** `n_elements`: one handle per piece, so the count is how many
        `piece_len` pieces the owned allocation was cut into. */
    function NumElements(): (k: nat)
      requires Valid()
      ensures handles == Pieces(owned.base, k, pieceLen)
      ensures owned.data.Length == pieceLen * k
      ensures pieceLen > 0 ==> k == owned.data.Length / pieceLen
    {
      PiecesCount(|handles|, pieceLen);
      |handles|
    }
  }
}
