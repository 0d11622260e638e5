/**
 * `BufferPool`: a FIFO free list over the pieces of one `Buffers`
 * allocation. Every piece handed out or taken back is zeroed.
 */
module BufferPools {
  import opened Bytes
  import opened Wrappers
  import opened MemoryRegions
  import LocalBuffers
  import opened NaiveBuffers
  import opened Arith

  class BufferPool {
    const bs: Buffers
    /** The free queue, front first. */
    var q: seq<MemoryRegion>
    /** Locking switch; it changes no result. */
    var mt: bool

    /** A region `release_one` accepts: piece-sized and inside the backing
        allocation. */
    predicate IsPiece(b: MemoryRegion)
    {
      b.len == bs.pieceLen &&
      bs.owned.base <= b.base && b.base + b.len <= bs.owned.base + bs.owned.data.Length
    }

    /** The same range as an index range of the backing array. */
    function Local(b: MemoryRegion): (l: MemoryRegion)
      requires IsPiece(b)
      ensures LocalBuffers.InMemory(bs.owned.data, l) && l.len == b.len
    {
      MemoryRegion(b.base - bs.owned.base, b.len)
    }

    /** Every queued region is a piece of the backing allocation. */
    predicate Valid()
      reads this
    {
      forall b :: b in q ==> IsPiece(b)
    }

    /** Builds the pieces, zeroes each and queues them in index order. */
    constructor (addr: nat, n: nat, piece: nat)
      ensures fresh(bs) && fresh(bs.owned.data) && bs.Valid()
      ensures bs.handles == Pieces(addr, n, piece) && bs.pieceLen == piece
      ensures bs.owned.base == addr && bs.owned.data.Length == piece * n
      ensures q == bs.handles && !mt && Valid()
      ensures forall k :: 0 <= k < bs.owned.data.Length ==> bs.owned.data[k] == 0
    {
      bs := new Buffers(addr, n, piece);
      mt := false;
      q := [];
      new;
      Populate();
    }

    /** The constructor's loop: zero each piece and queue it. */
    method Populate()
      requires bs.Valid() && q == []
      modifies this, bs.owned.data
      ensures q == bs.handles && Valid() && mt == old(mt)
      ensures forall k :: 0 <= k < bs.owned.data.Length ==> bs.owned.data[k] == 0
    {
      HandlesArePieces();
      var data := bs.owned.data;
      var i := 0;
      while i < |bs.handles|
        invariant 0 <= i <= |bs.handles|
        invariant q == bs.handles[..i] && mt == old(mt)
        invariant forall k :: 0 <= k < i * bs.pieceLen ==> data[k] == 0
      {
        ZeroPiece(i);
        q := q + [bs.handles[i]];
        i := i + 1;
      }
      assert bs.handles[..i] == bs.handles;
    }

    /** Every handle of a well-formed `Buffers` is accepted by `release_one`. */
    lemma HandlesArePieces()
      requires bs.Valid()
      ensures forall b :: b in bs.handles ==> IsPiece(b)
    {
      forall b | b in bs.handles ensures IsPiece(b) {
        var j :| 0 <= j < |bs.handles| && bs.handles[j] == b;
        PiecesWithin(bs.owned.base, |bs.handles|, bs.pieceLen, j);
      }
    }

    /** Zero piece `i`, keeping every earlier zero byte. */
    method ZeroPiece(i: nat)
      requires bs.Valid() && i < |bs.handles|
      requires forall k :: 0 <= k < i * bs.pieceLen ==> bs.owned.data[k] == 0
      modifies bs.owned.data
      ensures forall k :: 0 <= k < (i + 1) * bs.pieceLen ==> bs.owned.data[k] == 0
    {
      var piece := bs.pieceLen;
      PiecesWithin(bs.owned.base, |bs.handles|, piece, i);
      var h := bs.handles[i];
      assert Local(h) == MemoryRegion(i * piece, piece);
      LocalBuffers.Reset(bs.owned.data, Local(h));
      MulSucc(i, piece);
    }

    /** `enable_mt`: turn locking on. */
    method EnableMt()
      modifies this
      ensures mt && q == old(q)
    {
      mt := true;
    }

    /** `acquire_one`: the front of the queue, or nothing when it is empty. */
    method AcquireOne() returns (r: Option<MemoryRegion>)
      requires Valid()
      modifies this
      ensures Valid() && mt == old(mt)
      ensures old(q) == [] ==> r == None && q == old(q)
      ensures old(q) != [] ==> r == Some(old(q)[0]) && q == old(q)[1..]
      ensures r.Some? ==> IsPiece(r.value) && |q| == |old(q)| - 1
    {
      if q == [] {
        return None;
      }
      r := Some(q[0]);
      q := q[1..];
    }

    /** `release_one`: zero the buffer and queue it at the back. */
    method ReleaseOne(buf: MemoryRegion)
      requires Valid() && IsPiece(buf)
      modifies this, bs.owned.data
      ensures Valid() && mt == old(mt)
      ensures q == old(q) + [buf] && |q| == |old(q)| + 1
      ensures forall k :: 0 <= k < bs.owned.data.Length ==>
        bs.owned.data[k] == if Local(buf).base <= k < Local(buf).base + buf.len then 0 else old(bs.owned.data[k])
    {
      LocalBuffers.Reset(bs.owned.data, Local(buf));
      q := q + [buf];
    }
  }
}
