/**
 * `SpillAgent`: one active partition buffer per partition; full buffers are
 * queued for the DMA spillers, which take the whole queue at once, transfer
 * every buffer and give it back to the pool.
 */
module SpillAgents {
  import opened Bytes
  import opened Wrappers
  import opened PartitionBuffers

  /** A submitted buffer as the spiller transfers it: its partition and its
      first `total_size()` bytes, header included. Nothing writes a buffer
      once it is submitted, so its bytes are fixed at submission. */
  datatype Spilled = Spilled(pid: nat, bytes: seq<Byte>)

  function Snapshot(b: PartitionBuffer): (s: Spilled)
    requires b.Valid()
    reads b.buf
    ensures |s.bytes| == b.TotalSize() && s.bytes[HEADER_SIZE..] == b.Content()
  {
    Spilled(b.PartitionId(), b.buf[..b.TotalSize()])
  }

  /** The two `append` calls: the key and then the value. */
  method AppendRecord(b: PartitionBuffer, key: seq<Byte>, value: seq<Byte>)
    requires b.Valid() && !b.NeedSpill(|key| + |value|)
    modifies b.buf
    ensures b.Valid() && b.PartitionId() == old(b.PartitionId())
    ensures b.Content() == old(b.Content()) + key + value
  {
    b.Append(key);
    b.Append(value);
  }

  class SpillAgent {
    /** The size of every pool buffer. */
    const bufferSize: nat
    /** `active_buffers`, indexed by partition id; null when none. */
    var active: seq<PartitionBuffer?>
    /** `spill_q`, in submission order. */
    var spillQ: seq<Spilled>
    /** Buffers given back to the pool by the spillers. */
    var released: nat

    /** The arrays behind the active buffers. */
    function Arrays(): (r: set<array<Byte>>)
      reads this
    {
      set i | 0 <= i < |active| && active[i] != null :: active[i].buf
    }

    /** Each active buffer is a well-formed pool buffer stamped with its own
        partition, and no two partitions share a buffer. */
    predicate Valid()
      reads this, Arrays()
    {
      HEADER_SIZE <= bufferSize < U64_MOD && |active| <= U64_MOD &&
      (forall i :: 0 <= i < |active| && active[i] != null ==>
        active[i].buf.Length == bufferSize && active[i].Valid() && active[i].PartitionId() == i) &&
      (forall i, j :: 0 <= i < j < |active| && active[i] != null && active[j] != null ==>
        active[i].buf != active[j].buf)
    }

    constructor (bufferSize: nat, maxNPartition: nat)
      requires HEADER_SIZE <= bufferSize < U64_MOD && maxNPartition <= U64_MOD
      ensures this.bufferSize == bufferSize && Valid()
      ensures |active| == maxNPartition && forall i :: 0 <= i < maxNPartition ==> active[i] == null
      ensures spillQ == [] && released == 0
    {
      this.bufferSize := bufferSize;
      active := seq(maxNPartition, _ => null);
      spillQ := [];
      released := 0;
    }

    /** `acquire_one(p)`: a zeroed pool buffer stamped for partition p. */
    method AcquireOne(p: nat) returns (b: PartitionBuffer)
      requires HEADER_SIZE <= bufferSize < U64_MOD && p < U64_MOD
      ensures fresh(b) && fresh(b.buf) && b.buf.Length == bufferSize
      ensures b.Valid() && b.PartitionId() == p && b.Empty()
    {
      var a := new Byte[bufferSize](_ => 0);
      b := new PartitionBuffer(a, p);
    }

    /** `append_or_spill(p, key, value)`: append the key and then the value to
        partition p's active buffer, first submitting it and taking a fresh
        one when they do not fit, or taking one when there is none. The key
        and value must fit in an empty buffer. */
    method AppendOrSpill(p: nat, key: seq<Byte>, value: seq<Byte>)
      requires Valid() && p < |active| && HEADER_SIZE + |key| + |value| <= bufferSize
      modifies this, Arrays()
      ensures Valid() && |active| == |old(active)| && released == old(released)
      ensures active[p] != null
      ensures active[p].Content() ==
        old(if active[p] != null && !active[p].NeedSpill(|key| + |value|) then active[p].Content() else [])
          + key + value
      ensures spillQ ==
        old(if active[p] != null && active[p].NeedSpill(|key| + |value|) then spillQ + [Snapshot(active[p])] else spillQ)
      ensures forall i :: 0 <= i < |active| && i != p ==> active[i] == old(active[i])
      ensures forall i :: 0 <= i < |active| && i != p && active[i] != null ==> active[i].buf[..] == old(active[i].buf[..])
    {
      var b := active[p];
      var n := |key| + |value|;
      if b == null {
        b := AcquireOne(p);
        AppendRecord(b, key, value);
        active := active[p := b];
      } else if b.NeedSpill(n) {
        spillQ := spillQ + [Snapshot(b)];
        b := AcquireOne(p);
        AppendRecord(b, key, value);
        active := active[p := b];
      } else {
        AppendRecord(b, key, value);
      }
    }

    /** `force_spill(p)`: submit partition p's active buffer and replace it
        with a fresh one; nothing happens when p has none. */
    method ForceSpill(p: nat)
      requires Valid() && p < |active|
      modifies this
      ensures Valid() && |active| == |old(active)| && released == old(released)
      ensures old(active[p]) == null ==> active == old(active) && spillQ == old(spillQ)
      ensures old(active[p]) != null ==>
        spillQ == old(spillQ + [Snapshot(active[p])]) &&
        active[p] != null && fresh(active[p].buf) && active[p].Empty() && active[p].PartitionId() == p
      ensures forall i :: 0 <= i < |active| && i != p ==> active[i] == old(active[i])
    {
      var b := active[p];
      if b == null {
        return;
      }
      spillQ := spillQ + [Snapshot(b)];
      b := AcquireOne(p);
      active := active[p := b];
    }

    /** One pass of the spiller loop: with the agent stopped and nothing
        queued it reports that the spiller ends (`Ok(false)`). Otherwise it
        takes the whole queue, and each completed transfer size must equal
        the buffer's total size (a mismatch is fatal) before the buffer goes
        back to the pool. */
    method IssueSpillOnce(running: bool, sizes: seq<int>) returns (res: Result<bool>)
      requires !running || spillQ != []
      requires |sizes| == |spillQ|
      modifies this
      ensures active == old(active)
      ensures !running && old(spillQ) == [] ==> res == Ok(false) && spillQ == [] && released == old(released)
      ensures (running || old(spillQ) != []) ==>
        spillQ == [] &&
        (res.Ok? <==> forall i :: 0 <= i < |sizes| ==> sizes[i] == |old(spillQ)[i].bytes|) &&
        (res.Ok? ==> res.value && released == old(released) + |sizes|)
    {
      if !running && spillQ == [] {
        return Ok(false);
      }
      var taken := spillQ;
      spillQ := [];
      var i := 0;
      while i < |taken|
        invariant 0 <= i <= |taken| && spillQ == [] && active == old(active)
        invariant released == old(released) + i
        invariant forall j :: 0 <= j < i ==> sizes[j] == |taken[j].bytes|
      {
        if sizes[i] != |taken[i].bytes| {
          return Err("Fail to trans buffer of partition");
        }
        released := released + 1;
        i := i + 1;
      }
      return Ok(true);
    }
  }
}
