/**
 * The byte-level key/value partitioner of the offload server: records are
 * length-prefixed objects (the first 8 bytes, little-endian, give the
 * object's total length, prefix included), read in key/value pairs, and
 * each pair is copied into partition `java_string_hash(key) mod 32`. Each
 * of the 32 output partitions starts with a `PartitionDataHeader`.
 */
module Partitioner {
  import opened Bytes
  import opened Wrappers

  const N_PARTITIONS: nat := 32
  /** `sizeof(PartitionDataHeader)`: partition id and length, 8 bytes each. */
  const HEADER_SIZE: nat := 16

  /** `java_string_hash`: h := h * 31 + b over the bytes, on a 64-bit
      `size_t`, from h = 0. */
  function Hash(s: seq<Byte>): (r: U64)
    decreases |s|
  {
    if s == [] then 0 else (Hash(s[..|s| - 1]) * 31 + s[|s| - 1]) % U64_MOD
  }

  /** The hash of the empty key is 0, and one more byte multiplies by 31 and
      adds the byte, modulo 2^64. */
  lemma HashStep(s: seq<Byte>, b: Byte)
    ensures Hash([]) == 0
    ensures Hash(s + [b]) == (Hash(s) * 31 + b) % U64_MOD
  {
    assert (s + [b])[..|s|] == s;
  }

  /** The accumulator loop of `java_string_hash`. */
  method JavaStringHash(data: seq<Byte>) returns (h: U64)
    ensures h == Hash(data)
  {
    h := 0;
    var i := 0;
    while i < |data|
      invariant 0 <= i <= |data| && h == Hash(data[..i])
    {
      assert data[..i + 1][..i] == data[..i];
      h := (h * 31 + data[i]) % U64_MOD;
      i := i + 1;
    }
    assert data[..i] == data;
  }

  /** A key/value pair as read from the input, prefixes included. */
  datatype Rec = Rec(key: seq<Byte>, value: seq<Byte>)

  /** The partition of a pair. */
  function PidOf(r: Rec): (p: nat)
    ensures p < N_PARTITIONS
  {
    Hash(r.key) % N_PARTITIONS
  }

  /** `get_object` at `off`: the 8-byte little-endian length, then that many
      bytes starting at `off`. A prefix that runs past the input or a length
      that does would read out of bounds, and a zero length would make the
      loop spin forever; those are `None`. */
  function Object(data: seq<Byte>, off: nat): (r: Option<seq<Byte>>)
    requires off <= |data|
    ensures r.Some? ==> 0 < |r.value| && off + |r.value| <= |data| && r.value == data[off..off + |r.value|]
  {
    if off + 8 > |data| then None
    else
      var len := FromLE(data[off..off + 8]);
      if len == 0 || off + len > |data| then None
      else Some(data[off..off + len])
  }

  /** The pairs from `off` to the end of the input, or `None` when the
      input does not split into pairs. */
  function RecordsFrom(data: seq<Byte>, off: nat): (r: Option<seq<Rec>>)
    requires off <= |data|
    decreases |data| - off
  {
    if off == |data| then Some([])
    else
      match Object(data, off)
      case None => None
      case Some(k) =>
        match Object(data, off + |k|)
        case None => None
        case Some(v) =>
          match RecordsFrom(data, off + |k| + |v|)
          case None => None
          case Some(rest) => Some([Rec(k, v)] + rest)
  }

  function Prepend(done: seq<Rec>, rest: Option<seq<Rec>>): (r: Option<seq<Rec>>)
  {
    if rest.None? then None else Some(done + rest.value)
  }

  /** The bytes of a list of pairs, key then value, in order. */
  function Flat(recs: seq<Rec>): (r: seq<Byte>)
    decreases |recs|
  {
    if recs == [] then [] else Flat(recs[..|recs| - 1]) + recs[|recs| - 1].key + recs[|recs| - 1].value
  }

  /** The body of partition i: its pairs' bytes in input order. */
  function Body(recs: seq<Rec>, i: nat): (r: seq<Byte>)
    decreases |recs|
  {
    if recs == [] then []
    else
      var r := recs[|recs| - 1];
      Body(recs[..|recs| - 1], i) + (if PidOf(r) == i then r.key + r.value else [])
  }

  lemma {:induction false} FlatPrepend(r: Rec, recs: seq<Rec>)
    ensures |Flat([r] + recs)| == |r.key| + |r.value| + |Flat(recs)|
    decreases |recs|
  {
    if recs != [] {
      FlatPrepend(r, recs[..|recs| - 1]);
      assert ([r] + recs)[..|recs|] == [r] + recs[..|recs| - 1];
    }
  }

  /** When the input splits into pairs, the pairs hold exactly its bytes. */
  lemma {:induction false} RecordsTile(data: seq<Byte>, off: nat)
    requires off <= |data| && RecordsFrom(data, off).Some?
    ensures |Flat(RecordsFrom(data, off).value)| == |data| - off
    decreases |data| - off
  {
    if off < |data| {
      var k := Object(data, off).value;
      var v := Object(data, off + |k|).value;
      RecordsTile(data, off + |k| + |v|);
      FlatPrepend(Rec(k, v), RecordsFrom(data, off + |k| + |v|).value);
    }
  }

  /** The body lengths of partitions 0..n-1, summed. */
  function SumBodies(recs: seq<Rec>, n: nat): (r: nat)
  {
    if n == 0 then 0 else SumBodies(recs, n - 1) + |Body(recs, n - 1)|
  }

  lemma {:induction false} SumBodiesStep(recs: seq<Rec>, r: Rec, n: nat)
    ensures SumBodies(recs + [r], n) == SumBodies(recs, n) + (if PidOf(r) < n then |r.key| + |r.value| else 0)
  {
    assert (recs + [r])[..|recs|] == recs;
    if n > 0 {
      SumBodiesStep(recs, r, n - 1);
    }
  }

  /** Every byte of every pair lands in exactly one partition. */
  lemma {:induction false} BodiesTile(recs: seq<Rec>)
    ensures SumBodies(recs, N_PARTITIONS) == |Flat(recs)|
    decreases |recs|
  {
    if recs == [] {
      ZeroBodies(N_PARTITIONS);
    } else {
      var init := recs[..|recs| - 1];
      BodiesTile(init);
      assert init + [recs[|recs| - 1]] == recs;
      SumBodiesStep(init, recs[|recs| - 1], N_PARTITIONS);
    }
  }

  lemma {:induction false} ZeroBodies(n: nat)
    ensures SumBodies([], n) == 0
  {
    if n > 0 {
      ZeroBodies(n - 1);
    }
  }

  /** A partition's body is never longer than all pairs together. */
  lemma {:induction false} BodyBounded(recs: seq<Rec>, i: nat)
    ensures |Body(recs, i)| <= |Flat(recs)|
    decreases |recs|
  {
    if recs != [] {
      BodyBounded(recs[..|recs| - 1], i);
    }
  }

  /** Output partition i: the header (id i, length of the whole partition)
      and then the body. */
  function Partition(recs: seq<Rec>, i: nat): (p: seq<Byte>)
    requires i < N_PARTITIONS && HEADER_SIZE + |Flat(recs)| < U64_MOD
    ensures |p| == HEADER_SIZE + |Body(recs, i)|
  {
    BodyBounded(recs, i);
    LE(i, 8) + LE(HEADER_SIZE + |Body(recs, i)|, 8) + Body(recs, i)
  }

  /** One pair read at `off` extends the pairs read so far. */
  lemma RecordsStep(data: seq<Byte>, off: nat, done: seq<Rec>)
    requires off < |data| && Object(data, off).Some?
    requires Object(data, off + |Object(data, off).value|).Some?
    ensures var k := Object(data, off).value;
      var v := Object(data, off + |k|).value;
      Prepend(done, RecordsFrom(data, off)) == Prepend(done + [Rec(k, v)], RecordsFrom(data, off + |k| + |v|))
  {
    var k := Object(data, off).value;
    var v := Object(data, off + |k|).value;
    var rest := RecordsFrom(data, off + |k| + |v|);
    if rest.Some? {
      assert done + ([Rec(k, v)] + rest.value) == (done + [Rec(k, v)]) + rest.value;
    }
  }

  lemma BodyStep(done: seq<Rec>, r: Rec)
    ensures forall i :: Body(done + [r], i) == Body(done, i) + (if PidOf(r) == i then r.key + r.value else [])
  {
    assert (done + [r])[..|done|] == done;
  }

  /** Appending a pair to its partition keeps every partition equal to a
      zeroed header followed by its body. */
  lemma AppendToPartition(results: seq<seq<Byte>>, done: seq<Rec>, r: Rec, pid: nat)
    requires |results| == N_PARTITIONS && pid == PidOf(r)
    requires forall i :: 0 <= i < N_PARTITIONS ==> results[i] == Zeros(HEADER_SIZE) + Body(done, i)
    ensures forall i :: 0 <= i < N_PARTITIONS ==>
      results[pid := results[pid] + r.key + r.value][i] == Zeros(HEADER_SIZE) + Body(done + [r], i)
  {
    BodyStep(done, r);
  }

  /** `native_partition`: split the input into pairs and copy each into the
      partition its key hashes to, then stamp the 32 headers. Input that
      does not split into pairs is an error. */
  method NativePartition(data: seq<Byte>) returns (res: Result<seq<seq<Byte>>>)
    requires HEADER_SIZE + |data| < U64_MOD
    ensures res.Ok? <==> RecordsFrom(data, 0).Some?
    ensures res.Ok? ==>
      var recs := RecordsFrom(data, 0).value;
      |Flat(recs)| == |data| && |res.value| == N_PARTITIONS &&
      forall i :: 0 <= i < N_PARTITIONS ==> res.value[i] == Partition(recs, i)
  {
    var bodies := CollectBodies(data);
    if bodies.Err? {
      return Err(bodies.reason);
    }
    var recs := RecordsFrom(data, 0).value;
    RecordsTile(data, 0);
    var results := bodies.value;
    var i := 0;
    while i < N_PARTITIONS
      invariant 0 <= i <= N_PARTITIONS && |results| == N_PARTITIONS
      invariant forall j :: 0 <= j < i ==> results[j] == Partition(recs, j)
      invariant forall j :: i <= j < N_PARTITIONS ==> results[j] == Zeros(HEADER_SIZE) + Body(recs, j)
    {
      BodyBounded(recs, i);
      results := results[i := LE(i, 8) + LE(|results[i]|, 8) + results[i][HEADER_SIZE..]];
      i := i + 1;
    }
    return Ok(results);
  }

  /** The record loop of `native_partition`: 32 partitions that start as
      zeroed headers, each pair appended to its partition. */
  method CollectBodies(data: seq<Byte>) returns (res: Result<seq<seq<Byte>>>)
    ensures res.Ok? <==> RecordsFrom(data, 0).Some?
    ensures res.Ok? ==> (|res.value| == N_PARTITIONS &&
      forall i :: 0 <= i < N_PARTITIONS ==> res.value[i] == Zeros(HEADER_SIZE) + Body(RecordsFrom(data, 0).value, i))
  {
    var results: seq<seq<Byte>> := seq(N_PARTITIONS, _ => Zeros(HEADER_SIZE));
    var offset := 0;
    ghost var done: seq<Rec> := [];
    if RecordsFrom(data, 0).Some? {
      assert [] + RecordsFrom(data, 0).value == RecordsFrom(data, 0).value;
    }
    while offset < |data|
      invariant offset <= |data| && |results| == N_PARTITIONS
      invariant forall i :: 0 <= i < N_PARTITIONS ==> results[i] == Zeros(HEADER_SIZE) + Body(done, i)
      invariant RecordsFrom(data, 0) == Prepend(done, RecordsFrom(data, offset))
      decreases |data| - offset
    {
      var key := Object(data, offset);
      if key.None? {
        return Err("malformed object");
      }
      var value := Object(data, offset + |key.value|);
      if value.None? {
        return Err("malformed object");
      }
      var k, v := key.value, value.value;
      var h := JavaStringHash(k);
      var pid := h % N_PARTITIONS;
      ghost var r := Rec(k, v);
      AppendToPartition(results, done, r, pid);
      results := results[pid := results[pid] + k + v];
      RecordsStep(data, offset, done);
      done := done + [r];
      offset := offset + |k| + |v|;
    }
    assert done + [] == done;
    return Ok(results);
  }

  /** When the input splits into pairs, the 32 bodies together are exactly
      as long as the input; with one header per partition the output is
      32 * 16 bytes longer than the input. */
  lemma OutputSize(data: seq<Byte>)
    requires HEADER_SIZE + |data| < U64_MOD && RecordsFrom(data, 0).Some?
    ensures var recs := RecordsFrom(data, 0).value;
      SumBodies(recs, N_PARTITIONS) == |data|
  {
    RecordsTile(data, 0);
    BodiesTile(RecordsFrom(data, 0).value);
  }
}
