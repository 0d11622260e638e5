/**
 * The 16-byte header that prefixes every RPC frame: packed u32 flags, u32
 * sequence number and u64 RPC id. Bit 31 of the flags marks a response and
 * bit 30 a oneway request.
 */
module RpcHeader {
  import opened Bytes
  import opened Wrappers

  /** Bit 31 of the flags word, the response bit. */
  const RESP_BIT: U32 := 0x8000_0000
  /** Bit 30 of the flags word, the oneway-request bit. */
  const ONEWAY_REQ_BIT: U32 := 0x4000_0000
  /** `sizeof(PayloadHeader)`. */
  const HEADER_SIZE: nat := 16

  /** The value a header carries on the wire. */
  datatype Header = Header(flags: U32, seqNo: U32, id: U64)

  /** A value-initialised header. */
  const DEFAULT_HEADER: Header := Header(0, 0, 0)

  /* Bits 31 and 30 are the two highest bits of a u32, so testing them is a
     comparison and OR-ing a clear one in is an addition. */
  predicate HasRespBit(f: U32) { f >= RESP_BIT }
  predicate HasOnewayReqBit(f: U32) { f % RESP_BIT >= ONEWAY_REQ_BIT }
  /** Bits 0..29 of the flags word. */
  function LowBits(f: U32): (r: nat) { f % ONEWAY_REQ_BIT }

  predicate IsResp(h: Header) { HasRespBit(h.flags) }
  predicate IsOnewayReq(h: Header) { HasOnewayReqBit(h.flags) }

  /** `flags | 0x8000'0000`. */
  function OrRespBit(f: U32): (r: U32) { if HasRespBit(f) then f else f + RESP_BIT }
  /** `flags | 0x4000'0000`. */
  function OrOnewayReqBit(f: U32): (r: U32) { if HasOnewayReqBit(f) then f else f + ONEWAY_REQ_BIT }

  /** The header after `as_resp()`. */
  function MarkResp(h: Header): (r: Header) { h.(flags := OrRespBit(h.flags)) }
  /** The header after `as_oneway_req()`. */
  function MarkOnewayReq(h: Header): (r: Header) { h.(flags := OrOnewayReqBit(h.flags)) }

  /** A default header is neither a response nor a oneway request. */
  lemma DefaultIsPlainRequest()
    ensures !IsResp(DEFAULT_HEADER) && !IsOnewayReq(DEFAULT_HEADER)
  {
  }

  /** `as_resp` sets bit 31, leaves bit 30, the low bits, the seq and the id
      alone, and applying it twice is the same as once. */
  lemma MarkRespEffect(h: Header)
    ensures IsResp(MarkResp(h))
    ensures IsOnewayReq(MarkResp(h)) == IsOnewayReq(h)
    ensures LowBits(MarkResp(h).flags) == LowBits(h.flags)
    ensures MarkResp(h).seqNo == h.seqNo && MarkResp(h).id == h.id
    ensures MarkResp(MarkResp(h)) == MarkResp(h)
  {
  }

  /** `as_oneway_req` sets bit 30, leaves bit 31, the low bits, the seq and
      the id alone, and applying it twice is the same as once. */
  lemma MarkOnewayReqEffect(h: Header)
    ensures IsOnewayReq(MarkOnewayReq(h))
    ensures IsResp(MarkOnewayReq(h)) == IsResp(h)
    ensures LowBits(MarkOnewayReq(h).flags) == LowBits(h.flags)
    ensures MarkOnewayReq(h).seqNo == h.seqNo && MarkOnewayReq(h).id == h.id
    ensures MarkOnewayReq(MarkOnewayReq(h)) == MarkOnewayReq(h)
  {
  }

  /** The packed little-endian layout: flags at 0, seq at 4, id at 8. */
  function Encode(h: Header): (r: seq<Byte>)
    ensures |r| == HEADER_SIZE
  {
    LE(h.flags, 4) + LE(h.seqNo, 4) + LE(h.id, 8)
  }

  /** Reads a header from the front of a frame; a frame shorter than the
      header cannot be deserialized. */
  function Decode(s: seq<Byte>): (r: Option<Header>)
    ensures r.Some? <==> |s| >= HEADER_SIZE
  {
    if |s| < HEADER_SIZE then None
    else
      Pow256Widths();
      Some(Header(FromLE(s[0..4]), FromLE(s[4..8]), FromLE(s[8..16])))
  }

  lemma {:induction false} DecodeEncode(h: Header, rest: seq<Byte>)
    ensures Decode(Encode(h) + rest) == Some(h)
  {
    Pow256Widths();
    var s := Encode(h) + rest;
    assert s[0..4] == LE(h.flags, 4);
    assert s[4..8] == LE(h.seqNo, 4);
    assert s[8..16] == LE(h.id, 8);
    FromLEOfLE(h.flags, 4);
    FromLEOfLE(h.seqNo, 4);
    FromLEOfLE(h.id, 8);
  }

  /** `PayloadHeader`: the builders update the object in place and return it. */
  class PayloadHeader {
    var flags: U32
    var seqNo: U32
    var id: U64

    function Value(): (r: Header)
      reads this
    {
      Header(flags, seqNo, id)
    }

    constructor ()
      ensures Value() == DEFAULT_HEADER
    {
      flags, seqNo, id := 0, 0, 0;
    }

    method WithSeq(s: U32)
      modifies this
      ensures Value() == old(Value()).(seqNo := s)
    {
      seqNo := s;
    }

    method WithId(i: U64)
      modifies this
      ensures Value() == old(Value()).(id := i)
    {
      id := i;
    }

    method AsResp()
      modifies this
      ensures Value() == MarkResp(old(Value()))
    {
      flags := OrRespBit(flags);
    }

    method AsOnewayReq()
      modifies this
      ensures Value() == MarkOnewayReq(old(Value()))
    {
      flags := OrOnewayReqBit(flags);
    }
  }
}
