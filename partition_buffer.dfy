/**
 * `PartitionBuffer`: a borrowed byte buffer whose first 16 bytes are a
 * `PartitionDataHeader` (partition id, then total length, both as 8-byte
 * little-endian integers) followed by the appended records.
 */
module PartitionBuffers {
  import opened Bytes

  /** `sizeof(PartitionDataHeader)`. */
  const HEADER_SIZE: nat := 16

  class PartitionBuffer {
    /** The borrowed buffer the header is overlaid on. */
    const buf: array<Byte>

    /** `header->partition_id`. */
    function PartitionId(): (r: nat)
      requires buf.Length >= HEADER_SIZE
      reads buf
    {
      FromLE(buf[0..8])
    }

    /** `total_size()`: `header->length`. */
    function TotalSize(): (r: nat)
      requires buf.Length >= HEADER_SIZE
      reads buf
    {
      FromLE(buf[8..16])
    }

    /** The header's length counts itself and fits in the buffer. */
    predicate Valid()
      reads buf
    {
      HEADER_SIZE <= buf.Length < U64_MOD && HEADER_SIZE <= TotalSize() <= buf.Length
    }

    /** `actual_size()`: the bytes appended after the header. */
    function ActualSize(): (n: nat)
      requires Valid()
      reads buf
      ensures n + HEADER_SIZE == TotalSize()
      ensures n == |Content()|
    {
      TotalSize() - HEADER_SIZE
    }

    /** The appended records, `actual_data()` for `actual_size()` bytes. */
    function Content(): (r: seq<Byte>)
      requires Valid()
      reads buf
    {
      buf[HEADER_SIZE..TotalSize()]
    }

    /** `empty()`: nothing has been appended. */
    predicate Empty()
      requires Valid()
      reads buf
    {
      TotalSize() == HEADER_SIZE
    }

    /** `need_spill(n)`: appending n more bytes would overrun the buffer. */
    predicate NeedSpill(n: nat)
      requires Valid()
      reads buf
    {
      TotalSize() + n > buf.Length
    }

    /** `PartitionBuffer(buffer)`: a view that leaves the header as it is. */
    constructor Wrap(a: array<Byte>)
      ensures buf == a
    {
      buf := a;
    }

    /** `PartitionBuffer(buffer, p)`: stamp a header for partition p that
        counts only itself. */
    constructor (a: array<Byte>, p: U64)
      requires HEADER_SIZE <= a.Length < U64_MOD
      modifies a
      ensures buf == a && Valid()
      ensures PartitionId() == p && TotalSize() == HEADER_SIZE && ActualSize() == 0 && Empty()
      ensures Content() == []
      ensures a[HEADER_SIZE..] == old(a[HEADER_SIZE..])
    {
      buf := a;
      new;
      Pow256Widths();
      WriteBytes(a, 0, LE(p, 8) + LE(HEADER_SIZE, 8));
      assert a[0..8] == LE(p, 8);
      assert a[8..16] == LE(HEADER_SIZE, 8);
      FromLEOfLE(p, 8);
      FromLEOfLE(HEADER_SIZE, 8);
    }

    /** `append(data)`: copy the bytes in after the current end and move the
        end past them. The partition id and the earlier records stay. */
    method Append(data: seq<Byte>)
      requires Valid() && !NeedSpill(|data|)
      modifies buf
      ensures Valid()
      ensures PartitionId() == old(PartitionId())
      ensures TotalSize() == old(TotalSize()) + |data|
      ensures Content() == old(Content()) + data
      ensures buf[TotalSize()..] == old(buf[..])[TotalSize()..]
    {
      Pow256Widths();
      ghost var before := buf[..];
      var len := TotalSize();
      WriteBytes(buf, len, data);
      ghost var mid := buf[..];
      WriteBytes(buf, 8, LE(len + |data|, 8));
      AppendLayout(before, len, data, mid, LE(len + |data|, 8), buf[..]);
      FromLEOfLE(len + |data|, 8);
    }
  }

  /** The bytes of a partition buffer after `append`: the records go after
      the old end, then the new length over the header's length field. */
  lemma AppendLayout(before: seq<Byte>, len: nat, data: seq<Byte>, mid: seq<Byte>, hdr: seq<Byte>, after: seq<Byte>)
    requires HEADER_SIZE <= len && len + |data| <= |before| && |hdr| == 8
    requires mid == before[..len] + data + before[len + |data|..]
    requires after == mid[..8] + hdr + mid[16..]
    ensures after[0..8] == before[0..8] && after[8..16] == hdr
    ensures after[HEADER_SIZE..len + |data|] == before[HEADER_SIZE..len] + data
    ensures after[len + |data|..] == before[len + |data|..]
  {
    WrittenParts(before, len, data, mid);
    WrittenParts(mid, 8, hdr, after);
    assert after[0..8] == mid[..len][..8];
    assert after[HEADER_SIZE..len + |data|] == mid[16..][..len + |data| - 16];
    assert mid[HEADER_SIZE..len + |data|] == before[HEADER_SIZE..len] + data;
  }
}
