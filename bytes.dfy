/**
 * Fixed-width machine integers and their little-endian byte images.
 * Every integer field the source stores in memory (headers, lengths, ids,
 * compressed pointers) is read and written through these definitions.
 */
module Bytes {
  type Byte = x: int | 0 <= x < 0x100
  type U16 = x: int | 0 <= x < 0x1_0000
  type U32 = x: int | 0 <= x < 0x1_0000_0000
  type U64 = x: int | 0 <= x < 0x1_0000_0000_0000_0000

  const U16_MOD: int := 0x1_0000
  const U32_MOD: int := 0x1_0000_0000
  const U64_MOD: int := 0x1_0000_0000_0000_0000
  const U64_MAX: U64 := 0xFFFF_FFFF_FFFF_FFFF

  /** 256^n: the number of distinct n-byte values. */
  function Pow256(n: nat): (r: nat)
    ensures r >= 1
  {
    if n == 0 then 1 else 256 * Pow256(n - 1)
  }

  lemma Pow256Widths()
    ensures Pow256(2) == U16_MOD && Pow256(4) == U32_MOD && Pow256(8) == U64_MOD
  {
    assert Pow256(1) == 256;
  }

  /** The n-byte little-endian image of x, least significant byte first. */
  function LE(x: nat, n: nat): (r: seq<Byte>)
    requires x < Pow256(n)
    ensures |r| == n
  {
    if n == 0 then []
    else
      assert x / 256 < Pow256(n - 1);
      [(x % 256) as Byte] + LE(x / 256, n - 1)
  }

  /** The value of a little-endian byte string. */
  function FromLE(s: seq<Byte>): (r: nat)
    ensures r < Pow256(|s|)
  {
    if s == [] then 0
    else
      var rest := FromLE(s[1..]);
      assert s[0] + 256 * rest <= 255 + 256 * (Pow256(|s| - 1) - 1);
      s[0] + 256 * rest
  }

  /** Reading back a written integer gives the integer. */
  lemma {:induction false} FromLEOfLE(x: nat, n: nat)
    requires x < Pow256(n)
    ensures FromLE(LE(x, n)) == x
  {
    if n > 0 {
      FromLEOfLE(x / 256, n - 1);
      assert LE(x, n)[1..] == LE(x / 256, n - 1);
    }
  }

  /** Writing back a read integer gives the same bytes. */
  lemma {:induction false} LEOfFromLE(s: seq<Byte>)
    ensures LE(FromLE(s), |s|) == s
  {
    if s != [] {
      var rest := FromLE(s[1..]);
      LEOfFromLE(s[1..]);
      ByteSplit(s[0], rest);
      assert LE(FromLE(s), |s|) == [s[0]] + LE(rest, |s| - 1);
    }
  }

  /** The low byte and the rest of `b + 256 * rest`. */
  lemma ByteSplit(b: Byte, rest: nat)
    ensures (b + 256 * rest) % 256 == b && (b + 256 * rest) / 256 == rest
  {
  }

  /** Two integers with the same n-byte image are equal. */
  lemma LEInjective(x: nat, y: nat, n: nat)
    requires x < Pow256(n) && y < Pow256(n)
    requires LE(x, n) == LE(y, n)
    ensures x == y
  {
    FromLEOfLE(x, n);
    FromLEOfLE(y, n);
  }

  /** n zero bytes, as written by `memset(p, 0, n)`. */
  function Zeros(n: nat): (r: seq<Byte>)
    ensures |r| == n && forall i :: 0 <= i < n ==> r[i] == 0
  {
    seq(n, _ => 0)
  }

  /** `memcpy(a + off, src, |src|)`: overwrite |src| bytes of `a` at `off`. */
  method WriteBytes(a: array<Byte>, off: nat, src: seq<Byte>)
    requires off + |src| <= a.Length
    modifies a
    ensures a[..] == old(a[..])[..off] + src + old(a[..])[off + |src|..]
  {
    var i := 0;
    while i < |src|
      invariant 0 <= i <= |src|
      invariant forall j :: 0 <= j < a.Length && !(off <= j < off + i) ==> a[j] == old(a[j])
      invariant forall j :: off <= j < off + i ==> a[j] == src[j - off]
    {
      a[off + i] := src[i];
      i := i + 1;
    }
    assert a[..] == old(a[..])[..off] + src + old(a[..])[off + |src|..];
  }

  /** What an overwrite at `off` leaves: the bytes before it, the bytes
      written and the bytes after it. */
  lemma WrittenParts(before: seq<Byte>, off: nat, src: seq<Byte>, after: seq<Byte>)
    requires off + |src| <= |before| && after == before[..off] + src + before[off + |src|..]
    ensures |after| == |before|
    ensures after[..off] == before[..off] && after[off..off + |src|] == src
    ensures after[off + |src|..] == before[off + |src|..]
  {
  }

  /** `memset(a + off, v, n)`: fill n bytes of `a` at `off` with v. */
  method FillBytes(a: array<Byte>, off: nat, n: nat, v: Byte)
    requires off + n <= a.Length
    modifies a
    ensures a[..] == old(a[..])[..off] + seq(n, _ => v) + old(a[..])[off + n..]
  {
    var i := 0;
    while i < n
      invariant 0 <= i <= n
      invariant forall j :: 0 <= j < a.Length && !(off <= j < off + i) ==> a[j] == old(a[j])
      invariant forall j :: off <= j < off + i ==> a[j] == v
    {
      a[off + i] := v;
      i := i + 1;
    }
    assert a[..] == old(a[..])[..off] + seq(n, _ => v) + old(a[..])[off + n..];
  }
}
