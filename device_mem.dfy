/**
 * The device-side copy and fill routines `d_memcpy` and `d_memset`. Each
 * picks a word width from the pointers' alignment (8 bytes when both are
 * 8-aligned, 4 bytes when they are only 4-aligned), then works in three
 * parts as Duff's device does: a prologue of `words % 8` word moves (the
 * fall-through switch), an unrolled loop of `words / 8` rounds of eight
 * word moves, and a tail of `len % w` single bytes.
 *
 * Device memory is an array and a pointer is an index into it; a copy
 * moves elements of any type, a fill stores `uint8_t` values (`bv8`). The
 * source and destination of a copy are distinct arrays.
 */
module DeviceMem {
  import opened Bytes
  import opened Arith

  /** The bytes of `d` after `n` bytes of `s` from `s0` were copied to `d0`:
      the copied range holds the source bytes, everything else is `a`. */
  ghost predicate CopiedOver<T>(d: seq<T>, a: seq<T>, d0: nat, s: seq<T>, s0: nat, n: nat)
  {
    |d| == |a| && d0 + n <= |d| && s0 + n <= |s|
    && forall j :: 0 <= j < |d| ==> d[j] == (if d0 <= j < d0 + n then s[s0 + j - d0] else a[j])
  }

  /** The bytes of `d` after `n` bytes from `d0` were set to v. */
  ghost predicate FilledOver(d: seq<bv8>, a: seq<bv8>, d0: nat, v: bv8, n: nat)
  {
    |d| == |a| && d0 + n <= |d|
    && forall j :: 0 <= j < |d| ==> d[j] == (if d0 <= j < d0 + n then v else a[j])
  }

  /** `*d.uW++ = *s.uW++`: one store of a w-byte word read from `s`. */
  method MoveWord<T>(d: array<T>, dp: nat, s: array<T>, sp: nat, w: nat)
    requires d != s && dp + w <= d.Length && sp + w <= s.Length
    modifies d
    ensures forall j :: 0 <= j < d.Length ==> d[j] == (if dp <= j < dp + w then s[sp + j - dp] else old(d[j]))
  {
    forall j | dp <= j < dp + w {
      d[j] := s[sp + j - dp];
    }
  }

  /** Copying w more bytes extends the copied range by w. */
  lemma CopiedMore<T>(d1: seq<T>, d: seq<T>, a: seq<T>, d0: nat, s: seq<T>, s0: nat, n: nat, w: nat)
    requires CopiedOver(d, a, d0, s, s0, n) && d0 + n + w <= |d| && s0 + n + w <= |s|
    requires |d1| == |d|
    requires forall j :: 0 <= j < |d| ==> d1[j] == (if d0 + n <= j < d0 + n + w then s[s0 + n + j - (d0 + n)] else d[j])
    ensures CopiedOver(d1, a, d0, s, s0, n + w)
  {
  }

  /** One word move that continues a copy from `d0`/`s0`: the copied range
      grows by w. */
  method MoveWordOver<T>(d: array<T>, dp: nat, s: array<T>, sp: nat, w: nat, ghost a: seq<T>, ghost d0: nat, ghost s0: nat)
    requires d != s && dp + w <= d.Length && sp + w <= s.Length
    requires d0 <= dp && s0 <= sp && dp - d0 == sp - s0
    requires CopiedOver(d[..], a, d0, s[..], s0, dp - d0)
    modifies d
    ensures CopiedOver(d[..], a, d0, s[..], s0, dp - d0 + w)
  {
    ghost var before := d[..];
    MoveWord(d, dp, s, sp, w);
    CopiedMore(d[..], before, a, d0, s[..], s0, dp - d0, w);
  }

  /** Copied ranges that meet join into one. */
  lemma CopiedChain<T>(d2: seq<T>, d1: seq<T>, a: seq<T>, d0: nat, s: seq<T>, s0: nat, k: nat, m: nat)
    requires CopiedOver(d1, a, d0, s, s0, k) && CopiedOver(d2, d1, d0 + k, s, s0 + k, m)
    ensures CopiedOver(d2, a, d0, s, s0, k + m)
  {
  }

  /** `count` consecutive moves of w-byte words. The fall-through switch
      makes `words % 8` of them, each round of the unrolled loop eight, and
      the byte tail is `bytes % w` moves of one byte. */
  method MoveWords<T>(d: array<T>, dp0: nat, s: array<T>, sp0: nat, count: nat, w: nat) returns (dp: nat, sp: nat)
    requires d != s && dp0 + count * w <= d.Length && sp0 + count * w <= s.Length
    modifies d
    ensures dp == dp0 + count * w && sp == sp0 + count * w
    ensures CopiedOver(d[..], old(d[..]), dp0, s[..], sp0, count * w)
  {
    ghost var a := d[..];
    dp, sp := dp0, sp0;
    for i := 0 to count
      invariant dp == dp0 + i * w && sp - sp0 == dp - dp0
      invariant CopiedOver(d[..], a, dp0, s[..], sp0, dp - dp0)
    {
      MulSucc(i, w);
      MulMono(i + 1, count, w);
      MoveWordOver(d, dp, s, sp, w, a, dp0, sp0);
      dp, sp := dp + w, sp + w;
    }
  }

  /** `while (n-- > 0)` with eight word moves of w bytes per round. */
  method MoveRounds<T>(d: array<T>, dp0: nat, s: array<T>, sp0: nat, n0: nat, w: nat) returns (dp: nat, sp: nat)
    requires d != s && dp0 + n0 * (8 * w) <= d.Length && sp0 + n0 * (8 * w) <= s.Length
    modifies d
    ensures dp == dp0 + n0 * (8 * w) && sp == sp0 + n0 * (8 * w)
    ensures CopiedOver(d[..], old(d[..]), dp0, s[..], sp0, n0 * (8 * w))
  {
    ghost var a := d[..];
    ghost var rounds: nat := 0;
    var n: nat := n0;
    dp, sp := dp0, sp0;
    while n > 0
      invariant rounds + n == n0
      invariant dp == dp0 + rounds * (8 * w) && sp - sp0 == dp - dp0
      invariant CopiedOver(d[..], a, dp0, s[..], sp0, dp - dp0)
    {
      MulSucc(rounds, 8 * w);
      MulMono(rounds + 1, n0, 8 * w);
      ghost var before := d[..];
      ghost var k := dp - dp0;
      dp, sp := MoveWords(d, dp, s, sp, 8, w);
      CopiedChain(d[..], before, a, dp0, s[..], sp0, k, 8 * w);
      rounds, n := rounds + 1, n - 1;
    }
  }

  /** `d_memcpy_u64`: `bytes` bytes from `sp0` to `dp0`, 8 bytes at a time.
      It returns the source pointer advanced past what it read. */
  method CopyU64<T>(d: array<T>, dp0: nat, s: array<T>, sp0: nat, bytes: nat) returns (end: nat)
    requires d != s && dp0 + bytes <= d.Length && sp0 + bytes <= s.Length
    modifies d
    ensures end == sp0 + bytes
    ensures CopiedOver(d[..], old(d[..]), dp0, s[..], sp0, bytes)
  {
    ghost var a := d[..];
    var wordLen := bytes / 8;
    var n := wordLen / 8;
    // The switch on `wordLen % 8`, falling through from its case down to 1.
    var dp, sp := MoveWords(d, dp0, s, sp0, wordLen % 8, 8);
    // `while (n-- > 0)`: eight word moves per round.
    ghost var mid := d[..];
    ghost var head := dp - dp0;
    dp, sp := MoveRounds(d, dp, s, sp, n, 8);
    CopiedChain(d[..], mid, a, dp0, s[..], sp0, head, n * (8 * 8));
    // The switch on `bytes % 8`: the remaining single bytes.
    ghost var before := d[..];
    ghost var k := dp - dp0;
    dp, sp := MoveWords(d, dp, s, sp, bytes % 8, 1);
    CopiedChain(d[..], before, a, dp0, s[..], sp0, k, bytes % 8);
    end := sp;
  }

  /** `d_memcpy_u32`: `bytes` bytes from `sp0` to `dp0`, 4 bytes at a time.
      It returns the source pointer advanced past what it read. */
  method CopyU32<T>(d: array<T>, dp0: nat, s: array<T>, sp0: nat, bytes: nat) returns (end: nat)
    requires d != s && dp0 + bytes <= d.Length && sp0 + bytes <= s.Length
    modifies d
    ensures end == sp0 + bytes
    ensures CopiedOver(d[..], old(d[..]), dp0, s[..], sp0, bytes)
  {
    ghost var a := d[..];
    var wordLen := bytes / 4;
    var n := wordLen / 8;
    // The switch on `wordLen % 8`, falling through from its case down to 1.
    var dp, sp := MoveWords(d, dp0, s, sp0, wordLen % 8, 4);
    // `while (n-- > 0)`: eight word moves per round.
    ghost var mid := d[..];
    ghost var head := dp - dp0;
    dp, sp := MoveRounds(d, dp, s, sp, n, 4);
    CopiedChain(d[..], mid, a, dp0, s[..], sp0, head, n * (8 * 4));
    // The switch on `bytes % 4`: the remaining single bytes.
    ghost var before := d[..];
    ghost var k := dp - dp0;
    dp, sp := MoveWords(d, dp, s, sp, bytes % 4, 1);
    CopiedChain(d[..], before, a, dp0, s[..], sp0, k, bytes % 4);
    end := sp;
  }

  /** The alignments `d_memcpy` and `d_memset` handle: a pointer is
      8-aligned or 4 past a multiple of 8; the other cases are unreachable
      by contract. */
  predicate WordAligned(p: nat)
  {
    p % 8 == 0 || p % 8 == 4
  }

  /** `d_memcpy(d_dest, d_src, len)`: an empty copy returns the source as it
      is; otherwise it copies with 8-byte words when both pointers are
      8-aligned (`align_d | align_s == 0`) and with 4-byte words when one
      is 4 past a multiple of 8 (`== 4`). It returns `d_src + len`, and only
      `d_dest[0..len)` changes. */
  method DMemcpy<T>(d: array<T>, dp: nat, s: array<T>, sp: nat, len: nat) returns (end: nat)
    requires d != s && dp + len <= d.Length && sp + len <= s.Length
    requires len > 0 ==> WordAligned(dp) && WordAligned(sp)
    modifies d
    ensures end == sp + len
    ensures d[..] == old(d[..])[..dp] + s[sp..sp + len] + old(d[..])[dp + len..]
  {
    if len == 0 {
      assert d[..] == old(d[..])[..dp] + s[sp..sp] + old(d[..])[dp..];
      return sp;
    }
    if dp % 8 == 0 && sp % 8 == 0 {
      end := CopyU64(d, dp, s, sp, len);
    } else {
      end := CopyU32(d, dp, s, sp, len);
    }
    assert d[..] == old(d[..])[..dp] + s[sp..sp + len] + old(d[..])[dp + len..];
  }

  /** The fill word of `d_memset_u32` (w = 4) and `d_memset_u64` (w = 8):
      `u = v; u |= u << 8; u |= u << 16` and, for 8 bytes, `u |= u << 32`. */
  function FillWord(b: bv64, w: nat): (u: bv64)
    requires w == 4 || w == 8
  {
    var u1 := b | (b << 8);
    var u2 := u1 | (u1 << 16);
    if w == 8 then u2 | (u2 << 32) else u2
  }

  /** `u >> 8k`, for a byte index k of a 64-bit word. */
  function ShiftBytes(u: bv64, k: nat): (r: bv64)
    requires k < 8
  {
    if k == 0 then u else if k == 1 then u >> 8 else if k == 2 then u >> 16 else if k == 3 then u >> 24
    else if k == 4 then u >> 32 else if k == 5 then u >> 40 else if k == 6 then u >> 48 else u >> 56
  }

  /** Byte k of a word as a little-endian store lays it out in memory:
      `(u >> 8k) & 0xFF`. */
  function ByteOf(u: bv64, k: nat): (x: bv8)
    requires k < 8
  {
    (ShiftBytes(u, k) & 0xFF) as bv8
  }

  /** Every byte of the fill word is the fill value. */
  lemma FillWordBytes(v: bv8, w: nat, k: nat)
    requires w == 4 || w == 8
    requires k < w
    ensures ByteOf(FillWord(v as bv64, w), k) == v
  {
    Widened(v);
    FillWordShift(v as bv64, w, k);
    Narrow(ShiftBytes(FillWord(v as bv64, w), k) & 0xFF, v);
  }

  /** A widened byte is below 256. */
  lemma Widened(v: bv8)
    ensures v as bv64 < 256
  {
  }

  /** Byte k of the fill word, still in 64 bits, is the fill value. */
  lemma FillWordShift(b: bv64, w: nat, k: nat)
    requires w == 4 || w == 8
    requires k < w
    requires b < 256
    ensures ShiftBytes(FillWord(b, w), k) & 0xFF == b
  {
    FillWordBits(b, w);
  }

  /** A 64-bit value equal to a widened byte narrows back to that byte. */
  lemma Narrow(x: bv64, v: bv8)
    requires x == v as bv64
    ensures x as bv8 == v
  {
  }

  /** The replication by shifts puts a copy of the low byte in each byte. */
  lemma FillWordBits(b: bv64, w: nat)
    requires w == 4 || w == 8
    requires b < 256
    ensures (FillWord(b, w) >> 0) & 0xFF == b && (FillWord(b, w) >> 8) & 0xFF == b
    ensures (FillWord(b, w) >> 16) & 0xFF == b && (FillWord(b, w) >> 24) & 0xFF == b
    ensures w == 8 ==> (FillWord(b, w) >> 32) & 0xFF == b && (FillWord(b, w) >> 40) & 0xFF == b
                       && (FillWord(b, w) >> 48) & 0xFF == b && (FillWord(b, w) >> 56) & 0xFF == b
  {
  }

  /** `*p.uW++ = u`: one store of the fill word. */
  method StoreWord(m: array<bv8>, p: nat, u: bv64, w: nat)
    requires w == 4 || w == 8
    requires p + w <= m.Length
    modifies m
    ensures forall j :: 0 <= j < m.Length ==> m[j] == (if p <= j < p + w then ByteOf(u, j - p) else old(m[j]))
  {
    forall j | p <= j < p + w {
      m[j] := ByteOf(u, j - p);
    }
  }

  /** A store of the fill word extends the filled range by w. */
  lemma FilledMoreWord(m1: seq<bv8>, m: seq<bv8>, a: seq<bv8>, p0: nat, v: bv8, n: nat, w: nat)
    requires w == 4 || w == 8
    requires FilledOver(m, a, p0, v, n) && p0 + n + w <= |m| && |m1| == |m|
    requires forall j :: 0 <= j < |m| ==>
               m1[j] == (if p0 + n <= j < p0 + n + w then ByteOf(FillWord(v as bv64, w), j - (p0 + n)) else m[j])
    ensures FilledOver(m1, a, p0, v, n + w)
  {
    forall j | p0 + n <= j < p0 + n + w
      ensures m1[j] == v
    {
      FillWordBytes(v, w, j - (p0 + n));
    }
  }

  /** Filled ranges that meet join into one. */
  lemma FilledChain(m2: seq<bv8>, m1: seq<bv8>, a: seq<bv8>, p0: nat, v: bv8, k: nat, n: nat)
    requires FilledOver(m1, a, p0, v, k) && FilledOver(m2, m1, p0 + k, v, n)
    ensures FilledOver(m2, a, p0, v, k + n)
  {
  }

  /** `count` consecutive stores of the w-byte fill word of v. */
  method StoreWords(m: array<bv8>, p0: nat, v: bv8, count: nat, w: nat) returns (p: nat)
    requires w == 4 || w == 8
    requires p0 + count * w <= m.Length
    modifies m
    ensures p == p0 + count * w
    ensures FilledOver(m[..], old(m[..]), p0, v, count * w)
  {
    ghost var a := m[..];
    var u := FillWord(v as bv64, w);
    p := p0;
    for i := 0 to count
      invariant p == p0 + i * w
      invariant FilledOver(m[..], a, p0, v, i * w)
    {
      ghost var before := m[..];
      StoreWord(m, p, u, w);
      FilledMoreWord(m[..], before, a, p0, v, i * w, w);
      assert (i + 1) * w == i * w + w;
      p := p + w;
    }
  }

  /** `count` consecutive single-byte stores of v. */
  method StoreBytes(m: array<bv8>, p0: nat, v: bv8, count: nat) returns (p: nat)
    requires p0 + count <= m.Length
    modifies m
    ensures p == p0 + count
    ensures FilledOver(m[..], old(m[..]), p0, v, count)
  {
    ghost var a := m[..];
    p := p0;
    for i := 0 to count
      invariant p == p0 + i
      invariant FilledOver(m[..], a, p0, v, i)
    {
      m[p] := v;
      p := p + 1;
    }
  }

  /** `d_memset_u64`: `len` bytes from `p0` set to v, 8 bytes at a time
      through the fill word. It returns `p0 + len`. */
  method FillU64(m: array<bv8>, p0: nat, v: bv8, len: nat) returns (end: nat)
    requires p0 + len <= m.Length
    modifies m
    ensures end == p0 + len
    ensures FilledOver(m[..], old(m[..]), p0, v, len)
  {
    ghost var a := m[..];
    var wordLen := len / 8;
    var n := wordLen / 8;
    // The switch on `wordLen % 8`, falling through from its case down to 1.
    var p := StoreWords(m, p0, v, wordLen % 8, 8);
    // `while (n-- > 0)`: eight word stores per round.
    while n > 0
      invariant 0 <= n <= wordLen / 8
      invariant p == p0 + (wordLen - 8 * n) * 8
      invariant FilledOver(m[..], a, p0, v, p - p0)
    {
      ghost var before := m[..];
      ghost var k := p - p0;
      p := StoreWords(m, p, v, 8, 8);
      FilledChain(m[..], before, a, p0, v, k, 8 * 8);
      n := n - 1;
    }
    // The switch on `len % 8`: the remaining bytes, each set to v.
    ghost var before := m[..];
    ghost var k := p - p0;
    p := StoreBytes(m, p, v, len % 8);
    FilledChain(m[..], before, a, p0, v, k, len % 8);
    end := p;
  }

  /** `d_memset_u32`: `len` bytes from `p0` set to v, 4 bytes at a time
      through the fill word. It returns `p0 + len`. */
  method FillU32(m: array<bv8>, p0: nat, v: bv8, len: nat) returns (end: nat)
    requires p0 + len <= m.Length
    modifies m
    ensures end == p0 + len
    ensures FilledOver(m[..], old(m[..]), p0, v, len)
  {
    ghost var a := m[..];
    var wordLen := len / 4;
    var n := wordLen / 8;
    // The switch on `wordLen % 8`, falling through from its case down to 1.
    var p := StoreWords(m, p0, v, wordLen % 8, 4);
    // `while (n-- > 0)`: eight word stores per round.
    while n > 0
      invariant 0 <= n <= wordLen / 8
      invariant p == p0 + (wordLen - 8 * n) * 4
      invariant FilledOver(m[..], a, p0, v, p - p0)
    {
      ghost var before := m[..];
      ghost var k := p - p0;
      p := StoreWords(m, p, v, 8, 4);
      FilledChain(m[..], before, a, p0, v, k, 8 * 4);
      n := n - 1;
    }
    // The switch on `len % 4`: the remaining bytes, each set to v.
    ghost var before := m[..];
    ghost var k := p - p0;
    p := StoreBytes(m, p, v, len % 4);
    FilledChain(m[..], before, a, p0, v, k, len % 4);
    end := p;
  }

  /** `d_memset(d_dest, val, len)`: 8-byte words on an 8-aligned pointer,
      4-byte words on one 4 past a multiple of 8. It returns `d_dest + len`;
      exactly `d_dest[0..len)` now holds `val`. */
  method DMemset(m: array<bv8>, p: nat, v: bv8, len: nat) returns (end: nat)
    requires p + len <= m.Length && WordAligned(p)
    modifies m
    ensures end == p + len
    ensures m[..] == old(m[..])[..p] + seq(len, _ => v) + old(m[..])[p + len..]
  {
    if p % 8 == 0 {
      end := FillU64(m, p, v, len);
    } else {
      end := FillU32(m, p, v, len);
    }
    assert m[..] == old(m[..])[..p] + seq(len, _ => v) + old(m[..])[p + len..];
  }
}
