/**
 * Compressed pointers: the JVM stores references and klass pointers as 32-bit
 * values that decode to 64-bit addresses by a mode-dependent shift and base.
 * The host and the device carry identical copies of these functions.
 */
module JvmArgs {
  import opened Bytes
  import opened Arith

  const MODE_RAW32: int := 1
  const MODE_ZERO_BASED: int := 2
  const MODE_NON_ZERO_BASED: int := 3
  const MODE_RAW64: int := 4

  /** The modes `parse_cptr` and `compress_ptr` handle; RAW64 and any other
      value are unreachable. */
  predicate SupportedMode(mode: int)
  {
    mode == MODE_RAW32 || mode == MODE_ZERO_BASED || mode == MODE_NON_ZERO_BASED
  }

  function Pow2(n: nat): (r: nat)
    ensures r >= 1
  {
    if n == 0 then 1 else 2 * Pow2(n - 1)
  }

  lemma {:induction false} Pow2Mono(a: nat, b: nat)
    requires a <= b
    ensures Pow2(a) <= Pow2(b)
  {
    if a < b {
      Pow2Mono(a, b - 1);
    }
  }

  lemma Pow2Wide()
    ensures Pow2(32) == U32_MOD && Pow2(64) == U64_MOD
  {
    assert Pow2(8) == 0x100;
    assert Pow2(16) == 0x1_0000;
    assert Pow2(32) == Pow2(16) * Pow2(16) by { Pow2Add(16, 16); }
    assert Pow2(64) == Pow2(32) * Pow2(32) by { Pow2Add(32, 32); }
  }

  lemma {:induction false} Pow2Add(a: nat, b: nat)
    ensures Pow2(a + b) == Pow2(a) * Pow2(b)
  {
    if b > 0 {
      Pow2Add(a, b - 1);
      assert Pow2(a + b) == 2 * Pow2(a + b - 1);
    }
  }

  /** `x << s` on a 64-bit value: the bits shifted out are lost. */
  function Shl64(x: U64, s: nat): (r: U64)
  {
    (x * Pow2(s)) % U64_MOD
  }

  /** `x >> s` on an unsigned value. */
  function Shr(x: nat, s: nat): (r: int)
  {
    x / Pow2(s)
  }

  /** The arguments the JVM was started with (`jvm_args_t`). */
  datatype JvmConfig = JvmConfig(
    heapBase: U64, heapMode: int, heapShift: nat,
    classSpaceBase: U64, metaspaceMode: int, metaspaceShift: nat)

  /** `parse_cptr(cptr, base, mode, shift)`: the address a compressed
      pointer stands for, computed in 64-bit arithmetic. */
  function ParseCptr(cptr: U32, base: U64, mode: int, shift: nat): (p: U64)
    requires SupportedMode(mode) && shift < 64
    ensures mode == MODE_RAW32 ==> p == cptr
  {
    Pow2Wide();
    if mode == MODE_RAW32 then cptr
    else if mode == MODE_ZERO_BASED then Shl64(cptr, shift)
    else (base + Shl64(cptr, shift)) % U64_MOD
  }

  /** `compress_ptr(ptr, base, mode, shift)` as written: the 64-bit result
      truncated to 32 bits. In the non-zero-based mode the base is taken off
      after the shift. */
  function CompressPtr(ptr: U64, base: U64, mode: int, shift: nat): (c: U32)
    requires SupportedMode(mode) && shift < 64
    ensures mode == MODE_RAW32 ==> c == ptr % U32_MOD
  {
    if mode == MODE_RAW32 then ptr % U32_MOD
    else if mode == MODE_ZERO_BASED then Shr(ptr, shift) % U32_MOD
    else (Shr(ptr, shift) - base) % U32_MOD
  }

  /** The non-zero-based encoding that inverts `parse_cptr`: take the base
      off first, then shift. */
  function CompressPtrIntended(ptr: U64, base: U64, mode: int, shift: nat): (c: U32)
    requires SupportedMode(mode) && shift < 64
  {
    if mode == MODE_NON_ZERO_BASED then Shr((ptr - base) % U64_MOD, shift) % U32_MOD
    else CompressPtr(ptr, base, mode, shift)
  }

  /** In raw 32-bit mode a compressed pointer is its own address. */
  lemma Raw32RoundTrip(c: U32, base: U64, shift: nat)
    requires shift < 64
    ensures CompressPtr(ParseCptr(c, base, MODE_RAW32, shift), base, MODE_RAW32, shift) == c
  {
  }

  /** In zero-based mode with a shift of at most 32 no bit is lost, so
      compressing a decoded pointer gives it back. */
  lemma {:induction false} ZeroBasedRoundTrip(c: U32, base: U64, shift: nat)
    requires shift <= 32
    ensures CompressPtr(ParseCptr(c, base, MODE_ZERO_BASED, shift), base, MODE_ZERO_BASED, shift) == c
  {
    Pow2Wide();
    Pow2Mono(shift, 32);
    var P := Pow2(shift);
    MulMono(P, U32_MOD, c);
    MulStrict(c, U32_MOD, U32_MOD);
    assert c * P < U64_MOD;
    assert Shl64(c, shift) == c * P;
    MulDivCancel(c, P);
  }

  /** As written, the non-zero-based mode does not round-trip: decoding 1
      with base 8 and shift 3 gives address 16, which compresses to
      2 - 8, that is 0xFFFFFFFA. */
  lemma NonZeroBasedAsWrittenFails()
    ensures ParseCptr(1, 8, MODE_NON_ZERO_BASED, 3) == 16
    ensures CompressPtr(16, 8, MODE_NON_ZERO_BASED, 3) == 0xFFFF_FFFA
  {
    Pow2Wide();
    assert Pow2(3) == 8;
  }

  /** Removing the base before the shift restores the round trip whenever
      the decoded address does not wrap. */
  lemma {:induction false} NonZeroBasedIntendedRoundTrip(c: U32, base: U64, shift: nat)
    requires shift <= 32 && base + c * Pow2(shift) < U64_MOD
    ensures CompressPtrIntended(ParseCptr(c, base, MODE_NON_ZERO_BASED, shift), base, MODE_NON_ZERO_BASED, shift) == c
  {
    Pow2Wide();
    var P := Pow2(shift);
    assert c * P < U64_MOD;
    assert Shl64(c, shift) == c * P;
    assert ParseCptr(c, base, MODE_NON_ZERO_BASED, shift) == base + c * P;
    MulDivCancel(c, P);
  }

  /** `parse_heap_cptr` and `compress_heap_ptr`: the heap's own base, mode
      and shift. */
  function ParseHeapCptr(cfg: JvmConfig, cptr: U32): (p: U64)
    requires SupportedMode(cfg.heapMode) && cfg.heapShift < 64
  {
    ParseCptr(cptr, cfg.heapBase, cfg.heapMode, cfg.heapShift)
  }

  function CompressHeapPtr(cfg: JvmConfig, ptr: U64): (c: U32)
    requires SupportedMode(cfg.heapMode) && cfg.heapShift < 64
  {
    CompressPtr(ptr, cfg.heapBase, cfg.heapMode, cfg.heapShift)
  }

  /** `parse_metaspace_cptr` and `compress_metaspace_ptr`: the compressed
      class space's own base, mode and shift. */
  function ParseMetaspaceCptr(cfg: JvmConfig, cptr: U32): (p: U64)
    requires SupportedMode(cfg.metaspaceMode) && cfg.metaspaceShift < 64
  {
    ParseCptr(cptr, cfg.classSpaceBase, cfg.metaspaceMode, cfg.metaspaceShift)
  }

  function CompressMetaspacePtr(cfg: JvmConfig, ptr: U64): (c: U32)
    requires SupportedMode(cfg.metaspaceMode) && cfg.metaspaceShift < 64
  {
    CompressPtr(ptr, cfg.classSpaceBase, cfg.metaspaceMode, cfg.metaspaceShift)
  }

  /** A heap configured raw or zero-based with a shift of at most 32 gets
      every compressed reference back, and likewise the class space. */
  lemma HeapAndMetaspaceRoundTrip(cfg: JvmConfig, c: U32)
    requires cfg.heapMode == MODE_RAW32 || (cfg.heapMode == MODE_ZERO_BASED && cfg.heapShift <= 32)
    requires cfg.metaspaceMode == MODE_RAW32 || (cfg.metaspaceMode == MODE_ZERO_BASED && cfg.metaspaceShift <= 32)
    requires cfg.heapShift < 64 && cfg.metaspaceShift < 64
    ensures CompressHeapPtr(cfg, ParseHeapCptr(cfg, c)) == c
    ensures CompressMetaspacePtr(cfg, ParseMetaspaceCptr(cfg, c)) == c
  {
    if cfg.heapMode == MODE_ZERO_BASED {
      ZeroBasedRoundTrip(c, cfg.heapBase, cfg.heapShift);
    }
    if cfg.metaspaceMode == MODE_ZERO_BASED {
      ZeroBasedRoundTrip(c, cfg.classSpaceBase, cfg.metaspaceShift);
    }
  }
}
