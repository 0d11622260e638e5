/** `upper_align`: round up to the next multiple of an alignment. */
module Alignment {
  import opened Arith

  /** `(x + align - 1) / align * align`; the source asserts `align > 0`. */
  function UpperAlign(x: nat, align: nat): (r: nat)
    requires align > 0
    ensures r % align == 0
    ensures x <= r < x + align
  {
    var q := (x + align - 1) / align;
    DivMul(x + align - 1, align);
    MultipleMod(q, align);
    q * align
  }

  /** `n / a * a` is `n` less its remainder. */
  lemma DivMul(n: nat, a: nat)
    requires a > 0
    ensures n / a * a == n - n % a
  {
  }

  /** `(q * a) % a == 0`: the quotient of `q * a` by `a` is exactly `q`. */
  lemma MultipleMod(q: nat, a: nat)
    requires a > 0
    ensures (q * a) % a == 0
  {
    var n := q * a;
    var d, m := n / a, n % a;
    assert (q - d) * a == m;
    if q - d >= 1 {
      MulAtLeast(q - d, a);
    } else if q - d <= -1 {
      MulAtLeast(d - q, a);
    }
  }

  /** An aligned value is its own upper alignment ... */
  lemma AlignedIsFixpoint(x: nat, align: nat)
    requires align > 0 && x % align == 0
    ensures UpperAlign(x, align) == x
  {
    Unique(UpperAlign(x, align), x, align);
  }

  /** ... so aligning twice is aligning once. */
  lemma UpperAlignIdempotent(x: nat, align: nat)
    requires align > 0
    ensures UpperAlign(UpperAlign(x, align), align) == UpperAlign(x, align)
  {
    AlignedIsFixpoint(UpperAlign(x, align), align);
  }

  /** The result is the least multiple of `align` that is at least `x`. */
  lemma UpperAlignIsLeast(x: nat, align: nat, m: nat)
    requires align > 0 && m % align == 0 && x <= m
    ensures UpperAlign(x, align) <= m
  {
    var r := UpperAlign(x, align);
    if m < r {
      Unique(r, m, align);
    }
  }

  /** Two multiples of `a` less than `a` apart are equal. */
  lemma Unique(r: nat, m: nat, a: nat)
    requires a > 0 && r % a == 0 && m % a == 0
    requires m <= r < m + a
    ensures r == m
  {
    var qr, qm := r / a, m / a;
    DivMul(r, a);
    DivMul(m, a);
    assert r == qr * a && m == qm * a;
    var k := qr - qm;
    assert r - m == k * a;
    if k >= 1 {
      MulAtLeast(k, a);
      assert false;
    } else if k <= -1 {
      MulAtLeast(-k, a);
      assert false;
    }
  }
}
