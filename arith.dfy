/** Small facts about multiplication of naturals. */
module Arith {
  /** A positive multiple of `a` is at least `a`. */
  lemma {:induction false} MulAtLeast(k: int, a: int)
    requires k >= 1 && a > 0
    ensures k * a >= a
  {
    if k > 1 {
      MulAtLeast(k - 1, a);
      assert k * a == (k - 1) * a + a;
    }
  }

  /** Multiplying by a natural keeps `<=`. */
  lemma {:induction false} MulMono(a: nat, b: nat, c: nat)
    requires a <= b
    ensures a * c <= b * c
  {
    if a < b {
      MulMono(a, b - 1, c);
      assert b * c == (b - 1) * c + c;
    }
  }

  /** Multiplying by a positive natural keeps `<`. */
  lemma MulStrict(a: nat, b: nat, c: nat)
    requires a < b && c > 0
    ensures a * c < b * c
  {
    MulMono(a + 1, b, c);
    assert (a + 1) * c == a * c + c;
  }

  /** One more multiple. */
  lemma MulSucc(a: nat, c: nat)
    ensures (a + 1) * c == a * c + c
  {
  }

  /** Dividing a multiple of `p` by `p` gives the factor back. */
  lemma MulDivCancel(c: nat, p: nat)
    requires p > 0
    ensures (c * p) / p == c
  {
    var q, r := (c * p) / p, (c * p) % p;
    assert c * p == q * p + r && 0 <= r < p;
    if q < c {
      MulMono(q + 1, c, p);
      MulSucc(q, p);
      assert false;
    } else if q > c {
      MulMono(c + 1, q, p);
      MulSucc(c, p);
      assert false;
    }
  }

  /** The quotient of x by d is the q of any `x == q * d + r` with
      `0 <= r < d`. */
  lemma DivUnique(x: nat, d: nat, q: nat, r: nat)
    requires d > 0 && x == q * d + r && r < d
    ensures x / d == q
  {
    var q', r' := x / d, x % d;
    assert x == q' * d + r' && 0 <= r' < d;
    if q' < q {
      MulMono(q' + 1, q, d);
      MulSucc(q', d);
      assert false;
    } else if q' > q {
      MulMono(q + 1, q', d);
      MulSucc(q, d);
      assert false;
    }
  }

  /** Adding the divisor adds one to the quotient. */
  lemma DivStep(x: nat, d: nat)
    requires d > 0
    ensures (x + d) / d == x / d + 1
  {
    var q, r := x / d, x % d;
    MulSucc(q, d);
    DivUnique(x + d, d, q + 1, r);
  }
}
