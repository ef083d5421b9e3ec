/** Powers of a natural base. */
module Powers {

  function Pow(b: nat, e: nat): nat {
    if e == 0 then 1 else b * Pow(b, e - 1)
  }

  lemma {:induction false} PowPositive(b: nat, e: nat)
    requires b > 0
    ensures Pow(b, e) > 0
  {
    if e > 0 {
      PowPositive(b, e - 1);
    }
  }

  lemma {:induction false} PowAdd(b: nat, d: nat, e: nat)
    ensures Pow(b, d + e) == Pow(b, d) * Pow(b, e)
  {
    if d > 0 {
      PowAdd(b, d - 1, e);
      assert Pow(b, d + e) == b * (Pow(b, d - 1) * Pow(b, e)) == (b * Pow(b, d - 1)) * Pow(b, e);
    }
  }

  lemma {:induction false} PowMonotone(b: nat, d: nat, e: nat)
    requires b > 0 && d <= e
    ensures Pow(b, d) <= Pow(b, e)
  {
    PowAdd(b, d, e - d);
    PowPositive(b, e - d);
    MulMonotone(Pow(b, d), 1, Pow(b, e - d));
  }

  lemma {:induction false} MulMonotone(p: nat, a: int, b: int)
    requires a <= b
    ensures p * a <= p * b
  {
    assert p * b == p * a + p * (b - a);
  }

  // Rounded-up division.

  function CeilDiv(n: nat, p: nat): nat
    requires p > 0
  {
    (n + p - 1) / p
  }

  lemma {:induction false} CeilDivBounds(n: nat, p: nat)
    requires p > 0
    ensures p * CeilDiv(n, p) - p < n <= p * CeilDiv(n, p)
  {
    assert n + p - 1 == p * ((n + p - 1) / p) + (n + p - 1) % p;
  }

  lemma {:induction false} CeilDivUnique(n: nat, p: nat, w: nat)
    requires p > 0 && p * w - p < n <= p * w
    ensures w == CeilDiv(n, p)
  {
    var q := CeilDiv(n, p);
    CeilDivBounds(n, p);
    assert p * (w + 1) == p * w + p && p * (q + 1) == p * q + p;
    if w < q {
      MulMonotone(p, w + 1, q);
    } else if q < w {
      MulMonotone(p, q + 1, w);
    }
  }

  lemma {:induction false} QuotientIs(a: nat, b: nat, q: nat, r: nat)
    requires b > 0 && a == q * b + r && r < b
    ensures q == a / b
  {
    assert a == b * (a / b) + a % b;
    assert b * (q + 1) == q * b + b && b * (a / b + 1) == b * (a / b) + b;
    if q < a / b {
      MulMonotone(b, q + 1, a / b);
    } else if q > a / b {
      MulMonotone(b, a / b + 1, q);
    }
  }

  /** Quotient and remainder of a number that is given by them. */
  lemma {:induction false} DivMod(q: nat, b: nat, r: nat)
    requires r < b
    ensures (q * b + r) / b == q && (q * b + r) % b == r
  {
    var a := q * b + r;
    QuotientIs(a, b, q, r);
    assert a == b * (a / b) + a % b;
    assert b * q == q * b;
  }

  lemma {:induction false} QuotientBelow(a: nat, b: nat, q: nat)
    requires b > 0 && a < q * b
    ensures a / b < q
  {
    assert a == b * (a / b) + a % b;
    if a / b >= q {
      MulMonotone(b, q, a / b);
    }
  }
}
