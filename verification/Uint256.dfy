/** The arithmetic of 256-bit unsigned integers that the chain work needs, on numbers below 2^256. */
module Uint256 {
  import opened Coins
  import opened Powers

  function Limit(): (limit: nat)
    ensures limit > 0
  {
    PowPositive(2, 256);
    Pow(2, 256)
  }

  function Not(x: nat): nat
    requires x < Limit()
  {
    Limit() - 1 - x
  }

  function Plus(x: nat, y: nat): nat {
    (x + y) % Limit()
  }

  lemma {:induction false} PlusIs(x: nat, y: nat)
    ensures x + y < Limit() ==> Plus(x, y) == x + y
    ensures x + y == Limit() ==> Plus(x, y) == 0
  {
    hide Limit;
  }

  /** `bits`: the position of the highest set bit, counted from one. */
  function NumBits(n: nat): nat {
    if n == 0 then 0 else 1 + NumBits(n / 2)
  }

  lemma {:induction false} NumBitsBounds(n: nat)
    ensures n < Pow(2, NumBits(n))
    ensures n > 0 ==> NumBits(n) > 0 && Pow(2, NumBits(n) - 1) <= n
  {
    if n > 0 {
      NumBitsBounds(n / 2);
    }
  }

  /** Long division in base two: the divisor is shifted up to the dividend and back down, one bit at a time. */
  method Divide(a: nat, b: nat) returns (quotient: Option<nat>)
    requires a < Limit() && b < Limit()
    ensures b == 0 ==> quotient == None
    ensures b > 0 ==> quotient == Some(a / b)
  {
    hide Pow, NumBits;
    var div: nat, num: nat, q: nat := b, a, 0;
    var numBits, divBits := NumBits(num), NumBits(div);
    NumBitsBounds(a);
    NumBitsBounds(b);
    if b == 0 {
      return None;
    }
    if divBits > numBits {
      ShorterIsLess(a, b, numBits, divBits);
      QuotientIs(a, b, 0, a);
      return Some(0);
    }
    var shift: int := numBits - divBits;
    Aligned(a, b, numBits, divBits);
    div := div * Pow(2, shift);
    while shift >= 0
      invariant -1 <= shift
      invariant a == q * b + num && num < b * Pow(2, shift + 1)
      invariant shift >= 0 ==> div == b * Pow(2, shift)
      decreases shift
    {
      HalfStep(b, shift);
      if num >= div {
        SubtractStep(q, b, Pow(2, shift), num);
        num := num - div;
        q := q + Pow(2, shift);
      }
      div := div / 2;
      shift := shift - 1;
    }
    PowZero();
    QuotientIs(a, b, q, num);
    quotient := Some(q);
  }

  lemma {:induction false} PowZero()
    ensures Pow(2, 0) == 1
  {
  }

  lemma {:induction false} HalfStep(b: nat, shift: nat)
    ensures b * Pow(2, shift + 1) == b * Pow(2, shift) + b * Pow(2, shift)
    ensures shift > 0 ==> b * Pow(2, shift) / 2 == b * Pow(2, shift - 1)
  {
    if shift > 0 {
      assert b * Pow(2, shift) == 2 * (b * Pow(2, shift - 1));
    }
  }

  lemma {:induction false} SubtractStep(q: nat, b: nat, p: nat, num: nat)
    ensures q * b + num == (q + p) * b + (num - b * p)
  {
  }

  lemma {:induction false} ShorterIsLess(a: nat, b: nat, m: nat, n: nat)
    requires a < Pow(2, m) && m < n && Pow(2, n - 1) <= b
    ensures a < b
  {
    PowMonotone(2, m, n - 1);
  }

  lemma {:induction false} Aligned(a: nat, b: nat, m: nat, n: nat)
    requires a < Pow(2, m) && 0 < n <= m && Pow(2, n - 1) <= b
    ensures a < b * Pow(2, m - n + 1)
  {
    PowAdd(2, n - 1, m - n + 1);
    MulMonotone(Pow(2, m - n + 1), Pow(2, n - 1), b);
    assert b * Pow(2, m - n + 1) == Pow(2, m - n + 1) * b;
  }
}
