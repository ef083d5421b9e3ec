/**
 The block subsidy, with the supply that it adds up to, and the work that a proof-of-work
 target stands for.
 */
module Consensus {
  import opened Amount
  import opened Coins
  import opened Powers
  import opened Uint256

  const HALVING := 306600

  /** Shifting a 64-bit value by 64 or more has no defined result; the subsidy ends before that. */
  const LAST_HEIGHT := 64 * HALVING

  function Subsidy(nHeight: nat): nat {
    if nHeight < 42000 then 420000000
    else if nHeight < 77777 then 7 * COIN
    else if nHeight == 77778 then 10 * COIN
    else Halved(nHeight / HALVING)
  }

  function Halved(n: nat): nat {
    PowPositive(2, n);
    5 * COIN / Pow(2, n)
  }

  method GetBlockValue(nHeight: nat, nFees: int) returns (value: int)
    requires nHeight < LAST_HEIGHT
    ensures value == Subsidy(nHeight) + nFees
  {
    var nSubsidy := 5 * COIN;
    if nHeight < 42000 {
      nSubsidy := 420000000;
    } else if nHeight < 77777 {
      nSubsidy := 7 * COIN;
    } else if nHeight == 77778 {
      nSubsidy := 10 * COIN;
    } else {
      nSubsidy := ShiftRight(nSubsidy, nHeight / HALVING);
    }
    return nSubsidy + nFees;
  }

  method ShiftRight(x: nat, n: nat) returns (r: nat)
    ensures Pow(2, n) > 0 && r == x / Pow(2, n)
  {
    PowPositive(2, n);
    r := x / Pow(2, n);
  }

  /** All the subsidies below a height. */
  function Supply(n: nat): nat {
    if n == 0 then 0 else Supply(n - 1) + Subsidy(n - 1)
  }

  lemma {:induction false} HalvedHalves(n: nat)
    ensures Halved(n + 1) == Halved(n) / 2
  {
    PowPositive(2, n);
    HalfOfQuotient(5 * COIN, Pow(2, n));
  }

  lemma {:induction false} HalfOfQuotient(x: nat, p: nat)
    requires p > 0
    ensures x / (2 * p) == (x / p) / 2
  {
    var q, r := x / p, x % p;
    var h, b := q / 2, q % 2;
    assert x == p * q + r && q == 2 * h + b;
    assert p * (2 * h + b) == h * (2 * p) + p * b;
    QuotientIs(x, 2 * p, h, p * b + r);
  }

  /** After the two years in which the subsidy was fixed by hand, it is half of what it was one period before. */
  lemma {:induction false} SubsidyHalves(n: nat)
    requires n >= 77779
    ensures Subsidy(n + HALVING) == Subsidy(n) / 2
  {
    hide Halved;
    assert (n + HALVING) / HALVING == n / HALVING + 1;
    HalvedHalves(n / HALVING);
  }

  /** The supply while the subsidy is fixed by hand; height 77777 is left out of that and gets the regular one. */
  lemma {:induction false} EarlySupply(n: nat)
    requires n <= 77778
    ensures Supply(n) == if n <= 42000 then 420000000 * n
      else if n <= 77777 then 420000000 * 42000 + 7 * COIN * (n - 42000)
      else 420000000 * 42000 + 7 * COIN * 35777 + 5 * COIN
  {
    if n > 0 {
      EarlySupply(n - 1);
    }
  }

  /** What is left of the period of height `n`, and as much as one more period at its rate. */
  function Outstanding(n: nat): int {
    (HALVING * (n / HALVING + 1) - n) * Halved(n / HALVING) + HALVING * Halved(n / HALVING)
  }

  /** How many of the first `k` halvings round down, losing half a unit a block. */
  function Roundings(k: nat): nat {
    if k == 0 then 0 else Roundings(k - 1) + Halved(k - 1) % 2
  }

  /** One block mints what it takes from the outstanding amount; a halving takes away no more than it rounds. */
  lemma {:induction false} OutstandingFalls(n: nat)
    ensures Outstanding(n + 1) + Halved(n / HALVING) + HALVING * Roundings((n + 1) / HALVING) ==
      Outstanding(n) + HALVING * Roundings(n / HALVING)
  {
    hide Halved;
    var k := n / HALVING;
    var left := HALVING * (k + 1) - n;
    assert (left - 1) * Halved(k) == left * Halved(k) - Halved(k);
    if left == 1 {
      assert (n + 1) / HALVING == k + 1;
      HalvedHalves(k);
      assert Halved(k) == 2 * Halved(k + 1) + Halved(k) % 2;
    } else {
      assert (n + 1) / HALVING == k;
    }
  }

  lemma {:induction false} OutstandingIsNotNegative(n: nat)
    ensures Outstanding(n) >= 0
  {
    hide Halved;
    MulMonotone(Halved(n / HALVING), 0, HALVING * (n / HALVING + 1) - n);
  }

  /** The supply at every height, exactly: all there is to mint, less what is outstanding and what is rounded off. */
  lemma {:induction false} SupplyIs(n: nat)
    requires n >= 77779
    ensures Supply(n) == 3103959 * COIN - Outstanding(n) - HALVING * Roundings(n / HALVING)
  {
    hide Supply, Outstanding, Roundings;
    if n == 77779 {
      SupplyAtFirstPeriod();
    } else {
      SupplyIs(n - 1);
      OneMoreBlock(n - 1);
      OutstandingFalls(n - 1);
      assert Subsidy(n - 1) == Halved((n - 1) / HALVING);
    }
  }

  lemma {:induction false} OneMoreBlock(n: nat)
    ensures Supply(n + 1) == Supply(n) + Subsidy(n)
  {
  }

  lemma {:induction false} SupplyAtFirstPeriod()
    ensures Supply(77779) == 3103959 * COIN - Outstanding(77779) - HALVING * Roundings(77779 / HALVING)
  {
    hide Supply;
    EarlySupply(77778);
    OneMoreBlock(77778);
    assert Halved(0) == 5 * COIN;
  }

  /** The binary digits of `v` that are one. */
  function Ones(v: nat): nat {
    if v == 0 then 0 else v % 2 + Ones(v / 2)
  }

  lemma {:induction false} RoundingsAreOnes(k: nat)
    ensures Roundings(k) + Ones(Halved(k)) == Ones(5 * COIN)
  {
    hide Halved;
    if k == 0 {
      FirstAndLast(0);
    } else {
      RoundingsAreOnes(k - 1);
      HalvedHalves(k - 1);
    }
  }

  lemma {:induction false} FirstAndLast(k: nat)
    ensures Halved(0) == 5 * COIN
    ensures k >= 29 ==> Halved(k) == 0
  {
    hide Pow;
    UnitPower();
    PowPositive(2, k);
    if k >= 29 {
      LargePower();
      PowMonotone(2, 29, k);
      QuotientIs(5 * COIN, Pow(2, k), 0, 5 * COIN);
    }
  }

  lemma {:induction false} UnitPower()
    ensures Pow(2, 0) == 1
  {
  }

  lemma {:induction false} LargePower()
    ensures Pow(2, 29) > 5 * COIN
  {
    assert Pow(2, 7) == 128;
    PowAdd(2, 7, 7);
    PowAdd(2, 14, 14);
    assert Pow(2, 29) == 2 * Pow(2, 28);
  }

  lemma {:induction false} OneMoreDigit(v: nat, a: nat, b: nat, c: nat)
    requires a < 2 && b < 2 && c < 2
    ensures Ones(8 * v + 4 * a + 2 * b + c) == Ones(v) + a + b + c
  {
    hide Ones;
    OneMoreBit(v, a);
    OneMoreBit(2 * v + a, b);
    OneMoreBit(4 * v + 2 * a + b, c);
  }

  lemma {:induction false} OneMoreBit(v: nat, bit: nat)
    requires bit < 2
    ensures Ones(2 * v + bit) == Ones(v) + bit
  {
  }

  lemma {:induction false} OnesOfFiveCoins()
    ensures Ones(5 * COIN) == 13
  {
    hide Ones;
    NoOnes();
    OneMoreDigit(0, 0, 1, 1);
    OneMoreDigit(3, 1, 0, 1);
    OneMoreDigit(29, 1, 1, 0);
    OneMoreDigit(238, 0, 1, 1);
    OneMoreDigit(1907, 0, 1, 0);
    OneMoreDigit(15258, 1, 1, 0);
    OneMoreDigit(122070, 0, 1, 0);
    OneMoreDigit(976562, 1, 0, 0);
    OneMoreDigit(7812500, 0, 0, 0);
    OneMoreDigit(62500000, 0, 0, 0);
  }

  lemma {:induction false} NoOnes()
    ensures Ones(0) == 0
  {
  }

  /**
   At the first regular halving 1570959 coins have been minted, and in the end 3103959, less the 13 units
   that roundings take from a period of blocks.
   */
  lemma {:induction false} SupplyEndsAt(n: nat)
    ensures Supply(HALVING) == 1570959 * COIN
    ensures n >= 29 * HALVING ==> Supply(n) == 3103959 * COIN - 13 * HALVING
  {
    hide Supply, Halved, Ones;
    SupplyIs(HALVING);
    FirstAndLast(n / HALVING);
    OnesOfFiveCoins();
    NoOnes();
    HalvedHalves(0);
    if n >= 29 * HALVING {
      SupplyIs(n);
      RoundingsAreOnes(n / HALVING);
    }
  }

  /** No run of the subsidy schedule reaches `MAX_MONEY`. */
  lemma {:induction false} SupplyStaysBelowMaxMoney(n: nat)
    ensures Supply(n) < MAX_MONEY
  {
    hide Supply, Outstanding;
    if n <= 77778 {
      EarlySupply(n);
    } else {
      SupplyIs(n);
      OutstandingIsNotNegative(n);
    }
  }

  // Chain work.

  /**
   The expected number of hashes for a target. Since 2^256 itself does not fit, the quotient is taken
   one short of it; the one target whose successor wraps to zero cannot be divided by.
   */
  method GetWorkProof(uintTarget: nat) returns (work: Option<nat>)
    requires uintTarget < Limit()
    ensures uintTarget == 0 ==> work == Some(0)
    ensures uintTarget == Pow(2, 256) - 1 ==> work == None
    ensures 0 < uintTarget < Pow(2, 256) - 1 ==> work == Some(Pow(2, 256) / (uintTarget + 1))
  {
    hide Limit, Plus, Pow;
    LimitIsLarge();
    if uintTarget == 0 {
      return Some(0);
    }
    PlusIs(uintTarget, 1);
    var quotient := Divide(Not(uintTarget), Plus(uintTarget, 1));
    if quotient == None {
      return None;
    }
    OneShort(Limit(), uintTarget + 1);
    PlusIs(quotient.value, 1);
    work := Some(Plus(quotient.value, 1));
  }

  lemma {:induction false} LimitIsLarge()
    ensures Limit() == Pow(2, 256) > 2
  {
    PowPositive(2, 254);
    PowAdd(2, 2, 254);
    assert Pow(2, 2) == 4;
  }

  /** The quotient one short, plus one, is the quotient, and it is less than the dividend. */
  lemma {:induction false} OneShort(n: nat, t: nat)
    requires 1 < t < n
    ensures (n - t) / t + 1 == n / t < n
  {
    var q := (n - t) / t;
    assert n - t == t * q + (n - t) % t;
    assert (q + 1) * t == t * q + t && t * q == q * t;
    QuotientIs(n, t, q + 1, (n - t) % t);
    MulMonotone(q, 2, t);
  }

  /** Work never grows with the target, and every target that can be met counts for some. */
  lemma {:induction false} WorkFallsWithTarget(s: nat, t: nat)
    requires 0 < s <= t < Limit() - 1
    ensures Limit() / (s + 1) >= Limit() / (t + 1) >= 1
  {
    hide Limit;
    QuotientFalls(Limit(), s + 1, t + 1);
    QuotientFalls(Limit(), t + 1, Limit());
    QuotientIs(Limit(), Limit(), 1, 0);
  }

  lemma {:induction false} QuotientFalls(n: nat, a: nat, b: nat)
    requires 0 < a <= b
    ensures n / a >= n / b
  {
    var x, y := n / a, n / b;
    assert n == a * x + n % a && n == b * y + n % b;
    assert a * (x + 1) == a * x + a;
    if x < y {
      MulMonotone(a, x + 1, y);
      MulMonotone(y, a, b);
    }
  }
}
