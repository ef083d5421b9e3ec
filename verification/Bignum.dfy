/**
 The compact form of a big number: one byte of size and three bytes of mantissa with a sign bit.
 A big number is an integer; the shifts and masks of the code are divisions and remainders. Forms
 are read whether they could have been written or not.
 */
module Bignum {
  import opened Powers

  const SIGN := 0x80_0000
  const SIZE_UNIT := 0x100_0000
  const WORD := 0x1_0000_0000

  /** `BN_num_bytes`. */
  function NumBytes(n: nat): nat {
    if n == 0 then 0 else 1 + NumBytes(n / 256)
  }

  function Abs(x: int): nat {
    if x < 0 then -x else x
  }

  function WithSign(negative: bool, magnitude: nat): int {
    if negative then 0 - magnitude else magnitude
  }

  /** The number a compact form stands for. */
  function FromCompact(nCompact: nat): int {
    WithSign(nCompact / SIGN % 2 == 1, Magnitude(nCompact / SIZE_UNIT, nCompact % SIGN))
  }

  function Magnitude(nSize: nat, nWord: nat): nat {
    PowPositive(256, if nSize <= 3 then 3 - nSize else 0);
    if nSize <= 3 then nWord / Pow(256, 3 - nSize) else nWord * Pow(256, nSize - 3)
  }

  /** The size byte leaves room for the sign bit, so it is the number of bytes of twice the number. */
  function Exponent(n: nat): nat {
    NumBytes(2 * n)
  }

  /** The number moved so that byte `size` becomes the third byte. */
  function ThreeBytes(n: nat, size: nat): nat {
    PowPositive(256, if size <= 3 then 0 else size - 3);
    if size <= 3 then n * Pow(256, 3 - size) else n / Pow(256, size - 3)
  }

  function Mantissa(n: nat): nat {
    ThreeBytes(n, Exponent(n))
  }

  /** The compact form with as much room for the size as it takes; `GetCompact` keeps 32 bits of it. */
  function ToCompact(x: int): nat {
    Pack(Exponent(Abs(x)), Mantissa(Abs(x)), x < 0)
  }

  function Pack(size: nat, mantissa: nat, negative: bool): nat {
    size * SIZE_UNIT + mantissa + if negative then SIGN else 0
  }

  class CBigNum {
    var value: int

    constructor (value: int)
      ensures this.value == value
    {
      this.value := value;
    }

    method SetCompact(nCompact: nat)
      requires nCompact < 0x1_0000_0000
      modifies this
      ensures value == FromCompact(nCompact)
    {
      var nSize := nCompact / SIZE_UNIT;
      var fNegative := nCompact / SIGN % 2 != 0;
      var nWord := nCompact % SIGN;
      if nSize <= 3 {
        PowPositive(256, 3 - nSize);
        nWord := nWord / Pow(256, 3 - nSize);
        value := nWord;
      } else {
        value := nWord;
        value := value * Pow(256, nSize - 3);
      }
      if fNegative {
        value := -value;
      }
    }

    /** A size that does not fit its byte is shifted out of the word. */
    method GetCompact() returns (nCompact: nat)
      ensures nCompact == ToCompact(value) % WORD
      ensures nCompact == ToCompact(value) <==> Exponent(Abs(value)) < 256
    {
      hide NumBytes, Pow, Mantissa, Exponent, Pack;
      var magnitude := Abs(value);
      var nSize := NumBytes(magnitude);
      TopBytes(magnitude);
      if nSize <= 3 {
        nCompact := magnitude * Pow(256, 3 - nSize);
      } else {
        PowPositive(256, nSize - 3);
        nCompact := magnitude / Pow(256, nSize - 3);
      }
      SignBit(nCompact);
      if nCompact / SIGN % 2 != 0 {
        nCompact := nCompact / 256;
        nSize := nSize + 1;
      }
      MantissaBounds(magnitude);
      Packed(nSize, nCompact, value < 0);
      nCompact := nCompact + nSize * SIZE_UNIT % WORD;
      nCompact := nCompact + if value < 0 then SIGN else 0;
    }
  }

  lemma {:induction false} SignBit(top: nat)
    requires top < SIZE_UNIT
    ensures top / SIGN % 2 != 0 <==> top >= SIGN
  {
  }

  lemma {:induction false} Packed(size: nat, mantissa: nat, negative: bool)
    requires mantissa < SIGN
    ensures Pack(size, mantissa, negative) % WORD == mantissa + size * SIZE_UNIT % WORD + if negative then SIGN else 0
    ensures Pack(size, mantissa, negative) % WORD == Pack(size, mantissa, negative) <==> size < 256
  {
    var q, r := size / 256, size % 256;
    DivMod(q, WORD, r * SIZE_UNIT);
    DivMod(q, WORD, r * SIZE_UNIT + mantissa + if negative then SIGN else 0);
  }

  lemma {:induction false} NumBytesBounds(n: nat)
    ensures n < Pow(256, NumBytes(n))
    ensures n > 0 ==> Pow(256, NumBytes(n) - 1) <= n
  {
    if n > 0 {
      NumBytesBounds(n / 256);
    }
  }

  lemma {:induction false} NumBytesUnique(n: nat, k: nat)
    requires n < Pow(256, k) && (k > 0 ==> Pow(256, k - 1) <= n)
    ensures NumBytes(n) == k
  {
    if k > 0 {
      PowPositive(256, k - 1);
      if k > 1 {
        assert Pow(256, k - 1) == 256 * Pow(256, k - 2);
      }
      NumBytesUnique(n / 256, k - 1);
    }
  }

  lemma {:induction false} NumBytesMonotone(m: nat, n: nat)
    requires m <= n
    ensures NumBytes(m) <= NumBytes(n)
  {
    if m > 0 {
      NumBytesMonotone(m / 256, n / 256);
    }
  }

  lemma {:induction false} DivBounds(n: nat, p: nat, lo: nat, hi: nat)
    requires p > 0 && lo * p <= n < hi * p
    ensures lo <= n / p < hi
  {
    assert n == p * (n / p) + n % p;
    assert p * (n / p + 1) == p * (n / p) + p;
    if n / p < lo {
      MulMonotone(p, n / p + 1, lo);
    } else if n / p >= hi {
      MulMonotone(p, hi, n / p);
    }
  }

  lemma {:induction false} DivOfDiv(n: nat, p: nat)
    requires p > 0
    ensures n / p / 256 == n / (256 * p)
  {
    var q := n / p / 256;
    var r, t := n % p, n / p % 256;
    assert n == p * (n / p) + r;
    Regroup(p, q, t, r);
    QuotientIs(n, 256 * p, q, p * t + r);
  }

  lemma {:induction false} Regroup(p: nat, q: nat, t: nat, r: nat)
    requires t < 256 && r < p
    ensures p * (256 * q + t) + r == (256 * p) * q + (p * t + r) && p * t + r < 256 * p
  {
    assert p * (256 * q + t) == p * (256 * q) + p * t;
    assert p * (256 * q) == (256 * p) * q;
    MulMonotone(p, t, 255);
  }

  lemma {:induction false} QuotientOfSum(p: nat, a: nat, r: nat)
    requires p > 0
    ensures (p * a + r) / p == a + r / p
  {
    var n := p * a + r;
    assert r == p * (r / p) + r % p;
    assert p * (a + r / p) == p * a + p * (r / p);
    assert p * (a + r / p + 1) == p * (a + r / p) + p;
    assert (a + r / p) * p == p * (a + r / p) && (a + r / p + 1) * p == p * (a + r / p + 1);
    DivBounds(n, p, a + r / p, a + r / p + 1);
  }

  /** The two ways to a mantissa agree: shift first and correct for the sign bit, or leave room for it at once. */
  lemma {:induction false} TopBytes(n: nat)
    ensures var k := NumBytes(n);
      var top := ThreeBytes(n, k);
      && top < SIZE_UNIT
      && (top >= SIGN ==> Exponent(n) == k + 1 && Mantissa(n) == top / 256)
      && (top < SIGN ==> Exponent(n) == k && Mantissa(n) == top)
  {
    var k := NumBytes(n);
    NumBytesBounds(n);
    if n > 0 {
      if k <= 3 {
        SmallTop(n, k);
      } else {
        LargeTop(n, k);
      }
    }
  }

  lemma {:induction false} SmallTop(n: nat, k: nat)
    requires 0 < k <= 3 && Pow(256, k - 1) <= n < Pow(256, k)
    ensures var top := ThreeBytes(n, k);
      && top < SIZE_UNIT
      && (top >= SIGN ==> Exponent(n) == k + 1 && Mantissa(n) == top / 256)
      && (top < SIGN ==> Exponent(n) == k && Mantissa(n) == top)
  {
    assert Pow(256, 0) == 1 && Pow(256, 1) == 256 && Pow(256, 2) == 0x1_0000 && Pow(256, 3) == SIZE_UNIT &&
      Pow(256, 4) == 256 * SIZE_UNIT;
    NumBytesUnique(2 * n, if n * Pow(256, 3 - k) >= SIGN then k + 1 else k);
  }

  lemma {:induction false} LargeTop(n: nat, k: nat)
    requires k > 3 && Pow(256, k - 1) <= n < Pow(256, k)
    ensures var top := ThreeBytes(n, k);
      && top < SIZE_UNIT
      && (top >= SIGN ==> Exponent(n) == k + 1 && Mantissa(n) == top / 256)
      && (top < SIGN ==> Exponent(n) == k && Mantissa(n) == top)
  {
    hide NumBytes;
    PowPositive(256, k - 3);
    var p := Pow(256, k - 3);
    assert Pow(256, k - 2) == 256 * p && Pow(256, k - 1) == 256 * 256 * p && Pow(256, k) == SIZE_UNIT * p &&
      Pow(256, k + 1) == 256 * SIZE_UNIT * p;
    DivBounds(n, p, 0x1_0000, SIZE_UNIT);
    var top := n / p;
    SideOfSign(n, p);
    NumBytesUnique(2 * n, if top >= SIGN then k + 1 else k);
    DivOfDiv(n, p);
  }

  lemma {:induction false} SideOfSign(n: nat, p: nat)
    requires p > 0
    ensures n / p >= SIGN <==> 2 * n >= SIZE_UNIT * p
  {
    var top := n / p;
    assert n == p * top + n % p;
    assert p * (top + 1) == p * top + p;
    if top >= SIGN {
      MulMonotone(p, SIGN, top);
    } else {
      MulMonotone(p, top + 1, SIGN);
    }
  }

  lemma {:induction false} MantissaBounds(n: nat)
    ensures Mantissa(n) < SIGN
    ensures Exponent(n) > 3 ==> Mantissa(n) >= 0x8000
  {
    NumBytesBounds(2 * n);
    var e := Exponent(n);
    if e <= 3 {
      assert Pow(256, 0) == 1 && Pow(256, 1) == 256 && Pow(256, 2) == 0x1_0000 && Pow(256, 3) == SIZE_UNIT;
    } else {
      PowPositive(256, e - 3);
      var p := Pow(256, e - 3);
      assert Pow(256, e - 2) == 256 * p && Pow(256, e - 1) == 0x1_0000 * p && Pow(256, e) == SIZE_UNIT * p;
      DivBounds(n, p, 0x8000, SIGN);
    }
  }

  lemma {:induction false} FieldsOfCompact(e: nat, m: nat, negative: bool)
    requires m < SIGN
    ensures var c := Pack(e, m, negative);
      c / SIZE_UNIT == e && c % SIGN == m && c / SIGN % 2 == if negative then 1 else 0
  {
  }

  /** The magnitude that survives: the number with all but its leading bits cleared. */
  function Rounded(n: nat): nat {
    var e := Exponent(n);
    if e <= 3 then n else Mantissa(n) * Pow(256, e - 3)
  }

  /** Reading a compact form back gives the rounded number, with its sign. */
  lemma {:induction false} FromToCompact(x: int)
    ensures FromCompact(ToCompact(x)) == WithSign(x < 0, Rounded(Abs(x)))
  {
    hide NumBytes, Pow, Pack;
    var n := Abs(x);
    var e, m := Exponent(n), Mantissa(n);
    MantissaBounds(n);
    FieldsOfCompact(e, m, x < 0);
    if e <= 3 {
      PowPositive(256, 3 - e);
      QuotientOfSum(Pow(256, 3 - e), n, 0);
      assert n * Pow(256, 3 - e) == Pow(256, 3 - e) * n;
    }
  }

  lemma {:induction false} FloorIsClose(n: nat, p: nat)
    requires p > 0 && n / p >= 0x8000
    ensures n / p * p <= n && (n - n / p * p) * 0x8000 <= n
  {
    assert n == p * (n / p) + n % p && n / p * p == p * (n / p);
    MulMonotone(p, 0x8000, n / p);
  }

  /**
   For every form, whether `GetCompact` gives it or not: the number has `size` bytes of which the mantissa is the
   first three, and what of the mantissa lies below the last byte is dropped.
   */
  lemma {:induction false} CompactIsScaled(nCompact: nat)
    ensures Pow(256, 3) > 0
    ensures var size, mantissa := nCompact / SIZE_UNIT, nCompact % SIGN;
            Abs(FromCompact(nCompact)) == mantissa * Pow(256, size) / Pow(256, 3)
    ensures FromCompact(nCompact) < 0 ==> nCompact / SIGN % 2 == 1
    ensures FromCompact(nCompact) > 0 ==> nCompact / SIGN % 2 == 0
  {
    hide Pow, Magnitude;
    var size, mantissa := nCompact / SIZE_UNIT, nCompact % SIGN;
    SizeIsScale(size, mantissa);
  }

  lemma {:induction false} SizeIsScale(size: nat, mantissa: nat)
    ensures Pow(256, 3) > 0 && Magnitude(size, mantissa) == mantissa * Pow(256, size) / Pow(256, 3)
  {
    hide Pow;
    PowPositive(256, 3);
    if size <= 3 {
      PowPositive(256, 3 - size);
      PowPositive(256, size);
      PowAdd(256, 3 - size, size);
      CancelScale(mantissa, Pow(256, size), Pow(256, 3 - size));
    } else {
      PowAdd(256, size - 3, 3);
      ScaleBack(mantissa, Pow(256, size - 3), Pow(256, 3));
    }
  }

  lemma {:induction false} CancelScale(n: nat, p: nat, q: nat)
    requires p > 0 && q > 0
    ensures q * p > 0 && n * p / (q * p) == n / q
  {
    MulMonotone(q, 1, p);
    var r := n % q;
    MulMonotone(p, r + 1, q);
    assert n == q * (n / q) + r;
    assert n * p == (n / q) * (q * p) + r * p;
    assert r * p < q * p;
    QuotientIs(n * p, q * p, n / q, r * p);
  }

  lemma {:induction false} ScaleBack(n: nat, p: nat, q: nat)
    requires q > 0
    ensures n * (p * q) / q == n * p
  {
    assert n * (p * q) == (n * p) * q;
    QuotientIs(n * (p * q), q, n * p, 0);
  }

  /** What a compact form stands for has a compact form of its own: no number that was read is rounded when written. */
  lemma {:induction false} CompactIsExact(nCompact: nat)
    ensures FromCompact(ToCompact(FromCompact(nCompact))) == FromCompact(nCompact)
  {
    hide NumBytes, Pow, Magnitude, Rounded, ToCompact;
    var x := FromCompact(nCompact);
    FromToCompact(x);
    MagnitudeIsExact(nCompact / SIZE_UNIT, nCompact % SIGN);
  }

  lemma {:induction false} MagnitudeIsExact(size: nat, mantissa: nat)
    requires mantissa < SIGN
    ensures Rounded(Magnitude(size, mantissa)) == Magnitude(size, mantissa)
  {
    hide NumBytes, Pow, Rounded;
    if size <= 3 {
      PowPositive(256, 3 - size);
      QuotientBelow(mantissa, Pow(256, 3 - size), SIGN);
      RoundTripIsClose(Magnitude(size, mantissa));
    } else {
      ScaledIsExact(mantissa, size - 3);
    }
  }

  lemma {:induction false} ScaledIsExact(mantissa: nat, shift: nat)
    requires mantissa < SIGN
    ensures Rounded(mantissa * Pow(256, shift)) == mantissa * Pow(256, shift)
  {
    hide NumBytes, Pow;
    var p := Pow(256, shift);
    var n := mantissa * p;
    var e := Exponent(n);
    PowPositive(256, shift);
    PowAdd(256, 3, shift);
    SmallValues();
    MulMonotone(p, 2 * mantissa + 1, SIZE_UNIT);
    assert p * (2 * mantissa + 1) == 2 * n + p;
    FewBytes(2 * n, shift + 3);
    if e > 3 {
      PowAdd(256, shift - (e - 3), e - 3);
      PowPositive(256, e - 3);
      Divides(mantissa, Pow(256, shift - (e - 3)), Pow(256, e - 3));
    }
  }

  lemma {:induction false} FewBytes(n: nat, k: nat)
    requires n < Pow(256, k)
    ensures NumBytes(n) <= k
  {
    if n > 0 {
      FewBytes(n / 256, k - 1);
    }
  }

  lemma {:induction false} Divides(m: nat, p: nat, q: nat)
    requires q > 0
    ensures m * (p * q) / q * q == m * (p * q)
  {
    ScaleBack(m, p, q);
    assert m * (p * q) == (m * p) * q;
  }

  /** The round trip loses at most one part in 2^15, always downwards, and nothing below 2^23. */
  lemma {:induction false} RoundTripIsClose(n: nat)
    ensures Rounded(n) <= n && (n - Rounded(n)) * 0x8000 <= n
    ensures n < SIGN ==> Rounded(n) == n
  {
    hide NumBytes, Pow;
    var e := Exponent(n);
    NumBytesBounds(2 * n);
    MantissaBounds(n);
    if e > 3 {
      PowPositive(256, e - 3);
      FloorIsClose(n, Pow(256, e - 3));
      PowMonotone(256, 3, e - 1);
      SmallValues();
    }
  }

  lemma {:induction false} SmallValues()
    ensures Pow(256, 1) == 256 && Pow(256, 3) == SIZE_UNIT && NumBytes(0) == 0
  {
  }

  /** A second round trip changes nothing. */
  lemma {:induction false} RoundTripIsStable(n: nat)
    ensures Rounded(Rounded(n)) == Rounded(n) && ToCompact(Rounded(n)) == ToCompact(n)
  {
    hide NumBytes, Pow;
    var e, m := Exponent(n), Mantissa(n);
    if e > 3 {
      PowPositive(256, e - 3);
      var p := Pow(256, e - 3);
      MantissaBounds(n);
      SizeOfScaled(e, m);
      assert p * m == m * p;
      QuotientOfSum(p, m, 0);
    }
  }

  lemma {:induction false} SizeOfScaled(e: nat, m: nat)
    requires e > 3 && 0x8000 <= m < SIGN
    ensures NumBytes(2 * (m * Pow(256, e - 3))) == e
  {
    hide NumBytes;
    PowPositive(256, e - 3);
    var p := Pow(256, e - 3);
    assert Pow(256, e - 2) == 256 * p && Pow(256, e - 1) == 0x1_0000 * p && Pow(256, e) == SIZE_UNIT * p;
    assert p * m == m * p;
    MulMonotone(p, 0x8000, m);
    MulMonotone(p, m + 1, SIGN);
    assert p * (m + 1) == p * m + p;
    NumBytesUnique(2 * (m * p), e);
  }

  lemma {:induction false} ScaleMonotone(m: nat, n: nat, p: nat)
    requires m <= n
    ensures m * p <= n * p
    ensures p > 0 ==> m / p <= n / p
  {
    MulMonotone(p, m, n);
    if p > 0 {
      assert n == p * (n / p) + n % p;
      assert (n / p + 1) * p == p * (n / p) + p;
      DivBounds(m, p, 0, n / p + 1);
    }
  }

  lemma {:induction false} ThreeBytesMonotone(m: nat, n: nat, size: nat)
    requires m <= n
    ensures ThreeBytes(m, size) <= ThreeBytes(n, size)
  {
    hide Pow;
    if size <= 3 {
      ScaleMonotone(m, n, Pow(256, 3 - size));
    } else {
      PowPositive(256, size - 3);
      ScaleMonotone(m, n, Pow(256, size - 3));
    }
  }

  /** A larger number never gets a smaller compact form. */
  lemma {:induction false} CompactKeepsOrder(m: nat, n: nat)
    requires m <= n
    ensures ToCompact(m) <= ToCompact(n)
  {
    hide NumBytes, ThreeBytes;
    NumBytesMonotone(2 * m, 2 * n);
    MantissaBounds(m);
    MantissaBounds(n);
    ThreeBytesMonotone(m, n, Exponent(n));
  }

  /** All targets below 2^256 have a compact form of 32 bits. */
  lemma {:induction false} TargetsFit(n: nat)
    requires n < Pow(2, 256)
    ensures Exponent(n) < 256
  {
    hide Pow;
    PowOfPow(32);
    PowPositive(256, 32);
    PowAdd(256, 1, 32);
    SmallValues();
    NumBytesBounds(2 * n);
    if n > 0 && NumBytes(2 * n) > 33 {
      PowMonotone(256, 33, NumBytes(2 * n) - 1);
    }
  }

  lemma {:induction false} PowOfPow(k: nat)
    ensures Pow(256, k) == Pow(2, 8 * k)
  {
    if k > 0 {
      PowOfPow(k - 1);
      PowAdd(2, 8, 8 * (k - 1));
      assert Pow(2, 8) == 256;
    }
  }
}
