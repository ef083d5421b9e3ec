/** Numbers written in a base, most significant digit first. */
module Radix {
  import opened Powers

  ghost predicate AllBelow(s: seq<nat>, base: nat) {
    forall i :: 0 <= i < |s| ==> s[i] < base
  }

  function Value(base: nat, s: seq<nat>): nat {
    if s == [] then 0 else s[0] * Pow(base, |s| - 1) + Value(base, s[1..])
  }

  /** The shortest representation; zero is written with no digit. */
  function Digits(base: nat, v: nat): seq<nat>
    requires base > 1
  {
    if v == 0 then []
    else
      QuotientIsSmaller(v, base);
      Digits(base, v / base) + [v % base]
  }

  lemma {:induction false} QuotientIsSmaller(v: nat, base: nat)
    requires base > 1 && v > 0
    ensures 0 <= v / base < v && 0 <= v % base < base
  {
    assert v == (v / base) * base + v % base;
    MulMonotone(v / base, 2, base);
  }

  function LeadingZeros(s: seq<nat>): (n: nat)
    ensures n <= |s|
    ensures forall i :: 0 <= i < n ==> s[i] == 0
    ensures n < |s| ==> s[n] != 0
  {
    if s == [] || s[0] != 0 then 0 else 1 + LeadingZeros(s[1..])
  }

  function Strip(s: seq<nat>): seq<nat> {
    s[LeadingZeros(s)..]
  }

  function Zeros(n: nat): (s: seq<nat>)
    ensures |s| == n && forall i :: 0 <= i < n ==> s[i] == 0
  {
    seq(n, _ => 0)
  }

  lemma {:induction false} ValueBound(base: nat, s: seq<nat>)
    requires base > 0 && AllBelow(s, base)
    ensures Value(base, s) < Pow(base, |s|)
  {
    if s != [] {
      ValueBound(base, s[1..]);
      MulMonotone(Pow(base, |s| - 1), s[0] + 1, base);
      assert Pow(base, |s| - 1) * (s[0] + 1) == s[0] * Pow(base, |s| - 1) + Pow(base, |s| - 1);
    }
  }

  lemma {:induction false} ValueAppend(base: nat, s: seq<nat>, x: nat)
    ensures Value(base, s + [x]) == Value(base, s) * base + x
  {
    if s == [] {
      assert Value(base, [x]) == x * Pow(base, 0) + Value(base, []);
    } else {
      ValueAppend(base, s[1..], x);
      assert (s + [x])[1..] == s[1..] + [x];
      ScaledSum(base, s[0], Pow(base, |s| - 1), Value(base, s[1..]));
    }
  }

  lemma {:induction false} ScaledSum(base: nat, digit: nat, p: nat, value: nat)
    ensures (digit * p + value) * base == digit * (base * p) + value * base
  {
    assert digit * (base * p) == (digit * p) * base;
  }

  lemma {:induction false} ValueOfZeros(base: nat, s: seq<nat>)
    requires forall i :: 0 <= i < |s| ==> s[i] == 0
    ensures Value(base, s) == 0
  {
    if s != [] {
      ValueOfZeros(base, s[1..]);
    }
  }

  /** Leading zeros do not count. */
  lemma {:induction false} ValueOfStrip(base: nat, s: seq<nat>)
    ensures Value(base, Strip(s)) == Value(base, s)
  {
    if s != [] && s[0] == 0 {
      ValueOfStrip(base, s[1..]);
      assert Strip(s) == Strip(s[1..]);
    }
  }

  lemma {:induction false} DigitsAreBelow(base: nat, v: nat)
    requires base > 1
    ensures AllBelow(Digits(base, v), base)
    ensures v > 0 ==> Digits(base, v) != [] && Digits(base, v)[0] != 0
    ensures LeadingZeros(Digits(base, v)) == 0
  {
    if v > 0 {
      QuotientIsSmaller(v, base);
      DigitsAreBelow(base, v / base);
      if v / base == 0 {
        SmallQuotient(v, base);
      }
    }
  }

  lemma {:induction false} SmallQuotient(v: nat, base: nat)
    requires base > 1 && v / base == 0
    ensures v % base == v
  {
    assert v == (v / base) * base + v % base;
  }

  lemma {:induction false} LastDigit(base: nat, s: seq<nat>, v: nat)
    requires base > 1 && Value(base, s) == v / base
    ensures Value(base, s + [v % base]) == v
  {
    hide Value;
    ValueAppend(base, s, v % base);
    assert v == (v / base) * base + v % base;
  }

  lemma {:induction false} ValueOfDigits(base: nat, v: nat)
    requires base > 1
    ensures Value(base, Digits(base, v)) == v
  {
    if v > 0 {
      QuotientIsSmaller(v, base);
      ValueOfDigits(base, v / base);
      LastDigit(base, Digits(base, v / base), v);
    }
  }

  lemma {:induction false} ValueIsZeroIff(base: nat, q: nat, x: nat)
    requires base > 0
    ensures q * base + x == 0 <==> q == 0 && x == 0
  {
    if q > 0 {
      MulMonotone(q, 1, base);
    }
  }

  /** A digit string without its leading zeros is the shortest representation of its value. */
  lemma {:induction false} StripIsDigits(base: nat, s: seq<nat>)
    requires base > 1 && AllBelow(s, base)
    ensures Strip(s) == Digits(base, Value(base, s))
    decreases |s|
  {
    if s != [] {
      var t, x := s[..|s| - 1], s[|s| - 1];
      assert s == t + [x];
      StripIsDigits(base, t);
      ValueAppend(base, t, x);
      DivMod(Value(base, t), base, x);
      StripAppend(t, x);
      ValueOfDigits(base, Value(base, t));
      ValueIsZeroIff(base, Value(base, t), x);
    }
  }

  lemma {:induction false} StripAppend(t: seq<nat>, x: nat)
    ensures Strip(t + [x]) == if Strip(t) == [] then (if x == 0 then [] else [x]) else Strip(t) + [x]
  {
    if t == [] {
      assert ([] + [x])[1..] == [];
    } else {
      assert (t + [x])[1..] == t[1..] + [x];
      if t[0] == 0 {
        StripAppend(t[1..], x);
        assert Strip(t) == Strip(t[1..]);
        assert Strip(t + [x]) == Strip(t[1..] + [x]);
      }
    }
  }

  lemma {:induction false} StripOfPadded(n: nat, s: seq<nat>)
    ensures LeadingZeros(Zeros(n) + s) == n + LeadingZeros(s)
  {
    if n == 0 {
      assert Zeros(0) + s == s;
    } else {
      assert (Zeros(n) + s)[1..] == Zeros(n - 1) + s;
      StripOfPadded(n - 1, s);
    }
  }
}
