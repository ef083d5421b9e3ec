/**
 Base58: the in-place radix conversions of `EncodeBase58` and `DecodeBase58`, the bound that
 makes their fixed buffers large enough, the spaces and refusals of the decoder, and the
 checksummed variants over an abstract hash. Bytes are naturals below 256.
 */
module Base58 {
  import opened Coins
  import opened Radix
  import opened Powers

  type bytes = seq<nat>

  ghost predicate AreBytes(b: bytes) { AllBelow(b, 256) }

  // ----------------------------------------------------------------- alphabet

  /** The 58 characters in order: no 0, I, O or l. */
  const ALPHABET: string := "123456789" + "ABCDEFGH" + "JKLMN" + "PQRSTUVWXYZ" + "abcdefghijk" + "mnopqrstuvwxyz"

  function CharOf(d: nat): char
    requires d < 58
  {
    ALPHABET[d]
  }

  /** The offset that `strchr` finds, or -1. */
  function DigitOf(c: char): int {
    if '1' <= c <= '9' then c as int - '1' as int
    else if 'A' <= c <= 'H' then c as int - 'A' as int + 9
    else if 'J' <= c <= 'N' then c as int - 'J' as int + 17
    else if 'P' <= c <= 'Z' then c as int - 'P' as int + 22
    else if 'a' <= c <= 'k' then c as int - 'a' as int + 33
    else if 'm' <= c <= 'z' then c as int - 'm' as int + 44
    else -1
  }

  lemma {:induction false} DigitOfChar(d: nat)
    requires d < 58
    ensures DigitOf(CharOf(d)) == d
  {
    RunsOfAlphabet(d);
  }

  /** The alphabet in runs of consecutive characters. */
  function InRun(d: nat): char
    requires d < 58
  {
    if d < 9 then ('1' as int + d) as char else if d < 17 then ('A' as int + d - 9) as char
    else if d < 22 then ('J' as int + d - 17) as char else if d < 33 then ('P' as int + d - 22) as char
    else if d < 44 then ('a' as int + d - 33) as char else ('m' as int + d - 44) as char
  }

  lemma {:induction false} RunsOfAlphabet(d: nat)
    requires d < 58
    ensures CharOf(d) == InRun(d)
  {
  }

  lemma {:induction false} RunOfDigit(c: char)
    ensures -1 <= DigitOf(c) < 58
    ensures DigitOf(c) >= 0 ==> InRun(DigitOf(c)) == c
  {
  }

  /** `DigitOf` finds exactly the characters of the alphabet, each at its place. */
  lemma {:induction false} CharOfDigit(c: char)
    ensures -1 <= DigitOf(c) < 58
    ensures DigitOf(c) >= 0 ==> CharOf(DigitOf(c)) == c
    ensures c in ALPHABET <==> DigitOf(c) >= 0
  {
    hide CharOf, InRun, DigitOf;
    RunOfDigit(c);
    if DigitOf(c) >= 0 {
      RunsOfAlphabet(DigitOf(c));
      CharIsThere(DigitOf(c));
    }
    if c in ALPHABET {
      CharHasDigit(c);
    }
  }

  lemma {:induction false} CharIsThere(d: nat)
    requires d < 58
    ensures CharOf(d) in ALPHABET
  {
    assert ALPHABET[d] == CharOf(d);
  }

  lemma {:induction false} CharHasDigit(c: char)
    requires c in ALPHABET
    ensures 0 <= DigitOf(c) < 58
  {
    hide DigitOf;
    var i :| 0 <= i < |ALPHABET| && ALPHABET[i] == c;
    DigitOfChar(i);
  }

  predicate IsLetterOrDigit(c: char) { '0' <= c <= '9' || 'A' <= c <= 'Z' || 'a' <= c <= 'z' }

  /** The alphabet is all letters and digits in their order, except the four that look like others. */
  lemma {:induction false} AlphabetIsReadable(c: char, d: nat, e: nat)
    requires d < e < 58
    ensures c in ALPHABET <==> IsLetterOrDigit(c) && c != '0' && c != 'O' && c != 'I' && c != 'l'
    ensures CharOf(d) < CharOf(e)
  {
    hide CharOf;
    CharOfDigit(c);
    RunsOfAlphabet(d);
    RunsOfAlphabet(e);
  }

  // ------------------------------------------------------------- buffer sizes

  function EncodeSize(n: nat): nat { n * 138 / 100 + 1 }

  function DecodeSize(n: nat): nat { n * 733 / 1000 + 1 }

  lemma {:induction false} PowStep(b: nat, c: nat, n: nat, m: nat, d: nat, e: nat)
    requires b > 0 && c > 0 && Pow(b, n) <= Pow(c, m) && Pow(b, d) <= Pow(c, e)
    ensures Pow(b, n + d) <= Pow(c, m + e)
  {
    hide Pow;
    PowAdd(b, n, d);
    PowAdd(c, m, e);
    MulMonotone(Pow(b, n), Pow(b, d), Pow(c, e));
    MulMonotone(Pow(c, e), Pow(b, n), Pow(c, m));
  }

  /** 138/100 base-58 digits per byte are enough: 256^8 <= 58^11. */
  lemma {:induction false} EncodeSizeSuffices(n: nat)
    ensures Pow(256, n) <= Pow(58, EncodeSize(n))
  {
    hide Pow;
    if n < 8 {
      EncodeSizeSufficesForFew(n);
    } else {
      EncodeSizeSuffices(n - 8);
      EightBytes();
      PowStep(256, 58, n - 8, EncodeSize(n - 8), 8, 11);
      PowMonotone(58, EncodeSize(n - 8) + 11, EncodeSize(n));
    }
  }

  lemma {:induction false} EightBytes()
    ensures Pow(256, 8) <= Pow(58, 11)
  {
  }

  lemma {:induction false} EncodeSizeSufficesForFew(n: nat)
    requires n < 8
    ensures Pow(256, n) <= Pow(58, EncodeSize(n))
  {
    if n == 0 {
    } else if n == 1 {
      assert EncodeSize(1) == 2;
    } else if n == 2 {
      assert EncodeSize(2) == 3;
    } else if n == 3 {
      assert EncodeSize(3) == 5;
    } else if n == 4 {
      assert EncodeSize(4) == 6;
    } else if n == 5 {
      assert EncodeSize(5) == 7;
    } else if n == 6 {
      assert EncodeSize(6) == 9;
    } else {
      assert EncodeSize(7) == 10;
    }
  }

  /** 733/1000 bytes per base-58 digit are enough: 58^71 <= 256^52, and 58^15 <= 256^11 for the rest. */
  lemma {:induction false} DecodeSizeSuffices(n: nat)
    ensures Pow(58, n) <= Pow(256, DecodeSize(n))
  {
    hide Pow;
    if n < 71 {
      FifteenthsSuffice(n);
      PowMonotone(256, (11 * n + 14) / 15, DecodeSize(n));
    } else {
      DecodeSizeSuffices(n - 71);
      SeventyOneDigits();
      PowStep(58, 256, n - 71, DecodeSize(n - 71), 71, 52);
      PowMonotone(256, DecodeSize(n - 71) + 52, DecodeSize(n));
    }
  }

  lemma {:induction false} FifteenthsSuffice(n: nat)
    ensures Pow(58, n) <= Pow(256, (11 * n + 14) / 15)
  {
    hide Pow;
    if n < 15 {
      QuartersSuffice(n);
    } else {
      FifteenthsSuffice(n - 15);
      FifteenDigits();
      PowStep(58, 256, n - 15, (11 * (n - 15) + 14) / 15, 15, 11);
    }
  }

  lemma {:induction false} FifteenDigits()
    ensures Pow(58, 15) <= Pow(256, 11)
  {
    hide Pow;
    PowAdd(58, 11, 4);
    PowAdd(256, 8, 3);
    PowerValues();
  }

  lemma {:induction false} PowerValues()
    ensures Pow(58, 4) == 11316496 && Pow(58, 11) == 24986644000165537792
    ensures Pow(256, 3) == 0x1_00_00_00 && Pow(256, 5) == 0x1_00_00_00_00_00 &&
      Pow(256, 8) == 0x1_00_00_00_00_00_00_00_00
  {
  }

  lemma {:induction false} QuartersSuffice(n: nat)
    ensures Pow(58, n) <= Pow(256, (3 * n + 3) / 4)
  {
    if n >= 4 {
      QuartersSuffice(n - 4);
      PowStep(58, 256, n - 4, (3 * (n - 4) + 3) / 4, 4, 3);
    } else if n == 1 {
      assert Pow(58, 1) <= Pow(256, 1);
    } else if n == 2 {
      assert Pow(58, 2) <= Pow(256, 2);
    } else if n == 3 {
      assert Pow(58, 3) <= Pow(256, 3);
    }
  }

  lemma {:induction false} SeventyOneDigits()
    ensures Pow(58, 71) <= Pow(256, 52)
  {
    hide Pow;
    PowerValues();
    PowAdd(58, 11, 4);
    PowAdd(58, 15, 15);
    PowAdd(58, 30, 30);
    PowAdd(58, 60, 11);
    PowAdd(256, 8, 5);
    PowAdd(256, 13, 13);
    PowAdd(256, 26, 26);
  }

  // ----------------------------------------------------- the in-place conversion

  /** One position of the carry loop, on values. */
  lemma {:induction false} CarryStep(base: nat, factor: nat, d: nat, carry: nat, p: nat, newRest: nat, oldRest: nat,
          ch: nat)
    requires base > 0 && newRest + carry * p == factor * oldRest + ch
    ensures var t := carry + factor * d;
            (t % base) * p + newRest + (t / base) * (base * p) == factor * (d * p + oldRest) + ch
  {
    var t := carry + factor * d;
    assert t == (t / base) * base + t % base;
    assert (t / base) * (base * p) == ((t / base) * base) * p;
    assert (t % base) * p + ((t / base) * base) * p == t * p;
    assert t * p == carry * p + (factor * d) * p;
    assert (factor * d) * p == factor * (d * p);
    assert factor * (d * p + oldRest) == factor * (d * p) + factor * oldRest;
  }

  lemma {:induction false} CarryStaysSmall(base: nat, factor: nat, d: nat, carry: nat)
    requires d < base && carry < factor
    ensures 0 <= (carry + factor * d) / base < factor && 0 <= (carry + factor * d) % base < base
  {
    CarriedBelow(base, factor, d, carry);
    QuotientBelow(carry + factor * d, base, factor);
  }

  lemma {:induction false} CarriedBelow(base: nat, factor: nat, d: nat, carry: nat)
    requires d < base && carry < factor
    ensures carry + factor * d < factor * base
  {
    MulMonotone(factor, d + 1, base);
    assert factor * (d + 1) == factor * d + factor;
  }

  /** "buffer = buffer * factor + ch" on a big-endian digit buffer; what does not fit is the carry. */
  method MultiplyAdd(buffer: array<nat>, base: nat, factor: nat, ch: nat) returns (carry: nat)
    requires base > 0 && ch < factor && AllBelow(buffer[..], base)
    modifies buffer
    ensures AllBelow(buffer[..], base) && carry < factor
    ensures Value(base, buffer[..]) + carry * Pow(base, buffer.Length) == factor * Value(base, old(buffer[..])) + ch
  {
    hide Value, Pow;
    ghost var before := buffer[..];
    carry := ch;
    var i := buffer.Length;
    EmptyValue(base, buffer[i..], before[i..]);
    while i > 0
      invariant 0 <= i <= buffer.Length && carry < factor
      invariant buffer[..i] == before[..i] && AllBelow(buffer[..], base)
      invariant Value(base, buffer[i..]) + carry * Pow(base, buffer.Length - i) ==
        factor * Value(base, before[i..]) + ch
    {
      i := i - 1;
      assert buffer[i] == before[i];
      var t := carry + factor * buffer[i];
      CarryStaysSmall(base, factor, buffer[i], carry);
      CarryStep(base, factor, buffer[i], carry, Pow(base, buffer.Length - i - 1),
                Value(base, buffer[i + 1..]), Value(base, before[i + 1..]), ch);
      FrontValue(base, before[i..], before[i], before[i + 1..]);
      ghost var rest := buffer[i + 1..];
      buffer[i] := t % base;
      carry := t / base;
      assert buffer[i + 1..] == rest;
      FrontValue(base, buffer[i..], buffer[i], rest);
    }
    assert buffer[0..] == buffer[..] && before[0..] == before;
  }

  lemma {:induction false} EmptyValue(base: nat, s: seq<nat>, t: seq<nat>)
    requires s == [] && t == []
    ensures Value(base, s) == 0 && Value(base, t) == 0 && Pow(base, 0) == 1
  {
  }

  lemma {:induction false} FrontValue(base: nat, s: seq<nat>, d: nat, rest: seq<nat>)
    requires s == [d] + rest
    ensures Value(base, s) == d * Pow(base, |rest|) + Value(base, rest) &&
      Pow(base, |rest| + 1) == base * Pow(base, |rest|)
  {
    assert s[1..] == rest;
  }

  /** A result that fits leaves no carry. */
  lemma {:induction false} NoCarry(value: nat, carry: nat, p: nat)
    requires value + carry * p < p
    ensures carry == 0
  {
    if carry > 0 {
      MulMonotone(p, 1, carry);
    }
  }

  // ------------------------------------------------------------------ encoding

  function Ones(n: nat): (s: string)
    ensures |s| == n && forall i :: 0 <= i < n ==> s[i] == '1'
  {
    seq(n, _ => '1')
  }

  function ToChars(digits: seq<nat>): (s: string)
    requires forall i :: 0 <= i < |digits| ==> digits[i] < 58
    ensures |s| == |digits| && forall i :: 0 <= i < |s| ==> s[i] == CharOf(digits[i])
  {
    seq(|digits|, i requires 0 <= i < |digits| => CharOf(digits[i]))
  }

  /** One '1' per leading zero byte, then the number in base 58. */
  function Encode(b: bytes): string {
    DigitsAreBelow(58, Value(256, b));
    Ones(LeadingZeros(b)) + ToChars(Digits(58, Value(256, b)))
  }

  method EncodeBase58(input: bytes) returns (str: string)
    requires AreBytes(input)
    ensures str == Encode(input)
  {
    hide Value, Radix.Digits, LeadingZeros;
    var zeroes := SkipZeros(input);
    var b58 := FillBase58(input[zeroes..]);
    ValueOfStrip(256, input);
    StripIsDigits(58, b58);
    var it := SkipZeros(b58);
    DigitsAreBelow(58, Value(256, input));
    str := Translate(zeroes, b58, it);
  }

  /** The string of `zeroes` ones and the characters of the digits from `from` on. */
  method Translate(zeroes: nat, b58: seq<nat>, from: nat) returns (str: string)
    requires from <= |b58| && AllBelow(b58, 58)
    ensures str == Ones(zeroes) + ToChars(b58[from..])
  {
    hide CharOf;
    ghost var digits := b58[from..];
    str := Ones(zeroes);
    for it := from to |b58|
      invariant str == Ones(zeroes) + ToChars(digits)[..it - from]
    {
      str := str + [CharOf(b58[it])];
    }
    assert ToChars(digits)[..|digits|] == ToChars(digits);
  }

  method SkipZeros(s: seq<nat>) returns (n: nat)
    ensures n == LeadingZeros(s)
  {
    n := 0;
    while n < |s| && s[n] == 0
      invariant n <= LeadingZeros(s)
    {
      n := n + 1;
    }
  }

  /** The digit buffer after all bytes; neither loop of it ever leaves a carry. */
  method FillBase58(rest: bytes) returns (digits: seq<nat>)
    requires AreBytes(rest)
    ensures AllBelow(digits, 58) && Value(58, digits) == Value(256, rest)
  {
    hide Value, Pow;
    var b58 := new nat[EncodeSize(|rest|)](_ => 0);
    ValueOfZeros(58, b58[..]);
    EmptyValue(256, rest[..0], []);
    for k := 0 to |rest|
      invariant AllBelow(b58[..], 58) && Value(58, b58[..]) == Value(256, rest[..k])
    {
      ghost var before := b58[..];
      var carry := MultiplyAdd(b58, 58, 256, rest[k]);
      assert rest[..k + 1] == rest[..k] + [rest[k]];
      ValueAppend(256, rest[..k], rest[k]);
      ValueBound(256, rest[..k + 1]);
      PowMonotone(256, k + 1, |rest|);
      EncodeSizeSuffices(|rest|);
      NoCarry(Value(58, b58[..]), carry, Pow(58, b58.Length));
      assert carry == 0;
    }
    assert rest[..|rest|] == rest;
    digits := b58[..];
  }

  // ------------------------------------------------------------------ decoding

  predicate IsSpace(c: char) { c == ' ' || '\t' <= c <= '\r' }

  predicate IsOne(c: char) { c == '1' }

  predicate InWord(c: char) { !IsSpace(c) }

  predicate NotNul(c: char) { c != '\0' }

  /** How many characters at the front satisfy `p`. */
  function Span(s: string, p: char -> bool): (n: nat)
    ensures n <= |s| && (forall i :: 0 <= i < n ==> p(s[i])) && (n < |s| ==> !p(s[n]))
  {
    if s == [] || !p(s[0]) then 0 else 1 + Span(s[1..], p)
  }

  predicate AllDigits(s: string) {
    forall i :: 0 <= i < |s| ==> DigitOf(s[i]) >= 0
  }

  function ToDigits(s: string): (digits: seq<nat>)
    requires AllDigits(s)
    ensures |digits| == |s| && forall i :: 0 <= i < |s| ==> digits[i] == DigitOf(s[i])
  {
    seq(|s|, i requires 0 <= i < |s| => DigitOf(s[i]))
  }

  /** The characters up to the first NUL, which is all that `c_str()` hands over. */
  function CStr(s: string): string { s[..Span(s, NotNul)] }

  /** Spaces, '1's, base-58 digits, spaces; anything else is refused. */
  function Decode(str: string): Option<bytes> {
    var s := CStr(str);
    var a := s[Span(s, IsSpace)..];
    var zeroes := Span(a, IsOne);
    var b := a[zeroes..];
    var word := b[..Span(b, InWord)];
    var tail := b[Span(b, InWord)..];
    if AllDigits(word) && Span(tail, IsSpace) == |tail|
    then Some(Zeros(zeroes) + Digits(256, Value(58, ToDigits(word)))) else None
  }

  method SkipWhile(s: string, from: nat, p: char -> bool) returns (i: nat)
    requires from <= |s|
    ensures i == from + Span(s[from..], p)
  {
    i := from;
    while i < |s| && p(s[i])
      invariant from <= i <= from + Span(s[from..], p)
    {
      assert s[i] == s[from..][i - from];
      i := i + 1;
    }
  }

  /** `Decode` by the positions at which the scan stops. */
  lemma {:induction false} DecodeByPosition(str: string, s: string, i: nat, j: nat, k: nat)
    requires s == CStr(str) && i <= j <= k <= |s|
    requires i == Span(s, IsSpace) && j == i + Span(s[i..], IsOne) && k == j + Span(s[j..], InWord)
    ensures Decode(str) ==
      if AllDigits(s[j..k]) && k + Span(s[k..], IsSpace) == |s|
      then Some(Zeros(j - i) + Radix.Digits(256, Value(58, ToDigits(s[j..k])))) else None
  {
    hide Value, Radix.Digits, AllDigits, Span, ToDigits, Zeros, CStr;
    SubSlices(s, i, j, k);
  }

  lemma {:induction false} SubSlices<T>(s: seq<T>, i: nat, j: nat, k: nat)
    requires i <= j <= k <= |s|
    ensures s[i..][j - i..] == s[j..] && s[j..][..k - j] == s[j..k] && s[j..][k - j..] == s[k..]
  {
  }

  method DecodeBase58(str: string) returns (result: Option<bytes>)
    ensures result == Decode(str)
  {
    hide Value, Radix.Digits, LeadingZeros, AllDigits, ToDigits, Decode, Span;
    var end := SkipWhile(str, 0, NotNul);
    assert str[0..] == str;
    var s := str[..end];
    var i := SkipWhile(s, 0, IsSpace);
    assert s[0..] == s;
    var j := SkipWhile(s, i, IsOne);
    var k := SkipWhile(s, j, InWord);
    DecodeByPosition(str, s, i, j, k);
    var vch := FillBase256(s[j..k], |s| - j);
    if vch == None {
      return None;
    }
    var e := SkipWhile(s, k, IsSpace);
    if e != |s| {
      return None;
    }
    StripIsDigits(256, vch.value);
    var it := SkipZeros(vch.value);
    result := Some(Zeros(j - i) + vch.value[it..]);
  }

  /** The byte buffer after all characters of a word; `room` is the length it was allocated for. */
  method FillBase256(word: string, room: nat) returns (vch: Option<bytes>)
    requires |word| <= room
    ensures vch == None <==> !AllDigits(word)
    ensures vch.Some? ==> AreBytes(vch.value) && Value(256, vch.value) == Value(58, ToDigits(word))
  {
    hide Value, Pow, ToDigits, DigitOf, DecodeSize, AllDigits;
    var b256 := new nat[DecodeSize(room)](_ => 0);
    ValueOfZeros(256, b256[..]);
    EmptyWord(word[..0]);
    for k := 0 to |word|
      invariant AllDigits(word[..k])
      invariant AreBytes(b256[..]) && Value(256, b256[..]) == Value(58, ToDigits(word[..k]))
    {
      OneMoreDigit(word, k);
      if DigitOf(word[k]) < 0 {
        return None;
      }
      var digit: nat := DigitOf(word[k]);
      NextDigitFits(word, k, room);
      var carry := MultiplyAdd(b256, 256, 58, digit);
      NoCarry(Value(256, b256[..]), carry, Pow(256, b256.Length));
      assert carry == 0;
    }
    assert word[..|word|] == word;
    vch := Some(b256[..]);
  }

  lemma {:induction false} EmptyWord(word: string)
    requires word == []
    ensures AllDigits(word) && Value(58, ToDigits(word)) == 0
  {
  }

  lemma {:induction false} OneMoreDigit(word: string, k: nat)
    requires k < |word|
    ensures AllDigits(word[..k + 1]) <==> AllDigits(word[..k]) && DigitOf(word[k]) >= 0
    ensures AllDigits(word) ==> DigitOf(word[k]) >= 0
  {
    hide DigitOf;
    assert word[..k + 1] == word[..k] + [word[k]];
  }

  lemma {:induction false} NextDigitFits(word: string, k: nat, room: nat)
    requires k < |word| <= room && AllDigits(word[..k + 1])
    ensures AllDigits(word[..k]) && 0 <= DigitOf(word[k]) < 58
    ensures Value(58, ToDigits(word[..k + 1])) == 58 * Value(58, ToDigits(word[..k])) + DigitOf(word[k])
    ensures Value(58, ToDigits(word[..k + 1])) < Pow(256, DecodeSize(room))
  {
    hide Value, Pow, DigitOf, DecodeSize;
    var next := word[..k + 1];
    assert next[k] == word[k];
    assert ToDigits(next) == ToDigits(word[..k]) + [DigitOf(word[k])];
    DigitsBelow58(next);
    CharOfDigit(word[k]);
    ValueAppend(58, ToDigits(word[..k]), DigitOf(word[k]));
    ValueBound(58, ToDigits(next));
    PowMonotone(58, k + 1, room);
    DecodeSizeSuffices(room);
  }

  lemma {:induction false} DigitsBelow58(s: string)
    requires AllDigits(s)
    ensures AllBelow(ToDigits(s), 58)
  {
    forall i | 0 <= i < |s| ensures ToDigits(s)[i] < 58 {
      CharOfDigit(s[i]);
    }
  }

  // ---------------------------------------------------------------- round trips

  /** Base-58 digits of the shortest representation, written out, are a word that reads back as itself. */
  lemma {:induction false} CharsReadBack(digits: seq<nat>)
    requires AllBelow(digits, 58)
    ensures AllDigits(ToChars(digits)) && ToDigits(ToChars(digits)) == digits
    ensures forall i :: 0 <= i < |digits| ==> InWord(ToChars(digits)[i]) && NotNul(ToChars(digits)[i])
    ensures forall i :: 0 <= i < |digits| ==> (IsOne(ToChars(digits)[i]) <==> digits[i] == 0)
  {
    forall i | 0 <= i < |digits|
      ensures DigitOf(ToChars(digits)[i]) == digits[i]
    {
      DigitOfChar(digits[i]);
    }
  }

  lemma {:induction false} SpanIs(s: string, p: char -> bool, n: nat)
    requires n <= |s| && (forall i :: 0 <= i < n ==> p(s[i])) && (n < |s| ==> !p(s[n]))
    ensures Span(s, p) == n
  {
    if n > 0 {
      SpanIs(s[1..], p, n - 1);
    }
  }

  /** What `Decode` makes of '1's followed by a word that does not start with one. */
  lemma {:induction false} DecodeOfPlain(zeroes: nat, word: string)
    requires AllDigits(word) && (forall i :: 0 <= i < |word| ==> InWord(word[i]) && NotNul(word[i]))
    requires word != [] ==> !IsOne(word[0])
    ensures Decode(Ones(zeroes) + word) == Some(Zeros(zeroes) + Radix.Digits(256, Value(58, ToDigits(word))))
  {
    var s := Ones(zeroes) + word;
    SpanIs(s, NotNul, |s|);
    assert s[..|s|] == s;
    SpanIs(s, IsSpace, 0);
    assert s[0..] == s;
    SpanIs(s, IsOne, zeroes);
    assert s[zeroes..] == word;
    SpanIs(word, InWord, |word|);
    assert word[..|word|] == word && word[|word|..] == [];
    SpanIs([], IsSpace, 0);
  }

  /** Decoding an encoding gives the bytes back, all of them, leading zeros included. */
  lemma {:induction false} DecodeOfEncode(b: bytes)
    requires AreBytes(b)
    ensures Decode(Encode(b)) == Some(b)
  {
    hide Decode, Value, Radix.Digits, LeadingZeros;
    var v, z := Value(256, b), LeadingZeros(b);
    var digits := Radix.Digits(58, v);
    DigitsAreBelow(58, v);
    CharsReadBack(digits);
    DecodeOfPlain(z, ToChars(digits));
    ValueOfDigits(58, v);
    StripIsDigits(256, b);
    assert b == b[..z] + b[z..];
    assert b[..z] == Zeros(z);
  }

  /** Leading zero bytes and leading '1's correspond. */
  lemma {:induction false} LeadingOnes(b: bytes)
    ensures Span(Encode(b), IsOne) == LeadingZeros(b)
  {
    hide Value, Radix.Digits, LeadingZeros;
    var digits := Radix.Digits(58, Value(256, b));
    DigitsAreBelow(58, Value(256, b));
    CharsReadBack(digits);
    SpanIs(Encode(b), IsOne, LeadingZeros(b));
  }

  /** A string of base-58 digits decodes, and its bytes encode to that very string. */
  lemma {:induction false} EncodeOfDecode(s: string)
    requires AllDigits(s)
    ensures Decode(s).Some? && AreBytes(Decode(s).value) && Encode(Decode(s).value) == s
  {
    hide Decode, Encode, Value, Radix.Digits, AllBelow;
    var z := Span(s, IsOne);
    var word := s[z..];
    assert s == Ones(z) + word;
    DigitsAreNoSpaces(word);
    DecodeOfPlain(z, word);
    EncodeOfPlain(z, word);
  }

  lemma {:induction false} EncodeOfPlain(z: nat, word: string)
    requires AllDigits(word) && (word != [] ==> !IsOne(word[0]))
    ensures var b := Zeros(z) + Radix.Digits(256, Value(58, ToDigits(word)));
            AreBytes(b) && Encode(b) == Ones(z) + word
  {
    hide Encode, Value, Radix.Digits, Strip, CharOf, DigitOf;
    var v := Value(58, ToDigits(word));
    DigitsBelow58(word);
    DigitsAreBelow(256, v);
    EncodeOfPadded(z, v);
    StripIsDigits(58, ToDigits(word));
    WordHasNoLeadingZero(word);
    CharsOfDigits(word);
  }

  lemma {:induction false} CharsOfDigits(word: string)
    requires AllDigits(word)
    ensures AllBelow(ToDigits(word), 58) && ToChars(ToDigits(word)) == word
  {
    hide CharOf, DigitOf;
    DigitsBelow58(word);
    forall i | 0 <= i < |word| ensures ToChars(ToDigits(word))[i] == word[i] {
      CharOfDigit(word[i]);
    }
  }

  lemma {:induction false} DigitsAreNoSpaces(s: string)
    requires AllDigits(s)
    ensures forall i :: 0 <= i < |s| ==> InWord(s[i]) && NotNul(s[i])
  {
  }

  lemma {:induction false} WordHasNoLeadingZero(word: string)
    requires AllDigits(word) && (word != [] ==> !IsOne(word[0]))
    ensures Strip(ToDigits(word)) == ToDigits(word)
  {
    if word != [] {
      CharOfDigit(word[0]);
      RunsOfAlphabet(0);
    }
  }

  lemma {:induction false} EncodeOfPadded(z: nat, v: nat)
    ensures AllBelow(Radix.Digits(58, v), 58)
    ensures Encode(Zeros(z) + Radix.Digits(256, v)) == Ones(z) + ToChars(Radix.Digits(58, v))
  {
    hide Value, Radix.Digits, LeadingZeros;
    var b := Zeros(z) + Radix.Digits(256, v);
    DigitsAreBelow(256, v);
    DigitsAreBelow(58, v);
    StripOfPadded(z, Radix.Digits(256, v));
    assert b[z..] == Radix.Digits(256, v);
    ValueOfStrip(256, b);
    ValueOfDigits(256, v);
  }

  // ------------------------------------------------------- with a checksum

  ghost predicate IsChecksum(checksum: bytes -> bytes) {
    forall b :: |checksum(b)| == 4 && AreBytes(checksum(b))
  }

  function EncodeCheck(checksum: bytes -> bytes, b: bytes): string {
    Encode(b + checksum(b))
  }

  function DecodeCheck(checksum: bytes -> bytes, str: string): Option<bytes> {
    match Decode(str)
    case None => None
    case Some(all) =>
      if |all| < 4 || checksum(all[..|all| - 4]) != all[|all| - 4..] then None else Some(all[..|all| - 4])
  }

  /** What `Decode` ignores around a word: spaces, and everything from the first NUL on. */
  ghost predicate Around(str: string, word: string) {
    exists n: nat, m: nat :: IsAround(str, word, n, m)
  }

  /** There are `n` spaces before the word and `m` after it. */
  ghost predicate IsAround(str: string, word: string, n: nat, m: nat) {
    var s := CStr(str);
    && |s| == n + |word| + m && s[n..n + |word|] == word
    && (forall i :: 0 <= i < n || n + |word| <= i < |s| ==> IsSpace(s[i]))
  }

  lemma {:induction false} SpanWithin(s: string, p: char -> bool, from: nat, word: string)
    requires from + |word| <= |s| && s[from..from + |word|] == word
    requires Span(word, p) == |word| && from + |word| < |s| ==> !p(s[from + |word|])
    ensures Span(s[from..], p) == Span(word, p)
  {
    var t := s[from..];
    assert forall i :: 0 <= i < |word| ==> t[i] == word[i];
    SpanIs(t, p, Span(word, p));
  }

  lemma {:induction false} SpacesToTheEnd(s: string, from: nat)
    requires from <= |s|
    ensures from + Span(s[from..], IsSpace) == |s| <==> forall i :: from <= i < |s| ==> IsSpace(s[i])
  {
    if forall i :: from <= i < |s| ==> IsSpace(s[i]) {
      SpanIs(s[from..], IsSpace, |s| - from);
    }
    if from + Span(s[from..], IsSpace) == |s| {
      forall i | from <= i < |s| ensures IsSpace(s[i]) {
        assert s[i] == s[from..][i - from];
      }
    }
  }

  lemma {:induction false} DecodeOfWord(word: string)
    requires AllDigits(word)
    ensures CStr(word) == word && Span(word, InWord) == |word| && (word != [] ==> Span(word, IsSpace) == 0)
    ensures var z := Span(word, IsOne);
            AllDigits(word[z..]) && Decode(word) == Some(Zeros(z) + Radix.Digits(256, Value(58, ToDigits(word[z..]))))
  {
    hide Decode, Value, Radix.Digits;
    DigitsAreNoSpaces(word);
    SpanIs(word, NotNul, |word|);
    SpanIs(word, InWord, |word|);
    if word != [] {
      SpanIs(word, IsSpace, 0);
    }
    var z := Span(word, IsOne);
    assert word == Ones(z) + word[z..];
    DecodeOfPlain(z, word[z..]);
  }

  /** The surroundings of a word of digits do not matter. */
  lemma {:induction false} DecodeAround(str: string, word: string, n: nat, m: nat)
    requires AllDigits(word) && IsAround(str, word, n, m)
    ensures Decode(str) == Decode(word)
  {
    hide Decode, Value, Radix.Digits, DigitOf, Span, CStr, ToDigits, AllDigits, IsAround;
    var s := CStr(str);
    DecodeOfWord(word);
    if word == [] {
      OnlySpaces(str, n, m);
      DecodeByPosition(str, s, |s|, |s|, |s|);
    } else {
      var z := Span(word, IsOne);
      PositionsAround(str, word, n, m);
      DecodeByPosition(str, s, n, n + z, n + |word|);
    }
  }

  lemma {:induction false} OnlySpaces(str: string, n: nat, m: nat)
    requires IsAround(str, [], n, m)
    ensures var s := CStr(str);
            && Span(s, IsSpace) == |s| && s[|s|..] == [] == s[|s|..|s|]
            && Span(s[|s|..], IsOne) == Span(s[|s|..], InWord) == Span(s[|s|..], IsSpace) == 0
  {
    hide CStr;
    SpanIs(CStr(str), IsSpace, |CStr(str)|);
  }

  /** The scan of a surrounded word stops where that of the word alone does, the spaces further on. */
  lemma {:induction false} PositionsAround(str: string, word: string, n: nat, m: nat)
    requires AllDigits(word) && word != [] && IsAround(str, word, n, m)
    ensures var s, z := CStr(str), Span(word, IsOne);
            && |s| == n + |word| + m && Span(s, IsSpace) == n && Span(s[n..], IsOne) == z
            && Span(s[n + z..], InWord) == |word| - z && s[n + z..n + |word|] == word[z..]
            && n + |word| + Span(s[n + |word|..], IsSpace) == |s|
  {
    hide DigitOf, Span, CStr, AllDigits, IsSpace;
    var s := CStr(str);
    DigitsAreNoSpaces(word);
    SpacesBefore(s, word, n);
    WordWithin(s, word, n);
    SpacesToTheEnd(s, n + |word|);
  }

  lemma {:induction false} SpacesBefore(s: string, word: string, n: nat)
    requires word != [] && n + |word| <= |s| && s[n..n + |word|] == word && !IsSpace(word[0])
    requires forall i :: 0 <= i < n ==> IsSpace(s[i])
    ensures Span(s, IsSpace) == n
  {
    hide Span, IsSpace;
    assert s[n] == word[0] == s[n..n + |word|][0];
    SpanIs(s, IsSpace, n);
  }

  lemma {:induction false} WordWithin(s: string, word: string, n: nat)
    requires n + |word| <= |s| && s[n..n + |word|] == word && forall i :: 0 <= i < |word| ==> InWord(word[i])
    requires n + |word| < |s| ==> IsSpace(s[n + |word|])
    ensures var z := Span(word, IsOne);
            && Span(s[n..], IsOne) == z && s[n + z..n + |word|] == word[z..]
            && Span(s[n + z..], InWord) == |word| - z
  {
    hide Span;
    var z, k := Span(word, IsOne), n + |word|;
    SpanWithin(s, IsOne, n, word);
    assert s[n + z..k] == word[z..];
    SpanIs(word[z..], InWord, |word| - z);
    SpanWithin(s, InWord, n + z, word[z..]);
  }

  /** And only words of digits are decoded. */
  lemma {:induction false} DecodedIsAround(str: string) returns (word: string, n: nat, m: nat)
    requires Decode(str).Some?
    ensures AllDigits(word) && IsAround(str, word, n, m)
  {
    hide Decode, Value, Radix.Digits, ToDigits, AllDigits, CStr, Span;
    var s := CStr(str);
    n := Span(s, IsSpace);
    var j := n + Span(s[n..], IsOne);
    var k := j + Span(s[j..], InWord);
    DecodeByPosition(str, s, n, j, k);
    word, m := s[n..k], |s| - k;
    SpacesToTheEnd(s, k);
    OnesAndDigits(s, n, j, k);
  }

  lemma {:induction false} OnesAndDigits(s: string, n: nat, j: nat, k: nat)
    requires n <= j <= k <= |s| && j == n + Span(s[n..], IsOne) && AllDigits(s[j..k])
    ensures AllDigits(s[n..k])
  {
    hide DigitOf, Span;
    OneIsDigit();
    forall i | n <= i < k ensures DigitOf(s[i]) >= 0 {
      if i < j {
        assert IsOne(s[n..][i - n]);
      } else {
        assert s[i] == s[j..k][i - j];
      }
    }
  }

  lemma {:induction false} OneIsDigit()
    ensures DigitOf('1') == 0
  {
  }

  lemma {:induction false} EncodingsAreDigits(b: bytes)
    requires AreBytes(b)
    ensures AllDigits(Encode(b))
  {
    hide Value, Radix.Digits, LeadingZeros, DigitOf;
    OneIsDigit();
    DigitsAreBelow(58, Value(256, b));
    CharsReadBack(Radix.Digits(58, Value(256, b)));
  }

  /** The checked decoder accepts exactly the checked encodings, with spaces around them or not, and inverts them. */
  lemma {:induction false} DecodeCheckIffEncodeCheck(checksum: bytes -> bytes, str: string, b: bytes)
    requires IsChecksum(checksum) && AreBytes(b)
    ensures DecodeCheck(checksum, str) == Some(b) <==> Around(str, EncodeCheck(checksum, b))
  {
    hide Decode, Encode, AllDigits, IsAround;
    EncodingsAreDigits(b + checksum(b));
    if DecodeCheck(checksum, str) == Some(b) {
      var word, n, m := DecodedIsAround(str);
      DecodeAround(str, word, n, m);
      WordCheckIff(checksum, word, b);
    }
    if Around(str, EncodeCheck(checksum, b)) {
      var n: nat, m: nat :| IsAround(str, EncodeCheck(checksum, b), n, m);
      DecodeAround(str, EncodeCheck(checksum, b), n, m);
      WordCheckIff(checksum, EncodeCheck(checksum, b), b);
    }
  }

  lemma {:induction false} WordCheckIff(checksum: bytes -> bytes, s: string, b: bytes)
    requires IsChecksum(checksum) && AreBytes(b) && AllDigits(s)
    ensures DecodeCheck(checksum, s) == Some(b) <==> s == EncodeCheck(checksum, b)
  {
    hide Decode, Encode;
    var all := b + checksum(b);
    EncodeOfDecode(s);
    if s == EncodeCheck(checksum, b) {
      DecodeOfEncode(all);
      assert all[..|all| - 4] == b;
    }
    if DecodeCheck(checksum, s) == Some(b) {
      var t := Decode(s).value;
      assert t == t[..|t| - 4] + t[|t| - 4..];
    }
  }
}
