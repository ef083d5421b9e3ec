/**
 The variable-length integers of `serialize.h`, and reading in general: a stream is a
 sequence of bytes, naturals below 256, and a read that runs off its end fails.
 */
module VarInt {
  import opened Powers

  type Stream = seq<nat>

  ghost predicate AreBytes(s: Stream) {
    forall i :: 0 <= i < |s| ==> s[i] < 256
  }

  datatype Read<+T> = Fail | Got(value: T, rest: Stream)

  function ReadBytes(s: Stream, n: nat): Read<Stream> {
    if n <= |s| then Got(s[..n], s[n..]) else Fail
  }

  /** The bytes before the last one, each with its high bit set and one subtracted from it. */
  function Continued(n: nat): Stream {
    if n <= 0x7F then [n + 0x80] else Continued(n / 128 - 1) + [n % 128 + 0x80]
  }

  /** `WriteVarInt`. A negative number passes the first test and leaves only its low bits. */
  function Write(n: int): Stream {
    if n <= 0x7F then [n % 128] else Continued(n / 128 - 1) + [n % 128]
  }

  function ReadFrom(s: Stream, n: nat): Read<nat>
    decreases |s|
  {
    if s == [] then Fail
    else
      var n' := n * 128 + s[0] % 128;
      if s[0] >= 128 then ReadFrom(s[1..], n' + 1) else Got(n', s[1..])
  }

  lemma {:induction false} ReadContinued(n: nat, rest: Stream)
    ensures ReadFrom(Continued(n) + rest, 0) == ReadFrom(rest, n + 1)
    decreases n
  {
    if n <= 0x7F {
      assert (Continued(n) + rest)[1..] == rest;
    } else {
      var last := [n % 128 + 0x80];
      ReadContinued(n / 128 - 1, last + rest);
      assert Continued(n) + rest == Continued(n / 128 - 1) + (last + rest);
      assert (last + rest)[1..] == rest;
    }
  }

  /** A number is read back exactly when it is not negative; what follows it is left alone. */
  lemma {:induction false} ReadOfWrite(n: int, rest: Stream)
    ensures ReadFrom(Write(n) + rest, 0) == Got(if n >= 0 then n else n % 128, rest)
  {
    if n <= 0x7F {
      assert (Write(n) + rest)[1..] == rest;
    } else {
      ReadContinued(n / 128 - 1, [n % 128] + rest);
      assert Write(n) + rest == Continued(n / 128 - 1) + ([n % 128] + rest);
      assert ([n % 128] + rest)[1..] == rest;
    }
  }

  /** What has been read so far: nothing, or all bytes but the last of a number. */
  function Prefix(n: nat): Stream {
    if n == 0 then [] else Continued(n - 1)
  }

  /** Every number has one encoding: whatever is read as `n` is what writing `n` gives. */
  lemma {:induction false} WriteOfRead(s: Stream, n: nat)
    requires AreBytes(s) && ReadFrom(s, n).Got?
    ensures Prefix(n) + s == Write(ReadFrom(s, n).value) + ReadFrom(s, n).rest
    decreases |s|
  {
    hide Write, Prefix;
    var b, t := s[0], s[1..];
    OneMoreByte(n, b);
    FrontMoves(Prefix(n), s);
    if b >= 128 {
      WriteOfRead(t, n * 128 + b % 128 + 1);
    }
  }

  lemma {:induction false} FrontMoves(p: Stream, s: Stream)
    requires s != []
    ensures p + s == (p + [s[0]]) + s[1..]
  {
  }

  lemma {:induction false} OneMoreByte(n: nat, b: nat)
    requires b < 256
    ensures b >= 128 ==> Prefix(n * 128 + b % 128 + 1) == Prefix(n) + [b]
    ensures b < 128 ==> Write(n * 128 + b % 128) == Prefix(n) + [b]
  {
    var x := b % 128;
    assert (n * 128 + x) / 128 == n && (n * 128 + x) % 128 == x;
  }

  lemma {:induction false} WritesBytes(n: int)
    ensures AreBytes(Write(n)) && |Write(n)| > 0
  {
    if n > 0x7F {
      ContinuesInBytes(n / 128 - 1);
    }
  }

  lemma {:induction false} ContinuesInBytes(n: nat)
    ensures AreBytes(Continued(n))
    decreases n
  {
    if n > 0x7F {
      ContinuesInBytes(n / 128 - 1);
    }
  }

  // ------------------------------------------------------- as the format is documented

  /** The digits before the last one of `a`, the nearest `k` of them, each counted one up at its place. */
  function Places(a: Stream, k: nat): nat
    requires k < |a|
  {
    if k == 0 then 0 else Places(a, k - 1) + Pow(128, k) * (a[|a| - k - 1] % 128 + 1)
  }

  /** All but the last byte have the high bit set, and the number is the sum of the digits at their places. */
  ghost predicate StandsFor(a: Stream, n: nat) {
    && a != [] && a[|a| - 1] < 128 && (forall i :: 0 <= i < |a| - 1 ==> 128 <= a[i] < 256)
    && n == a[|a| - 1] % 128 + Places(a, |a| - 1)
  }

  lemma {:induction false} PlacesMove(s: Stream, x: nat, y: nat, k: nat)
    requires k <= |s|
    ensures Places(s + [x] + [y], k + 1) == 128 * (x % 128 + 1) + 128 * Places(s + [x], k)
  {
    hide Pow;
    var a, b := s + [x], s + [x] + [y];
    OnePlaceUp(0, x % 128 + 1);
    assert b[|b| - 2] == x;
    if k > 0 {
      PlacesMove(s, x, y, k - 1);
      assert b[|b| - (k + 1) - 1] == a[|a| - k - 1];
      OnePlaceUp(k, a[|a| - k - 1] % 128 + 1);
    } else {
      assert Places(b, 1) == Places(b, 0) + Pow(128, 1) * (x % 128 + 1);
    }
  }

  lemma {:induction false} OnePlaceUp(k: nat, d: nat)
    ensures Pow(128, k + 1) * d == 128 * (Pow(128, k) * d)
    ensures k == 0 ==> Pow(128, k) * d == d
  {
    var p := Pow(128, k);
    assert (128 * p) * d == 128 * (p * d);
  }

  lemma {:induction false} ContinuedStandsFor(n: nat, y: nat)
    ensures var a := Continued(n) + [y];
            |a| > 1 && Places(a, |a| - 1) == 128 * (n + 1) && forall i :: 0 <= i < |a| - 1 ==> 128 <= a[i] < 256
    decreases n
  {
    var a := Continued(n) + [y];
    if n <= 0x7F {
      assert a == [n + 0x80] + [y];
      PlacesMove([], n + 0x80, y, 0);
      assert [] + [n + 0x80] + [y] == a;
    } else {
      var s, x := Continued(n / 128 - 1), n % 128 + 0x80;
      ContinuedStandsFor(n / 128 - 1, x);
      assert a == s + [x] + [y];
      PlacesMove(s, x, y, |s|);
      DivMod(1, 128, n % 128);
      assert x % 128 == n % 128;
    }
  }

  lemma {:induction false} WriteStandsFor(n: nat)
    ensures StandsFor(Write(n), n)
  {
    if n > 0x7F {
      ContinuedStandsFor(n / 128 - 1, n % 128);
    }
  }

  /** 128 + 128^2 + ... + 128^k. */
  function Below(k: nat): nat {
    if k == 0 then 0 else 128 * (Below(k - 1) + 1)
  }

  /** A number takes at most `k` bytes if and only if it is less than 128 + 128^2 + ... + 128^k. */
  lemma {:induction false} SizeIff(n: nat, k: nat)
    ensures |Write(n)| <= k <==> n < Below(k)
  {
    ContinuedSizeIff(n, k);
    SameSize(n);
  }

  lemma {:induction false} SameSize(n: nat)
    ensures |Write(n)| == |Continued(n)|
  {
  }

  lemma {:induction false} ContinuedSizeIff(n: nat, k: nat)
    ensures |Continued(n)| <= k <==> n < Below(k)
    decreases n
  {
    if n > 0x7F && k > 0 {
      ContinuedSizeIff(n / 128 - 1, k - 1);
    }
  }

  /** The table in the documentation, except for two entries: 16511 takes two bytes, and 65535 ends differently. */
  lemma {:induction false} DocumentedNumbers()
    ensures Write(0) == [0x00] && Write(1) == [0x01] && Write(127) == [0x7F] && Write(128) == [0x80, 0x00]
    ensures Write(255) == [0x80, 0x7F] && Write(256) == [0x81, 0x00] && Write(16383) == [0xFE, 0x7F]
    ensures Write(16384) == [0xFF, 0x00] && Write(0x1_0000_0000) == [0x8E, 0xFE, 0xFE, 0xFF, 0x00]
    ensures Write(16511) == [0xFF, 0x7F] && Write(65535) == [0x82, 0xFE, 0x7F]
  {
    hide Write, Continued;
    OneByte(0);
    OneByte(1);
    OneByte(127);
    OneMoreDigit(0, 0);
    OneMoreDigit(0, 127);
    OneMoreDigit(1, 0);
    OneMoreDigit(2, 126);
    OneMoreDigit(126, 127);
    OneMoreDigit(127, 0);
    OneMoreDigit(127, 127);
    OneMoreDigit(510, 127);
    OneMoreDigit(14, 126);
    OneMoreDigit(0x7FE, 126);
    OneMoreDigit(0x3_FFFE, 127);
    OneMoreDigit(0x1FF_FFFF, 0);
  }

  lemma {:induction false} OneByte(n: nat)
    requires n < 128
    ensures Write(n) == [n]
  {
  }

  /** The number `q` is written before one more digit. */
  lemma {:induction false} OneMoreDigit(q: nat, d: nat)
    requires d < 128
    ensures q < 128 ==> Continued(q) == [q + 128]
    ensures Write(128 * (q + 1) + d) == Continued(q) + [d]
    ensures Continued(128 * (q + 1) + d) == Continued(q) + [d + 128]
  {
    DivMod(q + 1, 128, d);
  }

  // ------------------------------------------------------------------ as loops

  /** What is still to come before the bytes that `tmp` holds in reverse. */
  function Ahead(n: int, started: bool): Stream
    requires started ==> n >= 0
  {
    if started then Continued(n) else Write(n)
  }

  function LowByte(n: int, started: bool): nat { n % 128 + if started then 0x80 else 0 }

  lemma {:induction false} AheadStep(n: int, started: bool, tmp: seq<nat>)
    requires started ==> n >= 0
    ensures n > 0x7F ==>
      Ahead(n, started) + Reversed(tmp) == Ahead(n / 128 - 1, true) + Reversed(tmp + [LowByte(n, started)])
    ensures n <= 0x7F ==> Ahead(n, started) + Reversed(tmp) == Reversed(tmp + [LowByte(n, started)])
  {
    ReversedAppend(tmp, LowByte(n, started));
  }

  method WriteVarInt(nIn: int) returns (os: Stream)
    ensures os == Write(nIn)
  {
    hide Ahead, Reversed, Write;
    var n := nIn;
    var tmp: seq<nat> := [];
    NothingWritten(n);
    while n > 0x7F
      invariant tmp != [] ==> n >= 0
      invariant Write(nIn) == Ahead(n, tmp != []) + Reversed(tmp)
      decreases n
    {
      AheadStep(n, tmp != [], tmp);
      tmp := tmp + [n % 128 + if tmp != [] then 0x80 else 0];
      n := n / 128 - 1;
    }
    AheadStep(n, tmp != [], tmp);
    tmp := tmp + [n % 128 + if tmp != [] then 0x80 else 0];
    os := LastFirst(tmp);
  }

  lemma {:induction false} NothingWritten(n: int)
    ensures Write(n) == Ahead(n, false) + Reversed([])
  {
  }

  /** The closing loop of the writer. */
  method LastFirst(tmp: seq<nat>) returns (os: Stream)
    ensures os == Reversed(tmp)
  {
    os := [];
    var len := |tmp|;
    assert tmp[..len] == tmp;
    while len > 0
      invariant 0 <= len <= |tmp|
      invariant os + Reversed(tmp[..len]) == Reversed(tmp)
    {
      assert tmp[..len] == tmp[..len - 1] + [tmp[len - 1]];
      ReversedAppend(tmp[..len - 1], tmp[len - 1]);
      len := len - 1;
      os := os + [tmp[len]];
    }
  }

  function Reversed(s: seq<nat>): (r: seq<nat>)
    ensures |r| == |s|
  {
    if s == [] then [] else Reversed(s[1..]) + [s[0]]
  }

  lemma {:induction false} ReversedAppend(s: seq<nat>, x: nat)
    ensures Reversed(s + [x]) == [x] + Reversed(s)
  {
    if s != [] {
      ReversedAppend(s[1..], x);
      assert (s + [x])[1..] == s[1..] + [x];
    }
  }

  method ReadVarInt(s: Stream) returns (r: Read<nat>)
    ensures r == ReadFrom(s, 0)
  {
    var n, rest := 0, s;
    while rest != []
      invariant ReadFrom(s, 0) == ReadFrom(rest, n)
      decreases |rest|
    {
      var chData := rest[0];
      rest := rest[1..];
      n := n * 128 + chData % 128;
      if chData >= 128 {
        n := n + 1;
      } else {
        return Got(n, rest);
      }
    }
    r := Fail;
  }
}
