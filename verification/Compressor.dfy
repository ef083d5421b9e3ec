/**
 `CTxOutCompressor` and `CScriptCompressor`: amounts with up to nine trailing zeros taken out,
 and scripts of the common forms reduced to a public key or a hash. The curve, which knows the valid
 public keys and their forms, is a parameter.
 */
module Compressor {
  import opened Amount
  import opened Coins
  import opened Powers
  import opened VarInt

  // ------------------------------------------------------------------ amounts

  datatype Reduced = Reduced(n: nat, e: nat)

  /** Divide by ten while that is exact, to an exponent of at most 9. */
  function Reduce(n: nat, e: nat): (r: Reduced)
    requires n > 0 && e <= 9
    ensures r.n > 0 && e <= r.e <= 9 && (r.e < 9 ==> r.n % 10 != 0)
    ensures n == r.n * Pow(10, r.e - e)
    decreases n
  {
    if n % 10 == 0 && e < 9 then
      var r := Reduce(n / 10, e + 1);
      Tenfold(n, r.n, r.e - e);
      r
    else Reduced(n, e)
  }

  lemma {:induction false} Tenfold(n: nat, m: nat, k: nat)
    requires k > 0 && n % 10 == 0 && n / 10 == m * Pow(10, k - 1)
    ensures n == m * Pow(10, k)
  {
    assert m * (10 * Pow(10, k - 1)) == 10 * (m * Pow(10, k - 1));
  }

  function CompressAmount(n: nat): nat {
    if n == 0 then 0 else Packed(Reduce(n, 0))
  }

  function Packed(r: Reduced): nat
    requires r.n > 0
  {
    if r.e < 9 then 1 + (r.n / 10 * 9 + (r.n % 10 - 1)) * 10 + r.e else 1 + (r.n - 1) * 10 + 9
  }

  function DecompressAmount(x: nat): nat {
    if x == 0 then 0 else
    var r := Unpacked(x);
    r.n * Pow(10, r.e)
  }

  function Unpacked(x: nat): Reduced
    requires x > 0
  {
    var e, y := (x - 1) % 10, (x - 1) / 10;
    if e < 9 then Reduced(y / 9 * 10 + (y % 9 + 1), e) else Reduced(y + 1, 9)
  }

  lemma {:induction false} ByTen(q: nat, r: nat)
    requires r < 10
    ensures (10 * q + r) / 10 == q && (10 * q + r) % 10 == r
  {
  }

  lemma {:induction false} ByNine(q: nat, r: nat)
    requires r < 9
    ensures (9 * q + r) / 9 == q && (9 * q + r) % 9 == r
  {
  }

  lemma {:induction false} UnpackedOfPacked(r: Reduced)
    requires r.n > 0 && r.e <= 9 && (r.e < 9 ==> r.n % 10 != 0)
    ensures Packed(r) > 0 && Unpacked(Packed(r)) == r
  {
    if r.e < 9 {
      var q, d := r.n / 10, r.n % 10;
      ByTen(q * 9 + (d - 1), r.e);
      ByNine(q, d - 1);
    } else {
      ByTen(r.n - 1, 9);
    }
  }

  lemma {:induction false} PackedOfUnpacked(x: nat)
    requires x > 0
    ensures var r := Unpacked(x); r.n > 0 && r.e <= 9 && (r.e < 9 ==> r.n % 10 != 0) && Packed(r) == x
  {
    var e, y := (x - 1) % 10, (x - 1) / 10;
    assert x - 1 == 10 * y + e;
    if e < 9 {
      var q, d := y / 9, y % 9;
      assert y == 9 * q + d;
      ByTen(q, d + 1);
      assert Unpacked(x) == Reduced(10 * q + (d + 1), e);
    }
  }

  lemma {:induction false} ReduceTenfold(p: nat, e: nat)
    requires p > 0 && e < 9
    ensures Reduce(10 * p, e) == Reduce(p, e + 1)
  {
    ByTen(p, 0);
  }

  /** Reducing undoes any scaling that leaves the exponent within 9. */
  lemma {:induction false} ReduceOfScaled(m: nat, k: nat, e: nat)
    requires m > 0 && e + k <= 9 && (e + k < 9 ==> m % 10 != 0)
    ensures m * Pow(10, k) > 0 && Reduce(m * Pow(10, k), e) == Reduced(m, e + k)
    decreases k
  {
    if k == 0 {
      assert m * Pow(10, 0) == m;
    } else {
      ReduceOfScaled(m, k - 1, e + 1);
      TenTimes(m, k);
      ReduceTenfold(m * Pow(10, k - 1), e);
    }
  }

  lemma {:induction false} TenTimes(m: nat, k: nat)
    requires k > 0
    ensures m * Pow(10, k) == 10 * (m * Pow(10, k - 1))
  {
    assert m * (10 * Pow(10, k - 1)) == 10 * (m * Pow(10, k - 1));
  }

  lemma {:induction false} DecompressOfCompress(n: nat)
    ensures DecompressAmount(CompressAmount(n)) == n
  {
    if n > 0 {
      UnpackedOfPacked(Reduce(n, 0));
    }
  }

  lemma {:induction false} CompressOfDecompress(x: nat)
    ensures CompressAmount(DecompressAmount(x)) == x
  {
    if x > 0 {
      var r := Unpacked(x);
      PackedOfUnpacked(x);
      ReduceOfScaled(r.n, r.e, 0);
    }
  }

  /** Pairs that the tests give. */
  lemma {:induction false} KnownAmounts()
    ensures CompressAmount(0) == 0 && CompressAmount(1) == 1 && CompressAmount(COIN / 100) == 0x7
    ensures CompressAmount(COIN) == 0x9 && CompressAmount(50 * COIN) == 0x32
    ensures CompressAmount(10500 * COIN) == 0x2904 && CompressAmount(250000 * COIN) == 0x3d090
    ensures CompressAmount(3100000 * COIN) == 0x2f4d60
  {
    hide CompressAmount;
    TenPowers();
    CompressOfDecompress(0);
    CompressOfDecompress(0x1);
    CompressOfDecompress(0x7);
    CompressOfDecompress(0x9);
    CompressOfDecompress(0x32);
    CompressOfDecompress(0x2904);
    CompressOfDecompress(0x3d090);
    CompressOfDecompress(0x2f4d60);
  }

  lemma {:induction false} TenPowers()
    ensures Pow(10, 0) == 1 && Pow(10, 3) == 1000 && Pow(10, 6) == 1000000
    ensures Pow(10, 8) == 100000000 && Pow(10, 9) == 1000000000
  {
  }

  /** No step of the compression leaves 64 bits for an amount that can exist. */
  lemma {:induction false} CompressFitsWord(n: nat)
    ensures CompressAmount(n) <= 9 * n
    ensures n <= MAX_MONEY ==> CompressAmount(n) < 0x1_0000_0000_0000_0000
  {
    if n > 0 {
      var r := Reduce(n, 0);
      PowPositive(10, r.e);
      if r.e == 0 {
        assert n == r.n * 1;
      } else {
        PowMonotone(10, 1, r.e);
        assert Pow(10, 1) == 10;
        MulMonotone(r.n, 10, Pow(10, r.e));
        if r.e == 9 {
          MulMonotone(r.n, Pow(10, 9), Pow(10, r.e));
        }
      }
    }
  }

  method CompressAmountLoop(nIn: nat) returns (x: nat)
    ensures x == CompressAmount(nIn)
  {
    if nIn == 0 {
      return 0;
    }
    var n, e := nIn, 0;
    while n % 10 == 0 && e < 9
      invariant n > 0 && e <= 9 && Reduce(n, e) == Reduce(nIn, 0)
      decreases n
    {
      n := n / 10;
      e := e + 1;
    }
    if e < 9 {
      var d := n % 10;
      assert 1 <= d <= 9;
      n := n / 10;
      x := 1 + (n * 9 + d - 1) * 10 + e;
    } else {
      x := 1 + (n - 1) * 10 + 9;
    }
  }

  method DecompressAmountLoop(xIn: nat) returns (n: nat)
    ensures n == DecompressAmount(xIn)
  {
    if xIn == 0 {
      return 0;
    }
    var x := xIn - 1;
    var e := x % 10;
    x := x / 10;
    if e < 9 {
      var d := x % 9 + 1;
      x := x / 9;
      n := x * 10 + d;
    } else {
      n := x + 1;
    }
    n := TimesTen(n, e);
  }

  /** The closing loop of the decompression. */
  method TimesTen(m: nat, eIn: nat) returns (n: nat)
    ensures n == m * Pow(10, eIn)
  {
    var e := eIn;
    n := m;
    assert m * Pow(10, 0) == m;
    while e > 0
      invariant 0 <= e <= eIn && n == m * Pow(10, eIn - e)
    {
      assert m * (10 * Pow(10, eIn - e)) == (m * Pow(10, eIn - e)) * 10;
      n := n * 10;
      e := e - 1;
    }
  }

  // ------------------------------------------------------------------ scripts

  const OP_DUP: nat := 0x76
  const OP_EQUAL: nat := 0x87
  const OP_EQUALVERIFY: nat := 0x88
  const OP_HASH160: nat := 0xa9
  const OP_CHECKSIG: nat := 0xac
  const SPECIAL_SCRIPTS: nat := 6

  type Script = seq<nat>

  /** Validity of an uncompressed key, and the key with a given x coordinate and parity. */
  datatype Curve = Curve(isFullyValid: Script -> bool, decompress: (nat, Script) -> Option<Script>)

  /** A valid 65-byte key is recovered from its x coordinate and its parity. */
  ghost predicate IsCurve(curve: Curve) {
    forall pubkey: Script :: |pubkey| == 65 && pubkey[0] == 4 && curve.isFullyValid(pubkey)
      ==> curve.decompress(2 + pubkey[64] % 2, pubkey[1..33]) == Some(pubkey)
  }

  predicate IsToKeyID(s: Script) {
    |s| == 25 && s[0] == OP_DUP && s[1] == OP_HASH160 && s[2] == 20 && s[23] == OP_EQUALVERIFY && s[24] == OP_CHECKSIG
  }

  predicate IsToScriptID(s: Script) {
    |s| == 23 && s[0] == OP_HASH160 && s[1] == 20 && s[22] == OP_EQUAL
  }

  predicate IsToCompressedKey(s: Script) {
    |s| == 35 && s[0] == 33 && s[34] == OP_CHECKSIG && (s[1] == 2 || s[1] == 3)
  }

  predicate IsToFullKey(curve: Curve, s: Script) {
    |s| == 67 && s[0] == 65 && s[66] == OP_CHECKSIG && s[1] == 4 && curve.isFullyValid(s[1..66])
  }

  function Compress(curve: Curve, s: Script): Option<Script> {
    if IsToKeyID(s) then Some([0] + s[3..23])
    else if IsToScriptID(s) then Some([1] + s[2..22])
    else if IsToCompressedKey(s) then Some([s[1]] + s[2..34])
    else if IsToFullKey(curve, s) then Some([4 + s[65] % 2] + s[2..34])
    else None
  }

  function GetSpecialSize(nSize: nat): nat {
    if nSize <= 1 then 20 else if nSize <= 5 then 32 else 0
  }

  /** The script of a special form; a key that is not on the curve leaves the script empty. */
  function Decompress(curve: Curve, nSize: nat, data: Script): Script
    requires nSize < SPECIAL_SCRIPTS && |data| == GetSpecialSize(nSize)
  {
    if nSize == 0 then [OP_DUP, OP_HASH160, 20] + data + [OP_EQUALVERIFY, OP_CHECKSIG]
    else if nSize == 1 then [OP_HASH160, 20] + data + [OP_EQUAL]
    else if nSize <= 3 then [33, nSize] + data + [OP_CHECKSIG]
    else match curve.decompress(nSize - 2, data)
      case None => []
      case Some(pubkey) => [65] + pubkey + [OP_CHECKSIG]
  }

  /** What a special form says is what the script was. */
  lemma {:induction false} ScriptOfCompressed(curve: Curve, s: Script)
    requires IsCurve(curve) && Compress(curve, s).Some?
    ensures var c := Compress(curve, s).value;
            && |c| > 0 && c[0] < SPECIAL_SCRIPTS && |c[1..]| == GetSpecialSize(c[0])
            && Decompress(curve, c[0], c[1..]) == s
  {
    var c := Compress(curve, s).value;
    if IsToKeyID(s) {
      assert s == [s[0], s[1], s[2]] + s[3..23] + [s[23], s[24]];
    } else if IsToScriptID(s) {
      assert s == [s[0], s[1]] + s[2..22] + [s[22]];
    } else if IsToCompressedKey(s) {
      assert s == [s[0], s[1]] + s[2..34] + [s[34]];
    } else {
      var pubkey := s[1..66];
      assert pubkey[1..33] == s[2..34] == c[1..] && pubkey[64] == s[65];
      assert s == [s[0]] + pubkey + [s[66]];
    }
  }

  /** The six special forms and their codes; any other script is not compressed. */
  lemma {:induction false} SpecialForms(curve: Curve, h: Script, x: Script, y: Script)
    requires |h| == 20 && |x| == |y| == 32
    ensures Compress(curve, [OP_DUP, OP_HASH160, 20] + h + [OP_EQUALVERIFY, OP_CHECKSIG]) == Some([0] + h)
    ensures Compress(curve, [OP_HASH160, 20] + h + [OP_EQUAL]) == Some([1] + h)
    ensures Compress(curve, [33, 2] + x + [OP_CHECKSIG]) == Some([2] + x)
    ensures Compress(curve, [33, 3] + x + [OP_CHECKSIG]) == Some([3] + x)
    ensures Compress(curve, [65, 4] + x + y + [OP_CHECKSIG]) ==
      if !curve.isFullyValid([4] + x + y) then None else if y[31] % 2 == 0 then Some([4] + x) else Some([5] + x)
  {
    var toKey := [OP_DUP, OP_HASH160, 20] + h + [OP_EQUALVERIFY, OP_CHECKSIG];
    var toScript := [OP_HASH160, 20] + h + [OP_EQUAL];
    var even, odd, full := [33, 2] + x + [OP_CHECKSIG], [33, 3] + x + [OP_CHECKSIG], [65, 4] + x + y + [OP_CHECKSIG];
    assert toKey[3..23] == h && toScript[2..22] == h && even[2..34] == x && odd[2..34] == x;
    assert full[2..34] == x && full[1..66] == [4] + x + y && full[65] == y[31];
  }

  function WriteScript(curve: Curve, s: Script): Stream {
    match Compress(curve, s)
    case Some(c) => c
    case None => Write(|s| + SPECIAL_SCRIPTS) + s
  }

  function ReadScript(curve: Curve, s: Stream): Read<Script> {
    match ReadFrom(s, 0)
    case Fail => Fail
    case Got(nSize, rest) =>
      if nSize < SPECIAL_SCRIPTS then
        match ReadBytes(rest, GetSpecialSize(nSize))
        case Fail => Fail
        case Got(data, rest') => Got(Decompress(curve, nSize, data), rest')
      else ReadBytes(rest, nSize - SPECIAL_SCRIPTS)
  }

  lemma {:induction false} ReadOfWriteScript(curve: Curve, script: Script, rest: Stream)
    requires IsCurve(curve)
    ensures ReadScript(curve, WriteScript(curve, script) + rest) == Got(script, rest)
  {
    hide Compress, Decompress, ReadFrom, Write, IsCurve;
    match Compress(curve, script)
    case Some(c) =>
      ScriptOfCompressed(curve, script);
      assert c + rest == [c[0]] + (c[1..] + rest);
      SmallNumber(c[0]);
      ReadOfWrite(c[0], c[1..] + rest);
      assert ReadBytes(c[1..] + rest, |c[1..]|) == Got(c[1..], rest);
    case None =>
      ReadOfWrite(|script| + SPECIAL_SCRIPTS, script + rest);
      assert (Write(|script| + SPECIAL_SCRIPTS) + script) + rest == Write(|script| + SPECIAL_SCRIPTS) + (script + rest);
      assert ReadBytes(script + rest, |script|) == Got(script, rest);
  }

  /** The documented sizes: 21 or 33 bytes for a special form, otherwise one or two bytes more than the script has. */
  lemma {:induction false} ScriptSizes(curve: Curve, s: Script)
    ensures Compress(curve, s).Some? ==>
      |WriteScript(curve, s)| == (if IsToKeyID(s) || IsToScriptID(s) then 21 else 33) && |s| > 21
    ensures Compress(curve, s) == None ==>
      && (|WriteScript(curve, s)| == 1 + |s| <==> |s| <= 121)
      && (|WriteScript(curve, s)| <= 2 + |s| <==> |s| <= 16505)
  {
    hide Write;
    SizeIff(|s| + SPECIAL_SCRIPTS, 0);
    SizeIff(|s| + SPECIAL_SCRIPTS, 1);
    SizeIff(|s| + SPECIAL_SCRIPTS, 2);
    assert Below(1) == 128 && Below(2) == 16512;
  }

  lemma {:induction false} SmallNumber(n: nat)
    requires n <= 0x7F
    ensures Write(n) == [n]
  {
  }

  // ------------------------------------------------------------------- outputs

  function WriteTxOut(curve: Curve, o: CTxOut): Stream
    requires o.nValue >= 0
  {
    Write(CompressAmount(o.nValue)) + WriteScript(curve, o.scriptPubKey)
  }

  function ReadTxOut(curve: Curve, s: Stream): Read<CTxOut> {
    match ReadFrom(s, 0)
    case Fail => Fail
    case Got(nVal, rest) =>
      match ReadScript(curve, rest)
      case Fail => Fail
      case Got(script, rest') => Got(CTxOut(DecompressAmount(nVal), script), rest')
  }

  lemma {:induction false} ReadOfWriteTxOut(curve: Curve, o: CTxOut, rest: Stream)
    requires IsCurve(curve) && o.nValue >= 0
    ensures ReadTxOut(curve, WriteTxOut(curve, o) + rest) == Got(o, rest)
  {
    hide ReadFrom, Write, ReadScript, WriteScript, CompressAmount, DecompressAmount, IsCurve;
    var amount := CompressAmount(o.nValue);
    var script := WriteScript(curve, o.scriptPubKey);
    assert (Write(amount) + script) + rest == Write(amount) + (script + rest);
    ReadOfWrite(amount, script + rest);
    ReadOfWriteScript(curve, o.scriptPubKey, rest);
    DecompressOfCompress(o.nValue);
  }
}
