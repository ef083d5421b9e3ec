/**
 `CCoins::Serialize` and `Unserialize`: header code, availability mask, outputs, height.
 The reader finds the end of the mask by counting its non-zero bytes.
 */
module CoinsSerializer {
  import opened Coins
  import opened Compressor
  import opened Powers
  import opened VarInt

  // ------------------------------------------------------------- mask bytes

  /** Up to eight bits as a number, least significant first. */
  function Pack(bits: seq<bool>): nat {
    if bits == [] then 0 else (if bits[0] then 1 else 0) + 2 * Pack(bits[1..])
  }

  /** The low `n` bits of a byte. */
  function Unpack(b: nat, n: nat): (bits: seq<bool>)
    ensures |bits| == n
  {
    if n == 0 then [] else [b % 2 == 1] + Unpack(b / 2, n - 1)
  }

  lemma {:induction false} UnpackOfPack(bits: seq<bool>)
    ensures Unpack(Pack(bits), |bits|) == bits
  {
    if bits != [] {
      UnpackOfPack(bits[1..]);
      Halves(bits[0], Pack(bits[1..]));
    }
  }

  lemma {:induction false} Halves(b: bool, q: nat)
    ensures var n := (if b then 1 else 0) + 2 * q; n / 2 == q && (n % 2 == 1 <==> b)
  {
  }

  lemma {:induction false} PackIsZeroIff(bits: seq<bool>)
    ensures Pack(bits) == 0 <==> forall i :: 0 <= i < |bits| ==> !bits[i]
  {
    if bits != [] {
      PackIsZeroIff(bits[1..]);
      assert forall i :: 1 <= i < |bits| ==> bits[i] == bits[1..][i - 1];
    }
  }

  lemma {:induction false} PackAppend(bits: seq<bool>, b: bool)
    ensures Pack(bits + [b]) == Pack(bits) + if b then Pow(2, |bits|) else 0
  {
    if bits == [] {
      assert ([] + [b])[1..] == [];
    } else {
      PackAppend(bits[1..], b);
      assert (bits + [b])[1..] == bits[1..] + [b];
    }
  }

  /** Bit `i` of mask byte `b`. */
  predicate InGroup(c: CCoins, b: nat, i: nat) { c.IsAvailable(2 + b * 8 + i) }

  /** Availability of the eight outputs that mask byte `b` covers. */
  function GroupBits(c: CCoins, b: nat): (bits: seq<bool>)
    ensures |bits| == 8 && forall i :: 0 <= i < 8 ==> bits[i] == InGroup(c, b, i)
  {
    seq(8, i requires 0 <= i < 8 => InGroup(c, b, i))
  }

  function Group(c: CCoins, b: nat): nat { Pack(GroupBits(c, b)) }

  /** The number of mask bytes that cover all of `vout`. */
  function Groups(c: CCoins): nat {
    if |c.vout| <= 2 then 0 else (|c.vout| - 2 + 7) / 8
  }

  /** One past the last non-zero mask byte below `b`. */
  function LastUsed(c: CCoins, b: nat): (n: nat)
    ensures n <= b && (n > 0 ==> Group(c, n - 1) != 0)
    ensures forall k :: n <= k < b ==> Group(c, k) == 0
  {
    if b == 0 then 0 else if Group(c, b - 1) != 0 then b else LastUsed(c, b - 1)
  }

  function NonZero(c: CCoins, b: nat): nat {
    if b == 0 then 0 else NonZero(c, b - 1) + if Group(c, b - 1) != 0 then 1 else 0
  }

  function MaskSize(c: CCoins): nat { LastUsed(c, Groups(c)) }

  lemma {:induction false} TrailingZeroGroups(c: CCoins, n: nat, b: nat)
    requires n <= b && forall k :: n <= k < b ==> Group(c, k) == 0
    ensures NonZero(c, b) == NonZero(c, n)
  {
    if n < b {
      TrailingZeroGroups(c, n, b - 1);
    }
  }

  lemma {:induction false} GroupIsZeroIff(c: CCoins, b: nat)
    ensures Group(c, b) == 0 <==> forall i :: 0 <= i < 8 ==> !InGroup(c, b, i)
  {
    PackIsZeroIff(GroupBits(c, b));
    if i :| 0 <= i < 8 && InGroup(c, b, i) {
      assert GroupBits(c, b)[i];
    }
  }

  /** Past the mask nothing is available. */
  lemma {:induction false} BeyondMask(c: CCoins, n: nat)
    requires n >= 2 + 8 * MaskSize(c)
    ensures !c.IsAvailable(n)
  {
    var b := (n - 2) / 8;
    if n < |c.vout| {
      GroupIsZeroIff(c, b);
      assert n == 2 + b * 8 + (n - 2) % 8;
      assert InGroup(c, b, (n - 2) % 8) == c.IsAvailable(n);
    }
  }

  method CalcMaskSize(c: CCoins) returns (nBytes: nat, nNonzeroBytes: nat)
    ensures nBytes == MaskSize(c) && nNonzeroBytes == NonZero(c, MaskSize(c))
  {
    hide Group;
    nNonzeroBytes := 0;
    var nLastUsedByte, b := 0, 0;
    while 2 + b * 8 < |c.vout|
      invariant b <= Groups(c)
      invariant nLastUsedByte == LastUsed(c, b) && nNonzeroBytes == NonZero(c, b)
    {
      var fZero := IsZeroGroup(c, b);
      if !fZero {
        nLastUsedByte := b + 1;
        nNonzeroBytes := nNonzeroBytes + 1;
      }
      b := b + 1;
    }
    TrailingZeroGroups(c, MaskSize(c), Groups(c));
    nBytes := nLastUsedByte;
  }

  /** The inner loop over the outputs of one mask byte. */
  method IsZeroGroup(c: CCoins, b: nat) returns (fZero: bool)
    ensures fZero <==> Group(c, b) == 0
  {
    fZero := true;
    var i := 0;
    while i < 8 && 2 + b * 8 + i < |c.vout|
      invariant i <= 8
      invariant fZero <==> forall j :: 0 <= j < i ==> !InGroup(c, b, j)
    {
      assert InGroup(c, b, i) == !c.vout[2 + b * 8 + i].IsNull();
      if !c.vout[2 + b * 8 + i].IsNull() {
        fZero := false;
      }
      i := i + 1;
    }
    GroupIsZeroIff(c, b);
  }

  // ------------------------------------------------------------------- writing

  /** What a `CCoins` can hold: valid amounts, and nothing left of a spent output. */
  ghost predicate WellFormed(c: CCoins) {
    forall i :: 0 <= i < |c.vout| ==> c.vout[i] == NULL_TXOUT || 0 <= c.vout[i].nValue
  }

  function HeaderCode(c: CCoins): int {
    var fFirst, fSecond := c.IsAvailable(0), c.IsAvailable(1);
    8 * (NonZero(c, MaskSize(c)) - (if fFirst || fSecond then 0 else 1))
      + (if c.fCoinBase then 1 else 0) + (if fFirst then 2 else 0) + (if fSecond then 4 else 0)
  }

  /** The mask bytes from `b` on. */
  function Mask(c: CCoins, b: nat): Stream
    decreases MaskSize(c) - b
  {
    if b >= MaskSize(c) then [] else [Group(c, b)] + Mask(c, b + 1)
  }

  function WriteOutputs(curve: Curve, vout: seq<CTxOut>): Stream
    requires forall i :: 0 <= i < |vout| ==> vout[i] == NULL_TXOUT || 0 <= vout[i].nValue
  {
    if vout == [] then []
    else (if vout[0].IsNull() then [] else WriteTxOut(curve, vout[0])) + WriteOutputs(curve, vout[1..])
  }

  function Serialize(curve: Curve, c: CCoins): Stream
    requires forall i :: 0 <= i < |c.vout| ==> c.vout[i] == NULL_TXOUT || 0 <= c.vout[i].nValue
  {
    Write(c.nVersion) + Write(HeaderCode(c)) + Mask(c, 0) + WriteOutputs(curve, c.vout) + Write(c.nHeight)
  }

  // ------------------------------------------------------------------- reading

  /** Mask bytes until `nMaskCode` of them were not zero. */
  function ReadMask(s: Stream, nMaskCode: nat, vAvail: seq<bool>): Read<seq<bool>>
    decreases |s|
  {
    if nMaskCode == 0 then Got(vAvail, s)
    else if s == [] then Fail
    else ReadMask(s[1..], if s[0] != 0 then nMaskCode - 1 else nMaskCode, vAvail + Unpack(s[0], 8))
  }

  function ReadOutputs(curve: Curve, s: Stream, vAvail: seq<bool>): Read<seq<CTxOut>>
    decreases |vAvail|
  {
    if vAvail == [] then Got([], s)
    else if !vAvail[0] then
      match ReadOutputs(curve, s, vAvail[1..])
      case Fail => Fail
      case Got(vout, rest) => Got([NULL_TXOUT] + vout, rest)
    else
      match ReadTxOut(curve, s)
      case Fail => Fail
      case Got(o, rest) =>
        match ReadOutputs(curve, rest, vAvail[1..])
        case Fail => Fail
        case Got(vout, rest') => Got([o] + vout, rest')
  }

  function Unserialize(curve: Curve, s: Stream): Read<CCoins> {
    match ReadFrom(s, 0)
    case Fail => Fail
    case Got(nVersion, s1) =>
      match ReadFrom(s1, 0)
      case Fail => Fail
      case Got(nCode, s2) =>
        match ReadMask(s2, MaskCode(nCode), FirstTwo(nCode))
        case Fail => Fail
        case Got(vAvail, s3) =>
          match ReadOutputs(curve, s3, vAvail)
          case Fail => Fail
          case Got(vout, s4) =>
            match ReadFrom(s4, 0)
            case Fail => Fail
            case Got(nHeight, rest) => Got(CCoins(nCode % 2 == 1, vout, nHeight, nVersion).Cleanup(), rest)
  }

  function MaskCode(nCode: nat): nat {
    nCode / 8 + if nCode / 2 % 4 != 0 then 0 else 1
  }

  function FirstTwo(nCode: nat): seq<bool> { [nCode / 2 % 2 == 1, nCode / 4 % 2 == 1] }

  // ---------------------------------------------------------------- round trip

  /** The availability bits that the reader collects: the first two, then eight per mask byte. */
  function Avail(c: CCoins, n: nat): (bits: seq<bool>)
    ensures |bits| == n
  {
    seq(n, i requires 0 <= i < n => c.IsAvailable(i))
  }

  /** The header code is never negative for coins that are not all spent, and says what it should. */
  lemma {:induction false} HeaderSaysIt(c: CCoins)
    requires !c.IsPruned()
    ensures HeaderCode(c) >= 0
    ensures var n := HeaderCode(c);
            MaskCode(n) == NonZero(c, MaskSize(c)) && FirstTwo(n) == Avail(c, 2) && (n % 2 == 1 <==> c.fCoinBase)
  {
    hide NonZero, LastUsed, MaskSize;
    if !c.IsAvailable(0) && !c.IsAvailable(1) {
      SomeMaskByte(c);
    }
    CodeFields(NonZero(c, MaskSize(c)), c.fCoinBase, c.IsAvailable(0), c.IsAvailable(1));
  }

  /** If neither of the first two outputs is there, some mask byte is not zero. */
  lemma {:induction false} SomeMaskByte(c: CCoins)
    requires !c.IsPruned() && !c.IsAvailable(0) && !c.IsAvailable(1)
    ensures NonZero(c, MaskSize(c)) > 0
  {
    hide Group;
    var i :| 0 <= i < |c.vout| && !c.vout[i].IsNull();
    assert c.IsAvailable(i);
    if MaskSize(c) == 0 {
      BeyondMask(c, i);
    }
  }

  lemma {:induction false} CodeFields(k: nat, fCoinBase: bool, fFirst: bool, fSecond: bool)
    requires fFirst || fSecond || k > 0
    ensures var n := 8 * (k - (if fFirst || fSecond then 0 else 1)) + (if fCoinBase then 1 else 0)
                     + (if fFirst then 2 else 0) + (if fSecond then 4 else 0);
            n >= 0 && MaskCode(n) == k && FirstTwo(n) == [fFirst, fSecond] && (n % 2 == 1 <==> fCoinBase)
  {
    ByEight(k - (if fFirst || fSecond then 0 else 1), fCoinBase, fFirst, fSecond);
  }

  lemma {:induction false} ByEight(q: nat, b: bool, c: bool, d: bool)
    ensures var n := 8 * q + (if b then 1 else 0) + (if c then 2 else 0) + (if d then 4 else 0);
            && n / 8 == q && (n / 2 % 4 != 0 <==> c || d)
            && (n % 2 == 1 <==> b) && (n / 2 % 2 == 1 <==> c) && (n / 4 % 2 == 1 <==> d)
  {
    var x, y, z: nat := if b then 1 else 0, if c then 1 else 0, if d then 1 else 0;
    DivMod(q, 8, x + 2 * y + 4 * z);
    DivMod(4 * q + y + 2 * z, 2, x);
    DivMod(q, 4, y + 2 * z);
    DivMod(2 * q + z, 2, y);
    DivMod(2 * q + z, 4, x + 2 * y);
    DivMod(q, 2, z);
  }

  lemma {:induction false} ReadOfMask(c: CCoins, b: nat, rest: Stream)
    requires b <= MaskSize(c)
    ensures NonZero(c, b) <= NonZero(c, MaskSize(c))
    ensures ReadMask(Mask(c, b) + rest, NonZero(c, MaskSize(c)) - NonZero(c, b), Avail(c, 2 + 8 * b))
      == Got(Avail(c, 2 + 8 * MaskSize(c)), rest)
    decreases MaskSize(c) - b
  {
    hide Group, Unpack, Avail;
    if b < MaskSize(c) {
      ReadOfMask(c, b + 1, rest);
      assert (Mask(c, b) + rest)[1..] == Mask(c, b + 1) + rest;
      EightMore(c, b);
      SomeLeft(c, b);
    } else {
      assert Mask(c, b) + rest == rest;
    }
  }

  lemma {:induction false} EightMore(c: CCoins, b: nat)
    ensures Avail(c, 2 + 8 * b) + Unpack(Group(c, b), 8) == Avail(c, 2 + 8 * (b + 1))
  {
    hide Pack, Unpack, CCoins.IsAvailable;
    UnpackOfPack(GroupBits(c, b));
    assert forall i :: 0 <= i < 8 ==> GroupBits(c, b)[i] == Avail(c, 2 + 8 * (b + 1))[2 + 8 * b + i];
  }

  /** Before the end of the mask there is a non-zero byte to come. */
  lemma {:induction false} SomeLeft(c: CCoins, b: nat)
    requires b < MaskSize(c)
    ensures NonZero(c, b) < NonZero(c, MaskSize(c))
  {
    NonZeroGrows(c, b, MaskSize(c) - 1);
  }

  lemma {:induction false} NonZeroGrows(c: CCoins, b: nat, d: nat)
    requires b <= d
    ensures NonZero(c, b) <= NonZero(c, d)
  {
    if b < d {
      NonZeroGrows(c, b, d - 1);
    }
  }

  /** Output lists of any length read back as the written list, spent outputs as null, padded to the bits given. */
  lemma {:induction false} ReadOfOutputs(curve: Curve, vout: seq<CTxOut>, bits: seq<bool>, rest: Stream)
    requires IsCurve(curve)
    requires forall i :: 0 <= i < |vout| ==> vout[i] == NULL_TXOUT || 0 <= vout[i].nValue
    requires forall i :: 0 <= i < |bits| ==> bits[i] == (i < |vout| && !vout[i].IsNull())
    requires forall i :: |bits| <= i < |vout| ==> vout[i].IsNull()
    ensures ReadOutputs(curve, WriteOutputs(curve, vout) + rest, bits).Got?
    ensures ReadOutputs(curve, WriteOutputs(curve, vout) + rest, bits).rest == rest
    ensures var got := ReadOutputs(curve, WriteOutputs(curve, vout) + rest, bits).value;
            |got| == |bits| && forall i :: 0 <= i < |bits| ==> got[i] == if i < |vout| then vout[i] else NULL_TXOUT
    decreases |vout| + |bits|
  {
    hide ReadTxOut, WriteTxOut, WriteOutputs, ReadOutputs, IsCurve;
    var s := WriteOutputs(curve, vout) + rest;
    if bits == [] {
      NothingToWrite(curve, vout);
      NothingToRead(curve, rest);
      assert s == rest;
    } else {
      var vout' := if vout == [] then [] else vout[1..];
      var s' := WriteOutputs(curve, vout') + rest;
      ReadOfOutputs(curve, vout', bits[1..], rest);
      WriteFirstOutput(curve, vout, rest);
      if bits[0] {
        ReadOfWriteTxOut(curve, vout[0], s');
      }
      ReadFirstOutput(curve, s, bits, if vout == [] then NULL_TXOUT else vout[0], s');
    }
  }

  lemma {:induction false} NothingToWrite(curve: Curve, vout: seq<CTxOut>)
    requires forall i :: 0 <= i < |vout| ==> vout[i] == NULL_TXOUT
    ensures WriteOutputs(curve, vout) == []
  {
    if vout != [] {
      NothingToWrite(curve, vout[1..]);
    }
  }

  lemma {:induction false} NothingToRead(curve: Curve, s: Stream)
    ensures ReadOutputs(curve, s, []) == Got([], s)
  {
  }

  lemma {:induction false} WriteFirstOutput(curve: Curve, vout: seq<CTxOut>, rest: Stream)
    requires forall i :: 0 <= i < |vout| ==> vout[i] == NULL_TXOUT || 0 <= vout[i].nValue
    ensures WriteOutputs(curve, vout) + rest ==
      if vout == [] then [] + rest
      else if vout[0].IsNull() then WriteOutputs(curve, vout[1..]) + rest
      else WriteTxOut(curve, vout[0]) + (WriteOutputs(curve, vout[1..]) + rest)
  {
    hide WriteTxOut;
  }

  lemma {:induction false} ReadFirstOutput(curve: Curve, s: Stream, bits: seq<bool>, o: CTxOut, s': Stream)
    requires bits != [] && ReadOutputs(curve, s', bits[1..]).Got?
    requires if bits[0] then ReadTxOut(curve, s) == Got(o, s') else s == s' && o == NULL_TXOUT
    ensures var r := ReadOutputs(curve, s', bits[1..]);
            ReadOutputs(curve, s, bits) == Got([o] + r.value, r.rest)
  {
    hide ReadTxOut;
  }

  lemma {:induction false} ReadOfSerialize(curve: Curve, c: CCoins, rest: Stream)
    requires IsCurve(curve) && WellFormed(c) && !c.IsPruned()
    ensures var n, h := if c.nVersion >= 0 then c.nVersion else c.nVersion % 128,
      if c.nHeight >= 0 then c.nHeight else c.nHeight % 128;
            Unserialize(curve, Serialize(curve, c) + rest) == Got(c.Cleanup().(nVersion := n, nHeight := h), rest)
  {
    hide IsCurve, Write, ReadFrom, HeaderCode, Mask, ReadMask, MaskCode, FirstTwo, ReadOutputs, WriteOutputs, Avail,
      MaskSize, NonZero;
    var size := MaskSize(c);
    var s4 := Write(c.nHeight) + rest;
    var s3 := WriteOutputs(curve, c.vout) + s4;
    var s2 := Mask(c, 0) + s3;
    var s1 := Write(HeaderCode(c)) + s2;
    assert Serialize(curve, c) + rest == Write(c.nVersion) + s1;
    ReadOfWrite(c.nVersion, s1);
    HeaderSaysIt(c);
    ReadOfWrite(HeaderCode(c), s2);
    NoneBelowZero(c);
    ReadOfMask(c, 0, s3);
    AvailIs(c, 2 + 8 * size);
    ReadOfOutputs(curve, c.vout, Avail(c, 2 + 8 * size), s4);
    var vout := ReadOutputs(curve, s3, Avail(c, 2 + 8 * size)).value;
    PaddingIsTrimmed(c.vout, vout);
    ReadOfWrite(c.nHeight, rest);
  }

  lemma {:induction false} NoneBelowZero(c: CCoins)
    ensures NonZero(c, 0) == 0
  {
  }

  lemma {:induction false} AvailIs(c: CCoins, n: nat)
    requires n == 2 + 8 * MaskSize(c)
    ensures forall i :: 0 <= i < n ==> Avail(c, n)[i] == (i < |c.vout| && !c.vout[i].IsNull())
    ensures forall i :: n <= i < |c.vout| ==> c.vout[i].IsNull()
  {
    forall i | n <= i < |c.vout| ensures c.vout[i].IsNull() {
      BeyondMask(c, i);
    }
  }

  /** Two output lists that differ only in nulls at the end trim to the same list. */
  lemma {:induction false} PaddingIsTrimmed(a: seq<CTxOut>, b: seq<CTxOut>)
    requires forall i :: 0 <= i < |a| && i < |b| ==> a[i] == b[i]
    requires (forall i :: |b| <= i < |a| ==> a[i].IsNull()) && (forall i :: |a| <= i < |b| ==> b[i].IsNull())
    ensures Trim(a) == Trim(b)
    decreases |a| + |b|
  {
    if |a| < |b| {
      PaddingIsTrimmed(a, b[..|b| - 1]);
    } else if |b| < |a| {
      PaddingIsTrimmed(a[..|a| - 1], b);
    } else {
      assert a == b;
    }
  }

  /** Trimmed, unspent coins survive serialization exactly when version and height are not negative. */
  lemma {:induction false} RoundTripIffNonNegative(curve: Curve, c: CCoins, rest: Stream)
    requires IsCurve(curve) && WellFormed(c) && !c.IsPruned() && c.IsTrimmed()
    ensures Unserialize(curve, Serialize(curve, c) + rest) == Got(c, rest) <==> c.nVersion >= 0 && c.nHeight >= 0
  {
    hide Serialize, Unserialize, WellFormed;
    ReadOfSerialize(curve, c, rest);
    assert c.Cleanup() == c;
  }

  /** A case that does not come back: version -1 reads as 127. */
  lemma {:induction false} NegativeVersionIsLost(curve: Curve, rest: Stream)
    requires IsCurve(curve)
    ensures var c := CCoins(false, [CTxOut(1, [])], 0, -1);
            WellFormed(c) && Unserialize(curve, Serialize(curve, c) + rest) == Got(c.(nVersion := 127), rest)
  {
    hide Serialize, Unserialize;
    var c := CCoins(false, [CTxOut(1, [])], 0, -1);
    assert c.Cleanup() == c;
    assert c.IsAvailable(0) && !c.IsPruned();
    ReadOfSerialize(curve, c, rest);
  }

  // --------------------------------------------------------------- the documented examples

  function ToKeyID(h: Script): Script { [OP_DUP, OP_HASH160, 20] + h + [OP_EQUALVERIFY, OP_CHECKSIG] }

  lemma {:induction false} OutputToKeyID(curve: Curve, nCode: nat, h: Script)
    requires |h| == 20
    ensures WriteTxOut(curve, CTxOut(DecompressAmount(nCode), ToKeyID(h))) == Write(nCode) + ([0] + h)
  {
    hide Compress, CompressAmount, DecompressAmount, Write;
    CompressOfDecompress(nCode);
    SpecialForms(curve, h, seq(32, _ => 0), seq(32, _ => 0));
  }

  lemma {:induction false} NullsWriteNothing(curve: Curve, k: nat, vout: seq<CTxOut>)
    requires forall i :: 0 <= i < |vout| ==> vout[i] == NULL_TXOUT || 0 <= vout[i].nValue
    ensures WriteOutputs(curve, Nulls(k) + vout) == WriteOutputs(curve, vout)
  {
    if k > 0 {
      assert (Nulls(k) + vout)[1..] == Nulls(k - 1) + vout;
      NullsWriteNothing(curve, k - 1, vout);
    } else {
      assert Nulls(k) + vout == vout;
    }
  }

  function Nulls(k: nat): (vout: seq<CTxOut>)
    ensures |vout| == k && forall i :: 0 <= i < k ==> vout[i] == NULL_TXOUT
  {
    seq(k, _ => NULL_TXOUT)
  }

  lemma {:induction false} ExampleNumbers()
    ensures Write(1) == [0x01] && Write(4) == [0x04] && Write(9) == [0x09] && Write(600) == [0x83, 0x58]
    ensures Write(2114333561) == [0x86, 0xef, 0x97, 0xd5, 0x79] && Write(993571) == [0xbb, 0xd1, 0x23]
    ensures Write(203998) == [0x8b, 0xb8, 0x5e] && Write(120891) == [0x86, 0xaf, 0x3b]
  {
    hide Write, Continued;
    OneByte(1);
    OneByte(4);
    OneByte(9);
    OneMoreDigit(3, 0x58);
    OneMoreDigit(0x6, 0x6f);
    OneMoreDigit(1007, 0x17);
    OneMoreDigit(129047, 0x55);
    OneMoreDigit(16518229, 0x79);
    OneMoreDigit(0x3b, 0x51);
    OneMoreDigit(7761, 0x23);
    OneMoreDigit(0xb, 0x38);
    OneMoreDigit(1592, 0x5e);
    OneMoreDigit(0x6, 0x2f);
    OneMoreDigit(943, 0x3b);
  }

  lemma {:induction false} ExampleAmounts()
    ensures DecompressAmount(600) == 60000000000 && DecompressAmount(2114333561) == 234925952
    ensures DecompressAmount(993571) == 110397
  {
    TenPowers();
  }

  /** The first example that documents the format, for any key hash. */
  lemma {:induction false} FirstExample(curve: Curve, h: Script)
    requires |h| == 20
    ensures var c := CCoins(false, [NULL_TXOUT, CTxOut(60000000000, ToKeyID(h))], 203998, 1);
            WellFormed(c) && Serialize(curve, c) == [0x01, 0x04, 0x83, 0x58, 0x00] + h + [0x8b, 0xb8, 0x5e]
  {
    hide Write, WriteTxOut, DecompressAmount, ToKeyID;
    var out := CTxOut(60000000000, ToKeyID(h));
    var c := CCoins(false, [NULL_TXOUT, out], 203998, 1);
    ExampleNumbers();
    ExampleAmounts();
    OutputToKeyID(curve, 600, h);
    assert Groups(c) == 0 && MaskSize(c) == 0 && HeaderCode(c) == 4 && Mask(c, 0) == [];
    assert c.vout[1..] == [out];
    assert WriteOutputs(curve, c.vout) == WriteOutputs(curve, [out]) == WriteTxOut(curve, out);
  }

  /** The second one: a coinbase whose outputs 4 and 16 are left. */
  lemma {:induction false} SecondExample(curve: Curve, g: Script, h: Script)
    requires |g| == |h| == 20
    ensures var a, b := CTxOut(234925952, ToKeyID(g)), CTxOut(110397, ToKeyID(h));
            var c := CCoins(true, Nulls(4) + ([a] + (Nulls(11) + [b])), 120891, 1);
            WellFormed(c) &&
              Serialize(curve, c) == [0x01, 0x09, 0x04, 0x40] + [0x86, 0xef, 0x97, 0xd5, 0x79, 0x00] + g
                + [0xbb, 0xd1, 0x23, 0x00] + h + [0x86, 0xaf, 0x3b]
  {
    hide Write, WriteTxOut, DecompressAmount, ToKeyID, WriteOutputs, MaskSize, NonZero, Mask, Nulls;
    var a, b := CTxOut(234925952, ToKeyID(g)), CTxOut(110397, ToKeyID(h));
    var c := CCoins(true, Nulls(4) + ([a] + (Nulls(11) + [b])), 120891, 1);
    ExampleNumbers();
    ExampleAmounts();
    OutputToKeyID(curve, 2114333561, g);
    OutputToKeyID(curve, 993571, h);
    ExampleMask(c);
    TwoOutputs(curve, a, b);
  }

  lemma {:induction false} TwoOutputs(curve: Curve, a: CTxOut, b: CTxOut)
    requires a.nValue >= 0 && b.nValue >= 0
    ensures WriteOutputs(curve, Nulls(4) + ([a] + (Nulls(11) + [b]))) == WriteTxOut(curve, a) + WriteTxOut(curve, b)
  {
    hide WriteTxOut, Nulls;
    NullsWriteNothing(curve, 4, [a] + (Nulls(11) + [b]));
    assert ([a] + (Nulls(11) + [b]))[1..] == Nulls(11) + [b];
    NullsWriteNothing(curve, 11, [b]);
    assert WriteOutputs(curve, [b]) == WriteTxOut(curve, b) + [];
  }

  lemma {:induction false} ExampleMask(c: CCoins)
    requires |c.vout| == 17 && forall i :: 0 <= i < 17 ==> c.vout[i].IsNull() <==> i != 4 && i != 16
    requires c.fCoinBase
    ensures HeaderCode(c) == 9 && Mask(c, 0) == [0x04, 0x40]
  {
    hide Group;
    ExampleGroups(c);
    assert Groups(c) == 2 && MaskSize(c) == 2;
    assert NonZero(c, 0) == 0 && NonZero(c, 1) == 1 && NonZero(c, 2) == 2;
    assert Mask(c, 2) == [] && Mask(c, 1) == [0x40] + [];
  }

  lemma {:induction false} ExampleGroups(c: CCoins)
    requires |c.vout| == 17 && forall i :: 0 <= i < 17 ==> c.vout[i].IsNull() <==> i != 4 && i != 16
    ensures Group(c, 0) == 0x04 && Group(c, 1) == 0x40
  {
    hide GroupBits, Pack;
    PackOfOne(GroupBits(c, 0), 2);
    PackOfOne(GroupBits(c, 1), 6);
    assert Pow(2, 2) == 4 && Pow(2, 6) == 0x40;
  }

  lemma {:induction false} PackOfOne(bits: seq<bool>, p: nat)
    requires p < |bits| && forall i :: 0 <= i < |bits| ==> (bits[i] <==> i == p)
    ensures Pack(bits) == Pow(2, p)
  {
    if p == 0 {
      PackIsZeroIff(bits[1..]);
    } else {
      PackOfOne(bits[1..], p - 1);
    }
  }

  // ------------------------------------------------------------------ as loops

  /** `Serialize`, writing one field after the other. */
  method SerializeLoop(curve: Curve, c: CCoins) returns (s: Stream)
    requires WellFormed(c) && !c.IsPruned()
    ensures s == Serialize(curve, c)
  {
    hide Write, Group, MaskSize, NonZero, Mask, WriteOutputs, MaskCode, FirstTwo;
    var nMaskSize, nMaskCode := CalcMaskSize(c);
    var fFirst, fSecond := |c.vout| > 0 && !c.vout[0].IsNull(), |c.vout| > 1 && !c.vout[1].IsNull();
    HeaderSaysIt(c);
    var nCode := 8 * (nMaskCode - (if fFirst || fSecond then 0 else 1)) + (if c.fCoinBase then 1 else 0)
      + (if fFirst then 2 else 0) + (if fSecond then 4 else 0);
    var version := WriteVarInt(c.nVersion);
    var code := WriteVarInt(nCode);
    var mask := WriteMask(c, nMaskSize);
    var outputs := WriteAvailable(curve, c);
    var height := WriteVarInt(c.nHeight);
    s := version + code + mask + outputs + height;
  }

  method WriteMask(c: CCoins, nMaskSize: nat) returns (s: Stream)
    requires nMaskSize == MaskSize(c)
    ensures s == Mask(c, 0)
  {
    hide Group;
    s := [];
    for b := 0 to nMaskSize
      invariant s + Mask(c, b) == Mask(c, 0)
    {
      var chAvail := MaskByte(c, b);
      assert s + Mask(c, b) == (s + [chAvail]) + Mask(c, b + 1);
      s := s + [chAvail];
    }
  }

  /** One mask byte; no bit is set twice, so `chAvail |= 1 << i` is an addition. */
  method MaskByte(c: CCoins, b: nat) returns (chAvail: nat)
    ensures chAvail == Group(c, b)
  {
    ghost var bits := GroupBits(c, b);
    chAvail := 0;
    for i := 0 to 8
      invariant chAvail == Pack(bits[..i])
    {
      assert bits[..i + 1] == bits[..i] + [bits[i]];
      PackAppend(bits[..i], bits[i]);
      if 2 + b * 8 + i < |c.vout| && !c.vout[2 + b * 8 + i].IsNull() {
        chAvail := chAvail + Pow(2, i);
      }
    }
    assert bits[..8] == bits;
  }

  method WriteAvailable(curve: Curve, c: CCoins) returns (s: Stream)
    requires WellFormed(c)
    ensures s == WriteOutputs(curve, c.vout)
  {
    hide WriteOutputs, WriteTxOut;
    s := [];
    assert c.vout[0..] == c.vout;
    for i := 0 to |c.vout|
      invariant s + WriteOutputs(curve, c.vout[i..]) == WriteOutputs(curve, c.vout)
    {
      WriteOneOutput(curve, c, i, s);
      if !c.vout[i].IsNull() {
        s := s + WriteTxOut(curve, c.vout[i]);
      }
    }
    WriteNoOutput(curve, c.vout[|c.vout|..]);
  }

  lemma {:induction false} WriteOneOutput(curve: Curve, c: CCoins, i: nat, s: Stream)
    requires WellFormed(c) && i < |c.vout|
    ensures s + WriteOutputs(curve, c.vout[i..]) ==
      (if c.vout[i].IsNull() then s else s + WriteTxOut(curve, c.vout[i])) + WriteOutputs(curve, c.vout[i + 1..])
  {
    hide WriteTxOut;
    assert c.vout[i..][1..] == c.vout[i + 1..];
  }

  lemma {:induction false} WriteNoOutput(curve: Curve, vout: seq<CTxOut>)
    requires vout == []
    ensures WriteOutputs(curve, vout) == []
  {
  }

  /** `Unserialize`: each field is read into place, and any read off the end fails the whole. */
  method UnserializeLoop(curve: Curve, s: Stream) returns (r: Read<CCoins>)
    ensures r == Unserialize(curve, s)
  {
    hide ReadFrom, ReadMask, ReadOutputs;
    var version := ReadVarInt(s);
    if version == Fail { return Fail; }
    var code := ReadVarInt(version.rest);
    if code == Fail { return Fail; }
    var nCode := code.value;
    var mask := ReadMaskLoop(code.rest, nCode / 8 + if nCode / 2 % 4 != 0 then 0 else 1,
      [nCode / 2 % 2 == 1, nCode / 4 % 2 == 1]);
    if mask == Fail { return Fail; }
    var outputs := ReadOutputsLoop(curve, mask.rest, mask.value);
    if outputs == Fail { return Fail; }
    var height := ReadVarInt(outputs.rest);
    if height == Fail { return Fail; }
    r := Got(CCoins(nCode % 2 == 1, outputs.value, height.value, version.value).Cleanup(), height.rest);
  }

  method ReadMaskLoop(s: Stream, nMaskCodeIn: nat, vAvailIn: seq<bool>) returns (r: Read<seq<bool>>)
    ensures r == ReadMask(s, nMaskCodeIn, vAvailIn)
  {
    hide Unpack;
    var rest, nMaskCode, vAvail := s, nMaskCodeIn, vAvailIn;
    while nMaskCode > 0
      invariant ReadMask(rest, nMaskCode, vAvail) == ReadMask(s, nMaskCodeIn, vAvailIn)
      decreases |rest|
    {
      if rest == [] {
        return Fail;
      }
      var chAvail := rest[0];
      rest := rest[1..];
      vAvail := vAvail + Unpack(chAvail, 8);
      if chAvail != 0 {
        nMaskCode := nMaskCode - 1;
      }
    }
    r := Got(vAvail, rest);
  }

  function Before(vout: seq<CTxOut>, r: Read<seq<CTxOut>>): Read<seq<CTxOut>> {
    match r
    case Fail => Fail
    case Got(more, rest) => Got(vout + more, rest)
  }

  method ReadOutputsLoop(curve: Curve, s: Stream, vAvail: seq<bool>) returns (r: Read<seq<CTxOut>>)
    ensures r == ReadOutputs(curve, s, vAvail)
  {
    hide ReadTxOut;
    var vout: seq<CTxOut>, rest := [], s;
    assert vAvail[0..] == vAvail;
    assert Before([], ReadOutputs(curve, s, vAvail)) == ReadOutputs(curve, s, vAvail) by {
      EmptyBefore(ReadOutputs(curve, s, vAvail));
    }
    for i := 0 to |vAvail|
      invariant Before(vout, ReadOutputs(curve, rest, vAvail[i..])) == ReadOutputs(curve, s, vAvail)
    {
      assert vAvail[i..][1..] == vAvail[i + 1..];
      if vAvail[i] {
        var o := ReadTxOut(curve, rest);
        if o == Fail {
          return Fail;
        }
        rest := o.rest;
        OneBefore(vout, o.value, ReadOutputs(curve, rest, vAvail[i + 1..]));
        vout := vout + [o.value];
      } else {
        OneBefore(vout, NULL_TXOUT, ReadOutputs(curve, rest, vAvail[i + 1..]));
        vout := vout + [NULL_TXOUT];
      }
    }
    assert vAvail[|vAvail|..] == [];
    assert vout + [] == vout;
    r := Got(vout, rest);
  }

  lemma {:induction false} EmptyBefore(r: Read<seq<CTxOut>>)
    ensures Before([], r) == r
  {
    if r.Got? {
      assert [] + r.value == r.value;
    }
  }

  lemma {:induction false} OneBefore(vout: seq<CTxOut>, o: CTxOut, r: Read<seq<CTxOut>>)
    ensures Before(vout, Before([o], r)) == Before(vout + [o], r)
  {
    if r.Got? {
      assert vout + ([o] + r.value) == (vout + [o]) + r.value;
    }
  }
}
