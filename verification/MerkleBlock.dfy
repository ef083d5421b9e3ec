/**
 `CPartialMerkleTree` as the object it is: building appends to `vBits` and `vHash`,
 extracting threads counters through the traversal and sets `fBad`, and the wire form
 packs eight flag bits to a byte. Each method does what `PartialMerkleTree` says of the
 tree on values, where the results on building and extracting are proved: the traversal of
 the object is the encoding, and its extraction the walk over arbitrary content.
 */
module MerkleBlock {
  import opened Bits
  import opened Common
  import opened MerkleTree
  import opened PartialMerkleTree
  import opened Powers

  /** The flag bits that a byte string stands for. */
  function Unpacked(vBytes: seq<byte>): seq<bool> {
    seq(8 * |vBytes|, p requires 0 <= p < 8 * |vBytes| => Bit(vBytes[p / 8], p % 8))
  }

  class CPartialMerkleTree {
    const hash: NodeHash
    var nTransactions: nat
    var vBits: seq<bool>
    var vHash: seq<uint256>
    var fBad: bool

    constructor Empty(hash: NodeHash)
      ensures this.hash == hash && nTransactions == 0 && vBits == [] && vHash == [] && fBad
    {
      this.hash, nTransactions, vBits, vHash, fBad := hash, 0, [], [], true;
    }

    constructor (hash: NodeHash, vTxid: seq<uint256>, vMatch: seq<bool>)
      requires 0 < |vTxid| == |vMatch|
      ensures this.hash == hash && nTransactions == |vTxid| && !fBad
      ensures 0 < Width(|vTxid|, TreeHeight(|vTxid|))
      ensures Encoding(vBits, vHash) == Encode(hash, vTxid, vMatch, TreeHeight(|vTxid|), 0)
    {
      this.hash, nTransactions, fBad, vBits, vHash := hash, |vTxid|, false, [], [];
      new;
      var nHeight := CalcTreeHeight();
      WidthIsOneFromTheTop(nTransactions, nHeight);
      TraverseAndBuild(nHeight, 0, vTxid, vMatch);
    }

    method CalcTreeHeight() returns (nHeight: nat)
      ensures nHeight == TreeHeight(nTransactions)
    {
      nHeight := 0;
      WidthIsOneFromTheTop(nTransactions, 0);
      while Width(nTransactions, nHeight) > 1
        invariant nHeight <= TreeHeight(nTransactions)
        invariant Width(nTransactions, nHeight) <= 1 <==> nHeight >= TreeHeight(nTransactions)
        decreases TreeHeight(nTransactions) - nHeight
      {
        nHeight := nHeight + 1;
        WidthIsOneFromTheTop(nTransactions, nHeight);
      }
    }

    method TraverseAndBuild(height: nat, pos: nat, vTxid: seq<uint256>, vMatch: seq<bool>)
      requires nTransactions == |vTxid| == |vMatch| && pos < Width(nTransactions, height)
      modifies this`vBits, this`vHash
      ensures var e := Encode(hash, vTxid, vMatch, height, pos);
              vBits == old(vBits) + e.vBits && vHash == old(vHash) + e.vHash
      decreases height
    {
      hide Width, First, Last, AnyMatch, CalcHash, Encode;
      LeavesExist(nTransactions, height, pos);
      var fParentOfMatch := IsParentOfMatch(height, pos, vMatch);
      vBits := vBits + [fParentOfMatch];
      if height == 0 || !fParentOfMatch {
        vHash := vHash + [CalcHash(hash, vTxid, height, pos)];
        EncodeHash(hash, vTxid, vMatch, height, pos);
      } else {
        LeavesSplit(nTransactions, height, pos);
        TraverseAndBuild(height - 1, pos * 2, vTxid, vMatch);
        if pos * 2 + 1 < Width(nTransactions, height - 1) {
          TraverseAndBuild(height - 1, pos * 2 + 1, vTxid, vMatch);
          EncodeTwo(hash, vTxid, vMatch, height, pos);
        } else {
          EncodeOne(hash, vTxid, vMatch, height, pos);
        }
      }
    }

    /** The loop over the leaves of a node. */
    method IsParentOfMatch(height: nat, pos: nat, vMatch: seq<bool>) returns (fParentOfMatch: bool)
      requires nTransactions == |vMatch| && pos < Width(nTransactions, height)
      ensures Last(nTransactions, height, pos) <= nTransactions
      ensures fParentOfMatch == AnyMatch(vMatch, First(height, pos), Last(nTransactions, height, pos))
    {
      hide Width;
      LeavesExist(nTransactions, height, pos);
      fParentOfMatch := false;
      var p := pos * Pow(2, height);
      while p < (pos + 1) * Pow(2, height) && p < nTransactions
        invariant First(height, pos) <= p <= Last(nTransactions, height, pos)
        invariant fParentOfMatch == AnyMatch(vMatch, First(height, pos), p)
      {
        fParentOfMatch := fParentOfMatch || vMatch[p];
        p := p + 1;
      }
    }

    method TraverseAndExtract(height: nat, pos: nat, nBitsUsed: nat, nHashUsed: nat, vMatch: seq<uint256>)
      returns (value: uint256, nBitsUsed': nat, nHashUsed': nat, vMatch': seq<uint256>)
      modifies this`fBad
      ensures Node(value, Walk(nBitsUsed', nHashUsed', vMatch', fBad))
        == Extract(hash, nTransactions, vBits, vHash, height, pos, Walk(nBitsUsed, nHashUsed, vMatch, old(fBad)))
      decreases height
    {
      hide Width, Extract;
      ghost var w := Walk(nBitsUsed, nHashUsed, vMatch, fBad);
      nBitsUsed', nHashUsed', vMatch' := nBitsUsed, nHashUsed, vMatch;
      if nBitsUsed >= |vBits| || height == 0 || !vBits[nBitsUsed] {
        ExtractHash(hash, nTransactions, vBits, vHash, height, pos, w);
      } else if pos * 2 + 1 < Width(nTransactions, height - 1) {
        ExtractTwo(hash, nTransactions, vBits, vHash, height, pos, w);
      } else {
        ExtractOne(hash, nTransactions, vBits, vHash, height, pos, w);
      }
      if nBitsUsed' >= |vBits| {
        fBad := true;
        return 0, nBitsUsed', nHashUsed', vMatch';
      }
      var fParentOfMatch := vBits[nBitsUsed'];
      nBitsUsed' := nBitsUsed' + 1;
      if height == 0 || !fParentOfMatch {
        if nHashUsed' >= |vHash| {
          fBad := true;
          return 0, nBitsUsed', nHashUsed', vMatch';
        }
        value := vHash[nHashUsed'];
        nHashUsed' := nHashUsed' + 1;
        if height == 0 && fParentOfMatch {
          vMatch' := vMatch' + [value];
        }
      } else {
        var left, right;
        left, nBitsUsed', nHashUsed', vMatch' :=
          TraverseAndExtract(height - 1, pos * 2, nBitsUsed', nHashUsed', vMatch');
        if pos * 2 + 1 < Width(nTransactions, height - 1) {
          right, nBitsUsed', nHashUsed', vMatch' :=
            TraverseAndExtract(height - 1, pos * 2 + 1, nBitsUsed', nHashUsed', vMatch');
          if right == left {
            fBad := true;
          }
        } else {
          right := left;
        }
        value := hash(left, right);
      }
    }

    method ExtractMatches() returns (root: uint256, vMatch: seq<uint256>)
      modifies this`fBad
      ensures Extraction(root, vMatch, fBad) == ExtractAll(hash, nTransactions, vBits, vHash, old(fBad))
    {
      hide Extract;
      vMatch := [];
      if nTransactions == 0 {
        return 0, vMatch;
      }
      if nTransactions > MAX_BLOCK_SIZE / 60 {
        return 0, vMatch;
      }
      if |vHash| > nTransactions {
        return 0, vMatch;
      }
      if |vBits| < |vHash| {
        return 0, vMatch;
      }
      var nHeight := CalcTreeHeight();
      var hashMerkleRoot, nBitsUsed, nHashUsed;
      hashMerkleRoot, nBitsUsed, nHashUsed, vMatch := TraverseAndExtract(nHeight, 0, 0, 0, vMatch);
      if fBad {
        return 0, vMatch;
      }
      if (nBitsUsed + 7) / 8 != (|vBits| + 7) / 8 {
        return 0, vMatch;
      }
      if nHashUsed != |vHash| {
        return 0, vMatch;
      }
      root := hashMerkleRoot;
    }

    /** The writing half of the serialization of the flag bits. */
    method PackBits() returns (vBytes: seq<byte>)
      ensures |vBytes| == (|vBits| + 7) / 8
      ensures vBits <= Unpacked(vBytes)
      ensures forall p :: |vBits| <= p < |Unpacked(vBytes)| ==> !Unpacked(vBytes)[p]
    {
      vBytes := seq((|vBits| + 7) / 8, i => 0 as byte);
      forall p | 0 <= p < 8 * |vBytes| ensures !Bit(vBytes[p / 8], p % 8) {
        ZeroHasNoBits(p % 8);
      }
      for p := 0 to |vBits|
        invariant |vBytes| == (|vBits| + 7) / 8
        invariant forall q :: 0 <= q < 8 * |vBytes| ==> Bit(vBytes[q / 8], q % 8) == (q < p && vBits[q])
      {
        ghost var before := vBytes;
        if vBits[p] {
          vBytes := vBytes[p / 8 := vBytes[p / 8] | Mask(p % 8)];
        }
        forall q | 0 <= q < 8 * |vBytes| ensures Bit(vBytes[q / 8], q % 8) == (q < p + 1 && vBits[q]) {
          SetOneBit(before[p / 8], p % 8, q % 8);
        }
      }
    }

    /** The reading half: the object becomes what the message says. */
    method Receive(nTransactions: nat, vHash: seq<uint256>, vBytes: seq<byte>)
      modifies this
      ensures this.nTransactions == nTransactions && this.vHash == vHash && !fBad
      ensures this.vBits == Unpacked(vBytes)
    {
      this.nTransactions, this.vHash := nTransactions, vHash;
      var bits := seq(|vBytes| * 8, i => false);
      for p := 0 to |bits|
        invariant |bits| == |vBytes| * 8
        invariant forall q :: 0 <= q < p ==> bits[q] == Bit(vBytes[q / 8], q % 8)
      {
        bits := bits[p := vBytes[p / 8] & Mask(p % 8) != 0];
      }
      this.vBits := bits;
      this.fBad := false;
    }
  }

  /** A tree survives the wire: build, pack, unpack and extract give the root and the matches. */
  method Relay(hash: NodeHash, vTxid: seq<uint256>, vMatch: seq<bool>) returns (root: uint256, found: seq<uint256>)
    requires Injective(hash) && Distinct(vTxid) && 0 < |vTxid| == |vMatch| <= MAX_BLOCK_SIZE / 60
    ensures root == Root(hash, vTxid) && found == Chosen(vTxid, vMatch, 0, |vTxid|)
  {
    var sent := new CPartialMerkleTree(hash, vTxid, vMatch);
    var vBytes := sent.PackBits();
    var received := new CPartialMerkleTree.Empty(hash);
    received.Receive(sent.nTransactions, sent.vHash, vBytes);
    ExtractionIsComplete(hash, vTxid, vMatch, received.vBits);
    root, found := received.ExtractMatches();
  }

  /** No shift or sum of `CalcTreeWidth` leaves 32 bits, at any height the traversals visit. */
  lemma {:induction false} TreeWidthFitsWord(n: nat, height: nat)
    requires 0 < n <= 0x4000_0000 && height <= TreeHeight(n)
    ensures Pow(2, height) < 2 * n && n + Pow(2, height) - 1 < 0x1_0000_0000
  {
    if height > 0 {
      WidthIsOneFromTheTop(n, height - 1);
      PowPositive(2, height - 1);
      CeilDivBounds(n, Pow(2, height - 1));
      MulMonotone(Pow(2, height - 1), 2, Width(n, height - 1));
    }
  }
}
