/**
 `CPartialMerkleTree`: which tree nodes exist, the depth-first encoding of a set of
 matched transactions as flag bits and hashes, and its decoder.
 */
module PartialMerkleTree {
  import opened Common
  import opened MerkleTree
  import opened Powers

  // ------------------------------------------------------------ tree geometry

  /** `CalcTreeWidth`: the number of nodes at a height. */
  function Width(n: nat, height: nat): nat {
    PowPositive(2, height);
    CeilDiv(n, Pow(2, height))
  }

  lemma {:induction false} TwiceHalf(p: nat, w: nat)
    ensures (2 * p) * ((w + 1) / 2) == if w % 2 == 0 then p * w else p * w + p
  {
    var v := (w + 1) / 2;
    assert (2 * p) * v == p * (2 * v);
    if w % 2 != 0 {
      assert 2 * v == w + 1;
    }
  }

  lemma {:induction false} WidthUp(n: nat, height: nat)
    ensures Width(n, height + 1) == (Width(n, height) + 1) / 2
  {
    hide CeilDiv;
    var p, w := Pow(2, height), Width(n, height);
    PowPositive(2, height);
    CeilDivBounds(n, p);
    TwiceHalf(p, w);
    CeilDivUnique(n, 2 * p, (w + 1) / 2);
  }

  lemma {:induction false} WidthZero(n: nat)
    ensures Width(n, 0) == n
  {
    assert Pow(2, 0) == 1;
  }

  /** The height loop stops exactly at the height of the tree. */
  lemma {:induction false} WidthIsOneFromTheTop(n: nat, height: nat)
    ensures Width(n, height) <= 1 <==> height >= TreeHeight(n)
    ensures n > 0 ==> Width(n, height) > 0
    decreases height
  {
    WidthZero(n);
    if height > 0 {
      WidthUp(n, height - 1);
      WidthIsOneFromTheTop(n, height - 1);
      if height - 1 < TreeHeight(n) {
        TopOfHalf(n, height - 1);
      }
    }
  }

  /** Halving `height` times leaves the height of what is left. */
  lemma {:induction false} TopOfHalf(n: nat, height: nat)
    requires height <= TreeHeight(n)
    ensures TreeHeight(Width(n, height)) == TreeHeight(n) - height
  {
    WidthZero(n);
    if height > 0 {
      TopOfHalf(n, height - 1);
      WidthUp(n, height - 1);
    }
  }

  /** First leaf under a node, and the end of its leaves. */
  function First(height: nat, pos: nat): nat { pos * Pow(2, height) }

  function Last(n: nat, height: nat, pos: nat): nat { Min((pos + 1) * Pow(2, height), n) }

  lemma {:induction false} LeavesExist(n: nat, height: nat, pos: nat)
    requires pos < Width(n, height)
    ensures First(height, pos) < Last(n, height, pos) <= n
  {
    var p := Pow(2, height);
    PowPositive(2, height);
    CeilDivBounds(n, p);
    MulMonotone(p, pos + 1, Width(n, height));
    assert p * (pos + 1) == p * pos + p;
  }

  lemma {:induction false} LeafNode(n: nat, pos: nat)
    requires pos < Width(n, 0)
    ensures First(0, pos) == pos && Last(n, 0, pos) == pos + 1 <= n
  {
    WidthZero(n);
  }

  lemma {:induction false} LeavesEnd(n: nat, height: nat, pos: nat)
    requires pos < Width(n, height)
    ensures pos + 1 < Width(n, height) ==> Last(n, height, pos) == First(height, pos + 1)
    ensures pos + 1 == Width(n, height) ==> Last(n, height, pos) == n
  {
    var p := Pow(2, height);
    PowPositive(2, height);
    CeilDivBounds(n, p);
    if pos + 1 < Width(n, height) {
      MulMonotone(p, pos + 2, Width(n, height));
      assert p * (pos + 2) == p * (pos + 1) + p;
    }
  }

  lemma {:induction false} FirstOfChildren(height: nat, pos: nat)
    requires height > 0
    ensures First(height, pos) == First(height - 1, 2 * pos)
  {
    assert pos * (2 * Pow(2, height - 1)) == (2 * pos) * Pow(2, height - 1);
  }

  /** The leaves of a node are those of its left child followed by those of its right one, if it has one. */
  lemma {:induction false} LeavesSplit(n: nat, height: nat, pos: nat)
    requires height > 0 && pos < Width(n, height)
    ensures 2 * pos < Width(n, height - 1)
    ensures First(height, pos) == First(height - 1, 2 * pos) < Last(n, height - 1, 2 * pos) <= n
    ensures 2 * pos + 1 < Width(n, height - 1) ==>
      Last(n, height - 1, 2 * pos) == First(height - 1, 2 * pos + 1) < Last(n, height - 1, 2 * pos + 1) ==
        Last(n, height, pos) <= n
    ensures 2 * pos + 1 >= Width(n, height - 1) ==> Last(n, height - 1, 2 * pos) == Last(n, height, pos)
  {
    WidthUp(n, height - 1);
    hide Width, First, Last;
    FirstOfChildren(height, pos);
    LeavesExist(n, height - 1, 2 * pos);
    LeavesEnd(n, height - 1, 2 * pos);
    LeavesEnd(n, height, pos);
    if 2 * pos + 1 < Width(n, height - 1) {
      LeavesExist(n, height - 1, 2 * pos + 1);
      LeavesEnd(n, height - 1, 2 * pos + 1);
      FirstOfChildren(height, pos + 1);
    }
  }

  // -------------------------------------------------------------- node hashes

  /** `CalcHash`: the hash of a node, computed top down. */
  function CalcHash(hash: NodeHash, vTxid: seq<uint256>, height: nat, pos: nat): uint256
    requires pos < Width(|vTxid|, height)
    decreases height
  {
    if height == 0 then
      WidthZero(|vTxid|);
      vTxid[pos]
    else
      WidthUp(|vTxid|, height - 1);
      var left := CalcHash(hash, vTxid, height - 1, pos * 2);
      var right := if pos * 2 + 1 < Width(|vTxid|, height - 1) then CalcHash(hash, vTxid, height - 1, pos * 2 + 1)
        else left;
      hash(left, right)
  }

  lemma {:induction false} LevelWidth(hash: NodeHash, xs: seq<uint256>, height: nat)
    ensures |Level(hash, xs, height)| == Width(|xs|, height)
  {
    WidthZero(|xs|);
    if height > 0 {
      LevelWidth(hash, xs, height - 1);
      LevelUp(hash, xs, height - 1);
      WidthUp(|xs|, height - 1);
    }
  }

  /** The recursive and the level-by-level view agree on every node. */
  lemma {:induction false} CalcHashIsLevelNode(hash: NodeHash, xs: seq<uint256>, height: nat, pos: nat)
    requires pos < Width(|xs|, height)
    ensures pos < |Level(hash, xs, height)| && CalcHash(hash, xs, height, pos) == Level(hash, xs, height)[pos]
    decreases height
  {
    LevelWidth(hash, xs, height);
    if height > 0 {
      var below := Level(hash, xs, height - 1);
      LevelWidth(hash, xs, height - 1);
      LevelUp(hash, xs, height - 1);
      WidthUp(|xs|, height - 1);
      CalcHashIsLevelNode(hash, xs, height - 1, pos * 2);
      if pos * 2 + 1 < Width(|xs|, height - 1) {
        CalcHashIsLevelNode(hash, xs, height - 1, pos * 2 + 1);
      }
      assert Up(hash, below)[pos] == Parent(hash, below, pos);
    }
  }

  /** The top of the recursion is the Merkle root of the iterative builder. */
  lemma {:induction false} CalcHashAtTopIsRoot(hash: NodeHash, xs: seq<uint256>)
    requires |xs| > 0
    ensures 0 < Width(|xs|, TreeHeight(|xs|))
    ensures CalcHash(hash, xs, TreeHeight(|xs|), 0) == Root(hash, xs)
  {
    WidthIsOneFromTheTop(|xs|, TreeHeight(|xs|));
    CalcHashIsLevelNode(hash, xs, TreeHeight(|xs|), 0);
    TopLevelIsRoot(hash, xs);
  }

  lemma {:induction false} LevelsStayDistinct(hash: NodeHash, xs: seq<uint256>, height: nat)
    requires Injective(hash) && Distinct(xs)
    ensures Distinct(Level(hash, xs, height))
  {
    if height > 0 {
      LevelsStayDistinct(hash, xs, height - 1);
      LevelUp(hash, xs, height - 1);
      UpKeepsDistinct(hash, Level(hash, xs, height - 1));
    }
  }

  /** Real siblings never carry the same hash when the transactions are distinct. */
  lemma {:induction false} SiblingsDiffer(hash: NodeHash, xs: seq<uint256>, height: nat, pos: nat)
    requires Injective(hash) && Distinct(xs) && pos + 1 < Width(|xs|, height)
    ensures CalcHash(hash, xs, height, pos) != CalcHash(hash, xs, height, pos + 1)
  {
    LevelsStayDistinct(hash, xs, height);
    CalcHashIsLevelNode(hash, xs, height, pos);
    CalcHashIsLevelNode(hash, xs, height, pos + 1);
  }

  // ----------------------------------------------------------------- encoding

  /** Some transaction in [lo, hi) is matched. */
  ghost predicate AnyMatch(vMatch: seq<bool>, lo: nat, hi: nat)
    requires hi <= |vMatch|
  {
    exists p :: lo <= p < hi && vMatch[p]
  }

  datatype Encoding = Encoding(vBits: seq<bool>, vHash: seq<uint256>)

  /** What `TraverseAndBuild` appends for a node: its flag bit, then its hash or its children. */
  ghost function Encode(hash: NodeHash, vTxid: seq<uint256>, vMatch: seq<bool>, height: nat, pos: nat): Encoding
    requires |vMatch| == |vTxid| && pos < Width(|vTxid|, height)
    decreases height
  {
    var n := |vTxid|;
    LeavesExist(n, height, pos);
    var fParentOfMatch := AnyMatch(vMatch, First(height, pos), Last(n, height, pos));
    if height == 0 || !fParentOfMatch then
      Encoding([fParentOfMatch], [CalcHash(hash, vTxid, height, pos)])
    else
      LeavesSplit(n, height, pos);
      var left := Encode(hash, vTxid, vMatch, height - 1, pos * 2);
      if pos * 2 + 1 < Width(n, height - 1) then
        var right := Encode(hash, vTxid, vMatch, height - 1, pos * 2 + 1);
        Encoding([true] + left.vBits + right.vBits, left.vHash + right.vHash)
      else
        Encoding([true] + left.vBits, left.vHash)
  }

  // ----------------------------------------------------------------- decoding

  /** The counters and outputs that the decoder threads through the traversal. */
  datatype Walk = Walk(nBitsUsed: nat, nHashUsed: nat, vMatch: seq<uint256>, fBad: bool)

  datatype Node = Node(value: uint256, walk: Walk)

  /** The next stored hash, for a node that is not descended through. */
  function TakeHash(vHash: seq<uint256>, isMatch: bool, w: Walk): (r: Node)
    ensures w.fBad ==> r.walk.fBad
  {
    if w.nHashUsed >= |vHash| then
      Node(0, w.(fBad := true))
    else
      var value := vHash[w.nHashUsed];
      Node(value, w.(nHashUsed := w.nHashUsed + 1, vMatch := if isMatch then w.vMatch + [value] else w.vMatch))
  }

  function Extract(hash: NodeHash, n: nat, vBits: seq<bool>, vHash: seq<uint256>, height: nat, pos: nat,
          w: Walk): (r: Node)
    ensures w.fBad ==> r.walk.fBad
    decreases height
  {
    if w.nBitsUsed >= |vBits| then
      Node(0, w.(fBad := true))
    else
      var fParentOfMatch := vBits[w.nBitsUsed];
      var w1 := w.(nBitsUsed := w.nBitsUsed + 1);
      if height == 0 || !fParentOfMatch then
        TakeHash(vHash, height == 0 && fParentOfMatch, w1)
      else
        var left := Extract(hash, n, vBits, vHash, height - 1, pos * 2, w1);
        if pos * 2 + 1 < Width(n, height - 1) then
          var right := Extract(hash, n, vBits, vHash, height - 1, pos * 2 + 1, left.walk);
          Node(hash(left.value, right.value), right.walk.(fBad := right.walk.fBad || right.value == left.value))
        else
          Node(hash(left.value, left.value), left.walk)
  }

  /** The result of `ExtractMatches`: root 0 stands for failure; `fBad` stays behind in the object. */
  datatype Extraction = Extraction(root: uint256, vMatch: seq<uint256>, fBad: bool)

  function ExtractAll(hash: NodeHash, n: nat, vBits: seq<bool>, vHash: seq<uint256>, fBad: bool): Extraction {
    if n == 0 || n > MAX_BLOCK_SIZE / 60 || |vHash| > n || |vBits| < |vHash| then
      Extraction(0, [], fBad)
    else
      var r := Extract(hash, n, vBits, vHash, TreeHeight(n), 0, Walk(0, 0, [], fBad));
      var w := r.walk;
      Extraction(if w.fBad || (w.nBitsUsed + 7) / 8 != (|vBits| + 7) / 8 || w.nHashUsed != |vHash| then 0 else r.value,
                 w.vMatch, w.fBad)
  }

  // ------------------------------------------------------------- completeness

  /** The matched transactions with positions in [lo, hi), in order. */
  function Chosen(xs: seq<uint256>, vMatch: seq<bool>, lo: nat, hi: nat): seq<uint256>
    requires hi <= |vMatch| == |xs|
    decreases hi
  {
    if lo >= hi then [] else Chosen(xs, vMatch, lo, hi - 1) + if vMatch[hi - 1] then [xs[hi - 1]] else []
  }

  lemma {:induction false} ChosenSplit(xs: seq<uint256>, vMatch: seq<bool>, lo: nat, mid: nat, hi: nat)
    requires lo <= mid <= hi <= |vMatch| == |xs|
    ensures Chosen(xs, vMatch, lo, hi) == Chosen(xs, vMatch, lo, mid) + Chosen(xs, vMatch, mid, hi)
    decreases hi
  {
    if mid < hi {
      ChosenSplit(xs, vMatch, lo, mid, hi - 1);
    }
  }

  lemma {:induction false} ChosenIffAnyMatch(xs: seq<uint256>, vMatch: seq<bool>, lo: nat, hi: nat)
    requires hi <= |vMatch| == |xs|
    ensures Chosen(xs, vMatch, lo, hi) != [] <==> AnyMatch(vMatch, lo, hi)
    decreases hi
  {
    if lo < hi {
      ChosenIffAnyMatch(xs, vMatch, lo, hi - 1);
      if vMatch[hi - 1] {
        assert AnyMatch(vMatch, lo, hi);
      }
    }
  }

  /** `part` stands in `s` from index `i` on. */
  ghost predicate At<T(!new)>(s: seq<T>, i: nat, part: seq<T>) {
    i + |part| <= |s| && s[i..i + |part|] == part
  }

  lemma {:induction false} AtSplit<T(!new)>(s: seq<T>, i: nat, x: seq<T>, y: seq<T>)
    requires At(s, i, x + y)
    ensures At(s, i, x) && At(s, i + |x|, y)
  {
    assert s[i..i + |x|] == s[i..i + |x + y|][..|x|] == x;
    assert s[i + |x|..i + |x| + |y|] == s[i..i + |x + y|][|x|..] == y;
  }

  /** The walk after a node's encoding has been read back. */
  function WalkPast(w: Walk, e: Encoding, found: seq<uint256>): Walk {
    Walk(w.nBitsUsed + |e.vBits|, w.nHashUsed + |e.vHash|, w.vMatch + found, w.fBad)
  }

  lemma {:induction false} ExtractOfEncode(hash: NodeHash, xs: seq<uint256>, vMatch: seq<bool>, height: nat, pos: nat,
                                           vBits: seq<bool>, vHash: seq<uint256>, w: Walk)
    requires Injective(hash) && Distinct(xs) && |vMatch| == |xs| && pos < Width(|xs|, height)
    requires var e := Encode(hash, xs, vMatch, height, pos);
      At(vBits, w.nBitsUsed, e.vBits) && At(vHash, w.nHashUsed, e.vHash)
    ensures Last(|xs|, height, pos) <= |xs|
    ensures Extract(hash, |xs|, vBits, vHash, height, pos, w)
      == Node(CalcHash(hash, xs, height, pos),
              WalkPast(w, Encode(hash, xs, vMatch, height, pos),
                Chosen(xs, vMatch, First(height, pos), Last(|xs|, height, pos))))
    decreases height, 2
  {
    hide Width, First, Last, AnyMatch;
    var e := Encode(hash, xs, vMatch, height, pos);
    LeavesExist(|xs|, height, pos);
    ChosenIffAnyMatch(xs, vMatch, First(height, pos), Last(|xs|, height, pos));
    assert e.vBits[0] == vBits[w.nBitsUsed..w.nBitsUsed + |e.vBits|][0];
    if height > 0 && e.vBits[0] {
      ExtractOfEncodeBelow(hash, xs, vMatch, height, pos, vBits, vHash, w);
    } else {
      assert e.vHash[0] == vHash[w.nHashUsed..w.nHashUsed + |e.vHash|][0];
      if height == 0 {
        LeafNode(|xs|, pos);
      }
    }
  }

  lemma {:induction false} ExtractOfEncodeBelow(hash: NodeHash, xs: seq<uint256>, vMatch: seq<bool>, height: nat,
          pos: nat,
                                                vBits: seq<bool>, vHash: seq<uint256>, w: Walk)
    requires Injective(hash) && Distinct(xs) && |vMatch| == |xs| && pos < Width(|xs|, height)
    requires height > 0 && Last(|xs|, height, pos) <= |xs| &&
      AnyMatch(vMatch, First(height, pos), Last(|xs|, height, pos))
    requires var e := Encode(hash, xs, vMatch, height, pos);
      At(vBits, w.nBitsUsed, e.vBits) && At(vHash, w.nHashUsed, e.vHash)
    ensures Extract(hash, |xs|, vBits, vHash, height, pos, w)
      == Node(CalcHash(hash, xs, height, pos),
              WalkPast(w, Encode(hash, xs, vMatch, height, pos),
                Chosen(xs, vMatch, First(height, pos), Last(|xs|, height, pos))))
    decreases height, 1
  {
    hide Width, First, Last, AnyMatch, Chosen, At;
    LeavesSplit(|xs|, height, pos);
    if pos * 2 + 1 < Width(|xs|, height - 1) {
      ExtractOfTwo(hash, xs, vMatch, height, pos, vBits, vHash, w);
    } else {
      var left := Encode(hash, xs, vMatch, height - 1, pos * 2);
      AtSplit(vBits, w.nBitsUsed, [true], left.vBits);
      AtFirst(vBits, w.nBitsUsed, true);
      ExtractOfEncode(hash, xs, vMatch, height - 1, pos * 2, vBits, vHash, w.(nBitsUsed := w.nBitsUsed + 1));
    }
  }

  lemma {:induction false} ExtractOfTwo(hash: NodeHash, xs: seq<uint256>, vMatch: seq<bool>, height: nat, pos: nat,
                                        vBits: seq<bool>, vHash: seq<uint256>, w: Walk)
    requires Injective(hash) && Distinct(xs) && |vMatch| == |xs| && pos < Width(|xs|, height)
    requires height > 0 && Last(|xs|, height, pos) <= |xs| &&
      AnyMatch(vMatch, First(height, pos), Last(|xs|, height, pos))
    requires 2 * pos < pos * 2 + 1 < Width(|xs|, height - 1)
    requires var e := Encode(hash, xs, vMatch, height, pos);
      At(vBits, w.nBitsUsed, e.vBits) && At(vHash, w.nHashUsed, e.vHash)
    ensures Extract(hash, |xs|, vBits, vHash, height, pos, w)
      == Node(CalcHash(hash, xs, height, pos),
              WalkPast(w, Encode(hash, xs, vMatch, height, pos),
                Chosen(xs, vMatch, First(height, pos), Last(|xs|, height, pos))))
    decreases height, 0
  {
    hide Width, First, Last, AnyMatch, Chosen, At, Encode, Extract;
    var n, w1 := |xs|, w.(nBitsUsed := w.nBitsUsed + 1);
    LeavesSplit(n, height, pos);
    var lo, mid, hi := First(height, pos), Last(n, height - 1, pos * 2), Last(n, height, pos);
    var left, right := Encode(hash, xs, vMatch, height - 1, pos * 2), Encode(hash, xs, vMatch, height - 1, pos * 2 + 1);
    EncodeTwo(hash, xs, vMatch, height, pos);
    AtSplit(vBits, w.nBitsUsed, [true] + left.vBits, right.vBits);
    AtSplit(vBits, w.nBitsUsed, [true], left.vBits);
    AtFirst(vBits, w.nBitsUsed, true);
    AtSplit(vHash, w.nHashUsed, left.vHash, right.vHash);
    ExtractOfEncode(hash, xs, vMatch, height - 1, pos * 2, vBits, vHash, w1);
    var w2 := WalkPast(w1, left, Chosen(xs, vMatch, lo, mid));
    ExtractOfEncode(hash, xs, vMatch, height - 1, pos * 2 + 1, vBits, vHash, w2);
    SiblingsDiffer(hash, xs, height - 1, pos * 2);
    ExtractTwo(hash, n, vBits, vHash, height, pos, w);
    ChosenSplit(xs, vMatch, lo, mid, hi);
    assert (w.vMatch + Chosen(xs, vMatch, lo, mid)) + Chosen(xs, vMatch, mid, hi)
      == w.vMatch + (Chosen(xs, vMatch, lo, mid) + Chosen(xs, vMatch, mid, hi));
  }

  lemma {:induction false} EncodeTwo(hash: NodeHash, xs: seq<uint256>, vMatch: seq<bool>, height: nat, pos: nat)
    requires |vMatch| == |xs| && height > 0 && pos < Width(|xs|, height) && Last(|xs|, height, pos) <= |xs|
    requires AnyMatch(vMatch, First(height, pos), Last(|xs|, height, pos))
    requires pos * 2 < pos * 2 + 1 < Width(|xs|, height - 1)
    ensures var left, right := Encode(hash, xs, vMatch, height - 1, pos * 2),
      Encode(hash, xs, vMatch, height - 1, pos * 2 + 1);
            Encode(hash, xs, vMatch, height, pos) ==
              Encoding([true] + left.vBits + right.vBits, left.vHash + right.vHash)
  {
  }

  lemma {:induction false} EncodeOne(hash: NodeHash, xs: seq<uint256>, vMatch: seq<bool>, height: nat, pos: nat)
    requires |vMatch| == |xs| && height > 0 && pos < Width(|xs|, height) && Last(|xs|, height, pos) <= |xs|
    requires AnyMatch(vMatch, First(height, pos), Last(|xs|, height, pos))
    requires pos * 2 < Width(|xs|, height - 1) <= pos * 2 + 1
    ensures var left := Encode(hash, xs, vMatch, height - 1, pos * 2);
            Encode(hash, xs, vMatch, height, pos) == Encoding([true] + left.vBits, left.vHash)
  {
  }

  lemma {:induction false} EncodeHash(hash: NodeHash, xs: seq<uint256>, vMatch: seq<bool>, height: nat, pos: nat)
    requires |vMatch| == |xs| && pos < Width(|xs|, height) && Last(|xs|, height, pos) <= |xs|
    requires height == 0 || !AnyMatch(vMatch, First(height, pos), Last(|xs|, height, pos))
    ensures Encode(hash, xs, vMatch, height, pos) ==
      Encoding([AnyMatch(vMatch, First(height, pos), Last(|xs|, height, pos))], [CalcHash(hash, xs, height, pos)])
  {
  }

  lemma {:induction false} ExtractTwo(hash: NodeHash, n: nat, vBits: seq<bool>, vHash: seq<uint256>, height: nat,
          pos: nat, w: Walk)
    requires height > 0 && w.nBitsUsed < |vBits| && vBits[w.nBitsUsed] && pos * 2 + 1 < Width(n, height - 1)
    ensures var left := Extract(hash, n, vBits, vHash, height - 1, pos * 2, w.(nBitsUsed := w.nBitsUsed + 1));
            var right := Extract(hash, n, vBits, vHash, height - 1, pos * 2 + 1, left.walk);
            Extract(hash, n, vBits, vHash, height, pos, w)
              == Node(hash(left.value, right.value), right.walk.(fBad := right.walk.fBad || right.value == left.value))
  {
  }

  lemma {:induction false} ExtractOne(hash: NodeHash, n: nat, vBits: seq<bool>, vHash: seq<uint256>, height: nat,
          pos: nat, w: Walk)
    requires height > 0 && w.nBitsUsed < |vBits| && vBits[w.nBitsUsed] && pos * 2 + 1 >= Width(n, height - 1)
    ensures var left := Extract(hash, n, vBits, vHash, height - 1, pos * 2, w.(nBitsUsed := w.nBitsUsed + 1));
            Extract(hash, n, vBits, vHash, height, pos, w) == Node(hash(left.value, left.value), left.walk)
  {
  }

  lemma {:induction false} ExtractHash(hash: NodeHash, n: nat, vBits: seq<bool>, vHash: seq<uint256>, height: nat,
          pos: nat, w: Walk)
    requires w.nBitsUsed >= |vBits| || height == 0 || !vBits[w.nBitsUsed]
    ensures Extract(hash, n, vBits, vHash, height, pos, w) ==
      if w.nBitsUsed >= |vBits| then Node(0, w.(fBad := true))
      else TakeHash(vHash, height == 0 && vBits[w.nBitsUsed], w.(nBitsUsed := w.nBitsUsed + 1))
  {
  }

  lemma {:induction false} AtFirst<T(!new)>(s: seq<T>, i: nat, x: T)
    requires At(s, i, [x])
    ensures i < |s| && s[i] == x
  {
    assert s[i] == s[i..i + 1][0];
  }

  /** Bits padded to whole bytes, as a serialized tree carries them. */
  ghost predicate PaddedTo(e: Encoding, vBits: seq<bool>) {
    e.vBits <= vBits && (|e.vBits| + 7) / 8 == (|vBits| + 7) / 8
  }

  /** Decoding what was encoded gives the full Merkle root and exactly the matched transactions, in order. */
  lemma {:induction false} ExtractionIsComplete(hash: NodeHash, xs: seq<uint256>, vMatch: seq<bool>, vBits: seq<bool>)
    requires Injective(hash) && Distinct(xs) && 0 < |xs| == |vMatch| <= MAX_BLOCK_SIZE / 60
    requires 0 < Width(|xs|, TreeHeight(|xs|))
    requires PaddedTo(Encode(hash, xs, vMatch, TreeHeight(|xs|), 0), vBits)
    ensures ExtractAll(hash, |xs|, vBits, Encode(hash, xs, vMatch, TreeHeight(|xs|), 0).vHash, false)
      == Extraction(Root(hash, xs), Chosen(xs, vMatch, 0, |xs|), false)
  {
    var n, h := |xs|, TreeHeight(|xs|);
    var e := Encode(hash, xs, vMatch, h, 0);
    WidthIsOneFromTheTop(n, h);
    LeavesEnd(n, h, 0);
    EncodingIsSmall(hash, xs, vMatch, h, 0);
    CalcHashAtTopIsRoot(hash, xs);
    ExtractOfEncode(hash, xs, vMatch, h, 0, vBits, e.vHash, Walk(0, 0, [], false));
    assert [] + Chosen(xs, vMatch, 0, n) == Chosen(xs, vMatch, 0, n);
  }

  // --------------------------------------------------------------------- size

  /**
   The size guarantees: hashes at most one per transaction below the node and at most
   1 + matched * height; bits at least one per hash, and at most two per hash but one, plus
   one for each single-child node, which only the last node of a level can be.
   */
  lemma {:induction false} EncodingIsSmall(hash: NodeHash, xs: seq<uint256>, vMatch: seq<bool>, height: nat, pos: nat)
    requires |vMatch| == |xs| && pos < Width(|xs|, height)
    ensures First(height, pos) < Last(|xs|, height, pos) <= |xs|
    ensures var e := Encode(hash, xs, vMatch, height, pos);
            && 1 <= |e.vHash| <= |e.vBits|
            && |e.vHash| <= Last(|xs|, height, pos) - First(height, pos)
            && |e.vHash| <= 1 + |Chosen(xs, vMatch, First(height, pos), Last(|xs|, height, pos))| * height
            && |e.vBits| <= 2 * |e.vHash| - 1 + (if pos + 1 == Width(|xs|, height) then height else 0)
  {
    hide Width, First, Last, Encode, Chosen, Singles, OddTails;
    HashesAreFew(hash, xs, vMatch, height, pos);
    BitsCountNodes(hash, xs, vMatch, height, pos);
    SinglesAreTails(vMatch, height, pos);
    OddTailsAtMost(vMatch, height);
  }

  lemma {:induction false} HashesAreFew(hash: NodeHash, xs: seq<uint256>, vMatch: seq<bool>, height: nat, pos: nat)
    requires |vMatch| == |xs| && pos < Width(|xs|, height)
    ensures First(height, pos) < Last(|xs|, height, pos) <= |xs|
    ensures var e := Encode(hash, xs, vMatch, height, pos);
            && 1 <= |e.vHash| <= Last(|xs|, height, pos) - First(height, pos)
            && |e.vHash| <= 1 + |Chosen(xs, vMatch, First(height, pos), Last(|xs|, height, pos))| * height
    decreases height
  {
    hide Width, First, Last, AnyMatch, Chosen;
    LeavesExist(|xs|, height, pos);
    ChosenIffAnyMatch(xs, vMatch, First(height, pos), Last(|xs|, height, pos));
    if height > 0 && AnyMatch(vMatch, First(height, pos), Last(|xs|, height, pos)) {
      LeavesSplit(|xs|, height, pos);
      WidthUp(|xs|, height - 1);
      var lo, mid, hi := First(height, pos), Last(|xs|, height - 1, pos * 2), Last(|xs|, height, pos);
      HashesAreFew(hash, xs, vMatch, height - 1, pos * 2);
      var k1 := |Chosen(xs, vMatch, lo, mid)|;
      if pos * 2 + 1 < Width(|xs|, height - 1) {
        HashesAreFew(hash, xs, vMatch, height - 1, pos * 2 + 1);
        EncodeTwo(hash, xs, vMatch, height, pos);
        ChosenSplit(xs, vMatch, lo, mid, hi);
        MatchBound(hash, xs, vMatch, height - 1, pos * 2);
        MatchBound(hash, xs, vMatch, height - 1, pos * 2 + 1);
        SumOfBounds(k1, |Chosen(xs, vMatch, mid, hi)|, height);
      } else {
        SumOfBounds(k1, 0, height);
      }
    }
  }

  /** An unmatched node is a single hash. */
  lemma {:induction false} MatchBound(hash: NodeHash, xs: seq<uint256>, vMatch: seq<bool>, height: nat, pos: nat)
    requires |vMatch| == |xs| && pos < Width(|xs|, height) && Last(|xs|, height, pos) <= |xs|
    ensures Chosen(xs, vMatch, First(height, pos), Last(|xs|, height, pos)) == []
      ==> |Encode(hash, xs, vMatch, height, pos).vHash| == 1
  {
    ChosenIffAnyMatch(xs, vMatch, First(height, pos), Last(|xs|, height, pos));
  }

  lemma {:induction false} SumOfBounds(k1: nat, k2: nat, height: nat)
    requires height > 0 && k1 + k2 > 0
    ensures k1 > 0 && k2 > 0 ==> (1 + k1 * (height - 1)) + (1 + k2 * (height - 1)) <= 1 + (k1 + k2) * height
    ensures k2 == 0 ==> 2 + k1 * (height - 1) <= 1 + (k1 + k2) * height
    ensures k1 == 0 ==> 2 + k2 * (height - 1) <= 1 + (k1 + k2) * height
  {
    assert (k1 + k2) * height == k1 * (height - 1) + k2 * (height - 1) + k1 + k2;
  }

  // Flag bits, exactly.

  /** The single-child nodes that the encoding of a node descends through. */
  ghost function Singles(vMatch: seq<bool>, height: nat, pos: nat): nat
    requires pos < Width(|vMatch|, height)
    decreases height
  {
    var n := |vMatch|;
    LeavesExist(n, height, pos);
    if height == 0 || !AnyMatch(vMatch, First(height, pos), Last(n, height, pos)) then 0 else
    LeavesSplit(n, height, pos);
    var left := Singles(vMatch, height - 1, pos * 2);
    if pos * 2 + 1 < Width(n, height - 1) then left + Singles(vMatch, height - 1, pos * 2 + 1) else left + 1
  }

  /** One flag bit less than twice the hashes, and one more for each single-child node. */
  lemma {:induction false} BitsCountNodes(hash: NodeHash, xs: seq<uint256>, vMatch: seq<bool>, height: nat, pos: nat)
    requires |vMatch| == |xs| && pos < Width(|xs|, height)
    ensures var e := Encode(hash, xs, vMatch, height, pos);
            |e.vBits| == 2 * |e.vHash| - 1 + Singles(vMatch, height, pos)
    decreases height
  {
    hide Width, First, Last, AnyMatch, CalcHash;
    LeavesExist(|xs|, height, pos);
    if height > 0 && AnyMatch(vMatch, First(height, pos), Last(|xs|, height, pos)) {
      LeavesSplit(|xs|, height, pos);
      BitsCountNodes(hash, xs, vMatch, height - 1, pos * 2);
      if pos * 2 + 1 < Width(|xs|, height - 1) {
        BitsCountNodes(hash, xs, vMatch, height - 1, pos * 2 + 1);
      }
    }
  }

  /** Something is matched below the last node of a height. */
  ghost predicate TailMatched(vMatch: seq<bool>, height: nat) {
    vMatch != [] && (WidthIsOneFromTheTop(|vMatch|, height);
                     AnyMatch(vMatch, First(height, Width(|vMatch|, height) - 1), |vMatch|))
  }

  /** The last node of a height has a single child and something is matched below it. */
  ghost predicate OddTail(vMatch: seq<bool>, height: nat)
    requires height > 0
  {
    Width(|vMatch|, height - 1) % 2 == 1 && TailMatched(vMatch, height)
  }

  ghost function OddTails(vMatch: seq<bool>, height: nat): nat {
    if height == 0 then 0 else OddTails(vMatch, height - 1) + if OddTail(vMatch, height) then 1 else 0
  }

  /** The last node of a level lies below the last node of the next one. */
  lemma {:induction false} TailsAreNested(vMatch: seq<bool>, height: nat)
    requires height > 0 && TailMatched(vMatch, height - 1)
    ensures TailMatched(vMatch, height)
  {
    var n := |vMatch|;
    WidthIsOneFromTheTop(n, height);
    WidthIsOneFromTheTop(n, height - 1);
    var last := Width(n, height) - 1;
    LeavesSplit(n, height, last);
    LeavesEnd(n, height, last);
    LeavesExist(n, height - 1, Width(n, height - 1) - 1);
    WidthUp(n, height - 1);
    FirstIsMonotone(height - 1, 2 * last, Width(n, height - 1) - 1);
    var p :| First(height - 1, Width(n, height - 1) - 1) <= p < n && vMatch[p];
    assert AnyMatch(vMatch, First(height, last), n);
  }

  lemma {:induction false} FirstIsMonotone(height: nat, pos: nat, pos': nat)
    requires pos <= pos'
    ensures First(height, pos) <= First(height, pos')
  {
    MulMonotone(Pow(2, height), pos, pos');
  }

  lemma {:induction false} NoTailNoOddTails(vMatch: seq<bool>, height: nat)
    requires !TailMatched(vMatch, height)
    ensures OddTails(vMatch, height) == 0
  {
    hide TailMatched, Width;
    if height > 0 {
      if TailMatched(vMatch, height - 1) {
        TailsAreNested(vMatch, height);
      }
      NoTailNoOddTails(vMatch, height - 1);
    }
  }

  /** Only the last node of a level can have a single child. */
  lemma {:induction false} SinglesAreTails(vMatch: seq<bool>, height: nat, pos: nat)
    requires pos < Width(|vMatch|, height)
    ensures Singles(vMatch, height, pos) == if pos + 1 == Width(|vMatch|, height) then OddTails(vMatch, height) else 0
    decreases height
  {
    hide Width, First, Last, AnyMatch, TailMatched;
    var n := |vMatch|;
    LeavesExist(n, height, pos);
    if height > 0 {
      TailOfLast(vMatch, height, pos);
      LeavesSplit(n, height, pos);
      WidthUp(n, height - 1);
      if AnyMatch(vMatch, First(height, pos), Last(n, height, pos)) {
        SinglesAreTails(vMatch, height - 1, pos * 2);
        if pos * 2 + 1 < Width(n, height - 1) {
          SinglesAreTails(vMatch, height - 1, pos * 2 + 1);
        }
      } else if pos + 1 == Width(n, height) {
        NoTailNoOddTails(vMatch, height);
      }
    }
  }

  lemma {:induction false} TailOfLast(vMatch: seq<bool>, height: nat, pos: nat)
    requires pos < Width(|vMatch|, height)
    ensures Last(|vMatch|, height, pos) <= |vMatch|
    ensures pos + 1 == Width(|vMatch|, height) ==>
      (TailMatched(vMatch, height) <==> AnyMatch(vMatch, First(height, pos), Last(|vMatch|, height, pos)))
  {
    hide AnyMatch;
    LeavesExist(|vMatch|, height, pos);
    LeavesEnd(|vMatch|, height, pos);
  }

  lemma {:induction false} NoOddTailsIff(vMatch: seq<bool>, height: nat)
    ensures OddTails(vMatch, height) == 0 <==> forall h :: 1 <= h <= height ==> !OddTail(vMatch, h)
  {
    hide OddTail;
    if height > 0 {
      NoOddTailsIff(vMatch, height - 1);
    }
  }

  /** If the last node of a height has a single child, nothing is matched from its first leaf on. */
  ghost predicate TailIsUnmatched(vMatch: seq<bool>, height: nat)
    requires height > 0
  {
    var n := |vMatch|;
    var last := if Width(n, height) > 0 then Width(n, height) - 1 else 0;
    Width(n, height - 1) % 2 == 1 ==> forall p :: First(height, last) <= p < n ==> !vMatch[p]
  }

  /**
   The bound of 2N - 1 flag bits in the class comment, exactly: it holds if and only if, wherever
   the last node of a level has a single child, nothing is matched from its first leaf on.
   */
  lemma {:induction false} FlagBitsAsRemarkedIff(hash: NodeHash, xs: seq<uint256>, vMatch: seq<bool>)
    requires 0 < |xs| == |vMatch| && 0 < Width(|xs|, TreeHeight(|xs|))
    ensures var n, top := |xs|, TreeHeight(|xs|);
            var e := Encode(hash, xs, vMatch, top, 0);
            && |e.vBits| == 2 * |e.vHash| - 1 + OddTails(vMatch, top)
            && (|e.vBits| <= 2 * |e.vHash| - 1 <==> forall h :: 1 <= h <= top ==> TailIsUnmatched(vMatch, h))
  {
    hide Width, First, Last, Encode, Singles, OddTails, OddTail, TailIsUnmatched;
    var n, top := |xs|, TreeHeight(|xs|);
    WidthIsOneFromTheTop(n, top);
    BitsCountNodes(hash, xs, vMatch, top, 0);
    SinglesAreTails(vMatch, top, 0);
    NoOddTailsIff(vMatch, top);
    forall h | 1 <= h <= top ensures OddTail(vMatch, h) <==> !TailIsUnmatched(vMatch, h) {
      OddTailIff(vMatch, h);
    }
  }

  lemma {:induction false} OddTailIff(vMatch: seq<bool>, height: nat)
    requires height > 0 && vMatch != []
    ensures OddTail(vMatch, height) <==> !TailIsUnmatched(vMatch, height)
  {
    hide Width, First;
    WidthIsOneFromTheTop(|vMatch|, height);
  }

  /** A case where it does not hold: three transactions, the last one matched. */
  lemma {:induction false} MoreFlagBitsThanRemarked(hash: NodeHash, a: uint256, b: uint256, c: uint256)
    ensures 0 < Width(3, 2)
    ensures var e := Encode(hash, [a, b, c], [false, false, true], 2, 0); |e.vHash| == 2 && |e.vBits| == 4
  {
    var xs, m := [a, b, c], [false, false, true];
    assert Pow(2, 2) == 4 && Pow(2, 1) == 2 && Pow(2, 0) == 1;
    assert AnyMatch(m, 0, 3) && AnyMatch(m, 2, 3) && !AnyMatch(m, 0, 2) by { assert m[2]; }
    assert Encode(hash, xs, m, 0, 2).vBits == [true];
    assert |Encode(hash, xs, m, 1, 1).vBits| == 2;
    assert |Encode(hash, xs, m, 1, 0).vBits| == 1;
  }

  // Serialized size, exactly.

  /** The bytes that a length takes in front of its vector. */
  function CompactSize(n: nat): nat {
    if n < 253 then 1 else if n <= 0xFFFF then 3 else if n <= 0xFFFF_FFFF then 5 else 9
  }

  function FlagBytes(e: Encoding): nat { (|e.vBits| + 7) / 8 }

  /** Four bytes for the number of transactions, the hashes, the flag bytes, and the two lengths. */
  function SerializedSize(e: Encoding): nat {
    4 + CompactSize(|e.vHash|) + 32 * |e.vHash| + CompactSize(FlagBytes(e)) + FlagBytes(e)
  }

  /** A count that fits its four bytes. */
  lemma {:induction false} TallestTree(n: nat)
    requires 0 < n <= 0xFFFF_FFFF
    ensures TreeHeight(n) <= 32
  {
    assert Pow(2, 4) == 16;
    PowAdd(2, 4, 4);
    PowAdd(2, 8, 8);
    PowAdd(2, 16, 16);
    assert Width(n, 32) == 1;
    WidthIsOneFromTheTop(n, 32);
  }

  lemma {:induction false} OddTailsAtMost(vMatch: seq<bool>, height: nat)
    ensures OddTails(vMatch, height) <= height
  {
    hide OddTail;
    if height > 0 {
      OddTailsAtMost(vMatch, height - 1);
    }
  }

  /** The nodes with two children that the encoding of a node descends through. */
  ghost function Pairs(vMatch: seq<bool>, height: nat, pos: nat): nat
    requires pos < Width(|vMatch|, height)
    decreases height
  {
    var n := |vMatch|;
    LeavesExist(n, height, pos);
    if height == 0 || !AnyMatch(vMatch, First(height, pos), Last(n, height, pos)) then 0 else
    LeavesSplit(n, height, pos);
    var left := Pairs(vMatch, height - 1, pos * 2);
    if pos * 2 + 1 < Width(n, height - 1) then left + Pairs(vMatch, height - 1, pos * 2 + 1) + 1 else left
  }

  /** One hash, and one more for each of them: what is stored depends on the matches alone. */
  lemma {:induction false} HashesCountPairs(hash: NodeHash, xs: seq<uint256>, vMatch: seq<bool>, height: nat, pos: nat)
    requires |vMatch| == |xs| && pos < Width(|xs|, height)
    ensures |Encode(hash, xs, vMatch, height, pos).vHash| == 1 + Pairs(vMatch, height, pos)
    decreases height
  {
    hide Width, First, Last, AnyMatch, CalcHash;
    LeavesExist(|xs|, height, pos);
    if height > 0 && AnyMatch(vMatch, First(height, pos), Last(|xs|, height, pos)) {
      LeavesSplit(|xs|, height, pos);
      HashesCountPairs(hash, xs, vMatch, height - 1, pos * 2);
      if pos * 2 + 1 < Width(|xs|, height - 1) {
        HashesCountPairs(hash, xs, vMatch, height - 1, pos * 2 + 1);
      }
    }
  }

  /**
   The guarantee of 10 + ceil(32.25 * N) bytes in the class comment, exactly, for every count that fits its
   field and in terms of the matches: it holds for fewer than 253 hashes; for up to 65535 if the single-child
   nodes cost no byte, or at most two while the flag bytes have a short length; and for more it never holds.
   */
  lemma {:induction false} SizeAsRemarkedIff(hash: NodeHash, xs: seq<uint256>, vMatch: seq<bool>)
    requires 0 < |xs| == |vMatch| <= 0xFFFF_FFFF && 0 < Width(|xs|, TreeHeight(|xs|))
    ensures var e := Encode(hash, xs, vMatch, TreeHeight(|xs|), 0);
            var hashes, singles := 1 + Pairs(vMatch, TreeHeight(|xs|), 0), OddTails(vMatch, TreeHeight(|xs|));
            var bytes := (2 * hashes - 1 + singles + 7) / 8;
            && |e.vHash| == hashes
            && (SerializedSize(e) <= 10 + CeilDiv(129 * hashes, 4) <==>
                hashes < 253 || (hashes <= 0xFFFF && bytes <= CeilDiv(hashes, 4) + if bytes < 253 then 2 else 0))
  {
    hide Width, First, Last, Encode, OddTails, Pairs, Singles, SerializedSize, FlagBytes, CeilDiv;
    var n, top := |xs|, TreeHeight(|xs|);
    TallestTree(n);
    OddTailsAtMost(vMatch, top);
    HashesCountPairs(hash, xs, vMatch, top, 0);
    BitsCountNodes(hash, xs, vMatch, top, 0);
    WidthIsOneFromTheTop(n, top);
    SinglesAreTails(vMatch, top, 0);
    SizeIff(Encode(hash, xs, vMatch, top, 0), OddTails(vMatch, top));
  }

  lemma {:induction false} SizeIff(e: Encoding, singles: nat)
    requires e.vHash != [] && |e.vBits| == 2 * |e.vHash| - 1 + singles && singles <= 32
    ensures var hashes, bytes := |e.vHash|, (2 * |e.vHash| - 1 + singles + 7) / 8;
            SerializedSize(e) <= 10 + CeilDiv(129 * hashes, 4) <==>
            hashes < 253 || (hashes <= 0xFFFF && bytes <= CeilDiv(hashes, 4) + if bytes < 253 then 2 else 0)
  {
    var hashes := |e.vHash|;
    assert CeilDiv(129 * hashes, 4) == 32 * hashes + CeilDiv(hashes, 4);
  }

  /** With everything matched, every transaction's own hash is stored. */
  lemma {:induction false} AllMatchedAllStored(hash: NodeHash, xs: seq<uint256>, vMatch: seq<bool>, height: nat,
      pos: nat)
    requires |vMatch| == |xs| && pos < Width(|xs|, height) && forall p :: 0 <= p < |vMatch| ==> vMatch[p]
    ensures |Encode(hash, xs, vMatch, height, pos).vHash| == Last(|xs|, height, pos) - First(height, pos)
    decreases height
  {
    hide Width, First, Last, CalcHash;
    LeavesExist(|xs|, height, pos);
    assert vMatch[First(height, pos)];
    if height == 0 {
      LeafNode(|xs|, pos);
    } else {
      LeavesSplit(|xs|, height, pos);
      AllMatchedAllStored(hash, xs, vMatch, height - 1, pos * 2);
      if pos * 2 + 1 < Width(|xs|, height - 1) {
        AllMatchedAllStored(hash, xs, vMatch, height - 1, pos * 2 + 1);
      }
    }
  }

  lemma {:induction false} AllMatchedOddTail(vMatch: seq<bool>, height: nat)
    requires height > 0 && vMatch != [] && forall p :: 0 <= p < |vMatch| ==> vMatch[p]
    ensures OddTails(vMatch, height) == OddTails(vMatch, height - 1) + Width(|vMatch|, height - 1) % 2
  {
    hide Width, First, Last, OddTails;
    WidthIsOneFromTheTop(|vMatch|, height);
    var last := Width(|vMatch|, height) - 1;
    LeavesExist(|vMatch|, height, last);
    assert vMatch[First(height, last)];
    assert OddTails(vMatch, height) == OddTails(vMatch, height - 1) + if OddTail(vMatch, height) then 1 else 0 by {
      OddTailsUp(vMatch, height);
    }
  }

  lemma {:induction false} OddTailsUp(vMatch: seq<bool>, height: nat)
    requires height > 0
    ensures OddTails(vMatch, height) == OddTails(vMatch, height - 1) + if OddTail(vMatch, height) then 1 else 0
  {
  }

  /** A case where the size guarantee fails by a byte: a block of 1028 transactions, all matched. */
  lemma {:induction false} LargerThanRemarked(hash: NodeHash, xs: seq<uint256>)
    requires |xs| == 1028
    ensures 0 < Width(1028, TreeHeight(1028))
    ensures var e := Encode(hash, xs, seq(1028, i => true), TreeHeight(1028), 0);
            |e.vHash| == 1028 && SerializedSize(e) == 11 + CeilDiv(129 * 1028, 4)
  {
    hide Width, Last, Encode, OddTails, TreeHeight, OddTail;
    var m := seq(1028, i => true);
    WidthIsOneFromTheTop(1028, TreeHeight(1028));
    HeightOf1028(m);
    FlagBitsAsRemarkedIff(hash, xs, m);
    AllMatchedAllStored(hash, xs, m, 11, 0);
    LeavesEnd(1028, 11, 0);
    assert First(11, 0) == 0;
  }

  lemma {:induction false} HeightOf1028(m: seq<bool>)
    requires |m| == 1028 && forall p :: 0 <= p < |m| ==> m[p]
    ensures TreeHeight(1028) == 11 && Width(1028, 11) == 1 && OddTails(m, 11) == 8
  {
    hide Width, OddTails, TreeHeight;
    WidthZero(1028);
    assert OddTails(m, 0) == 0 by {
      NoOddTailsIff(m, 0);
    }
    var h := 0;
    while h < 11
      invariant 0 <= h <= 11
      invariant Width(1028, h) == [1028, 514, 257, 129, 65, 33, 17, 9, 5, 3, 2, 1][h]
      invariant h == 11 ==> Width(1028, 10) == 2
      invariant OddTails(m, h) == [0, 0, 0, 1, 2, 3, 4, 5, 6, 7, 8, 8][h]
    {
      WidthUp(1028, h);
      AllMatchedOddTail(m, h + 1);
      h := h + 1;
    }
    WidthIsOneFromTheTop(1028, 11);
    WidthIsOneFromTheTop(1028, 10);
  }
}
