/**
 What a partial Merkle tree proves: extraction accepts exactly the bits and hashes that spell
 out a part of the tree, down to the last hash.
 */
module PartialMerkleProof {
  import opened Common
  import opened MerkleTree
  import opened Powers
  import opened PartialMerkleTree

  /** A part of a tree: a node given by its hash, or one whose only child or two children are spelled out. */
  datatype Part = Hashed(isMatch: bool) | Single(below: Part) | Pair(left: Part, right: Part)

  /** Only a leaf can be matched, and a node has the children that the width of the level below gives it. */
  predicate Fits(s: Part, n: nat, height: nat, pos: nat) {
    match s
    case Hashed(isMatch) => isMatch ==> height == 0
    case Single(below) => height > 0 && pos * 2 + 1 >= Width(n, height - 1) && Fits(below, n, height - 1, pos * 2)
    case Pair(left, right) =>
      && height > 0 && pos * 2 + 1 < Width(n, height - 1)
      && Fits(left, n, height - 1, pos * 2) && Fits(right, n, height - 1, pos * 2 + 1)
  }

  /** One flag for each node, depth first. */
  function Flags(s: Part): seq<bool> {
    match s
    case Hashed(isMatch) => [isMatch]
    case Single(below) => [true] + Flags(below)
    case Pair(left, right) => [true] + Flags(left) + Flags(right)
  }

  /** The nodes of the tree that are given by their hashes, as heights and positions. */
  function Nodes(s: Part, height: nat, pos: nat): seq<(nat, nat)> {
    match s
    case Hashed(_) => [(height, pos)]
    case Single(below) => if height == 0 then [] else Nodes(below, height - 1, pos * 2)
    case Pair(left, right) =>
      if height == 0 then [] else Nodes(left, height - 1, pos * 2) + Nodes(right, height - 1, pos * 2 + 1)
  }

  /** The positions of the matched leaves. */
  function Matched(s: Part, height: nat, pos: nat): seq<nat> {
    match s
    case Hashed(isMatch) => if isMatch then [pos] else []
    case Single(below) => if height == 0 then [] else Matched(below, height - 1, pos * 2)
    case Pair(left, right) =>
      if height == 0 then [] else Matched(left, height - 1, pos * 2) + Matched(right, height - 1, pos * 2 + 1)
  }

  /** No node that is spelled out has two equal children. */
  ghost predicate NoTwins(hash: NodeHash, xs: seq<uint256>, s: Part, height: nat, pos: nat)
    requires pos < Width(|xs|, height) && Fits(s, |xs|, height, pos)
  {
    match s
    case Hashed(_) => true
    case Single(below) =>
      LeavesSplit(|xs|, height, pos);
      NoTwins(hash, xs, below, height - 1, pos * 2)
    case Pair(left, right) =>
      && CalcHash(hash, xs, height - 1, pos * 2) != CalcHash(hash, xs, height - 1, pos * 2 + 1)
      && NoTwins(hash, xs, left, height - 1, pos * 2) && NoTwins(hash, xs, right, height - 1, pos * 2 + 1)
  }

  /** The hashes of nodes of the tree. */
  function HashesOf(hash: NodeHash, xs: seq<uint256>, nodes: seq<(nat, nat)>): seq<uint256> {
    seq(|nodes|, i requires 0 <= i < |nodes| =>
      if nodes[i].1 < Width(|xs|, nodes[i].0) then CalcHash(hash, xs, nodes[i].0, nodes[i].1) else 0)
  }

  /** The leaves at positions of the list. */
  function Picked(xs: seq<uint256>, ps: seq<nat>): seq<uint256> {
    seq(|ps|, i requires 0 <= i < |ps| => if ps[i] < |xs| then xs[ps[i]] else 0)
  }

  lemma {:induction false} HashesJoin(hash: NodeHash, xs: seq<uint256>, a: seq<(nat, nat)>, b: seq<(nat, nat)>)
    ensures HashesOf(hash, xs, a + b) == HashesOf(hash, xs, a) + HashesOf(hash, xs, b)
  {
    hide Width;
  }

  lemma {:induction false} PickedJoin(xs: seq<uint256>, a: seq<nat>, b: seq<nat>)
    ensures Picked(xs, a + b) == Picked(xs, a) + Picked(xs, b)
  {
  }

  lemma {:induction false} AtJoin<T(!new)>(s: seq<T>, i: nat, x: seq<T>, y: seq<T>)
    requires At(s, i, x) && At(s, i + |x|, y)
    ensures At(s, i, x + y)
  {
    assert s[i..i + |x + y|] == s[i..i + |x|] + s[i + |x|..i + |x| + |y|];
  }

  /** The stored bits and hashes spell out `s` from the walk on. */
  ghost predicate Spells(hash: NodeHash, xs: seq<uint256>, s: Part, height: nat, pos: nat, vBits: seq<bool>,
          vHash: seq<uint256>, w: Walk) {
    At(vBits, w.nBitsUsed, Flags(s)) && At(vHash, w.nHashUsed, HashesOf(hash, xs, Nodes(s, height, pos)))
  }

  ghost function Past(xs: seq<uint256>, s: Part, height: nat, pos: nat, w: Walk): Walk {
    Walk(w.nBitsUsed + |Flags(s)|, w.nHashUsed + |Nodes(s, height, pos)|,
      w.vMatch + Picked(xs, Matched(s, height, pos)), w.fBad)
  }

  /** After a flag that goes down. */
  function Down(w: Walk): Walk { w.(nBitsUsed := w.nBitsUsed + 1) }

  // The pieces of a pair stand behind each other.

  lemma {:induction false} PairSpells(hash: NodeHash, xs: seq<uint256>, left: Part, right: Part, height: nat, pos: nat,
          vBits: seq<bool>, vHash: seq<uint256>, w: Walk)
    requires height > 0
    ensures var s, w1 := Pair(left, right), Down(w);
            var w2 := Past(xs, left, height - 1, pos * 2, w1);
            && (Spells(hash, xs, s, height, pos, vBits, vHash, w) <==>
              && At(vBits, w.nBitsUsed, [true])
              && Spells(hash, xs, left, height - 1, pos * 2, vBits, vHash, w1)
              && Spells(hash, xs, right, height - 1, pos * 2 + 1, vBits, vHash, w2))
            && Past(xs, s, height, pos, w) == Past(xs, right, height - 1, pos * 2 + 1, w2)
  {
    hide At, HashesOf, Picked;
    var s, w1 := Pair(left, right), Down(w);
    var a, b := Nodes(left, height - 1, pos * 2), Nodes(right, height - 1, pos * 2 + 1);
    var ps, qs := Matched(left, height - 1, pos * 2), Matched(right, height - 1, pos * 2 + 1);
    HashesJoin(hash, xs, a, b);
    PickedJoin(xs, ps, qs);
    HashesAreMany(hash, xs, a);
    AtIff(vBits, w.nBitsUsed, [true], Flags(left));
    AtIff(vBits, w.nBitsUsed, [true] + Flags(left), Flags(right));
    AtIff(vHash, w.nHashUsed, HashesOf(hash, xs, a), HashesOf(hash, xs, b));
    assert w.vMatch + (Picked(xs, ps) + Picked(xs, qs)) == (w.vMatch + Picked(xs, ps)) + Picked(xs, qs);
  }

  lemma {:induction false} HashesAreMany(hash: NodeHash, xs: seq<uint256>, nodes: seq<(nat, nat)>)
    ensures |HashesOf(hash, xs, nodes)| == |nodes|
  {
  }

  lemma {:induction false} AtIff<T(!new)>(s: seq<T>, i: nat, x: seq<T>, y: seq<T>)
    ensures At(s, i, x + y) <==> At(s, i, x) && At(s, i + |x|, y)
  {
    hide At;
    if At(s, i, x + y) {
      AtSplit(s, i, x, y);
    }
    if At(s, i, x) && At(s, i + |x|, y) {
      AtJoin(s, i, x, y);
    }
  }

  lemma {:induction false} SingleSpells(hash: NodeHash, xs: seq<uint256>, below: Part, height: nat, pos: nat,
          vBits: seq<bool>, vHash: seq<uint256>, w: Walk)
    requires height > 0
    ensures var s := Single(below);
            && (Spells(hash, xs, s, height, pos, vBits, vHash, w) <==>
              At(vBits, w.nBitsUsed, [true]) && Spells(hash, xs, below, height - 1, pos * 2, vBits, vHash, Down(w)))
            && Past(xs, s, height, pos, w) == Past(xs, below, height - 1, pos * 2, Down(w))
  {
    hide At, HashesOf, Picked;
    AtIff(vBits, w.nBitsUsed, [true], Flags(below));
  }

  // ---------------------------------------------------------- accepted: a part is spelled out

  /** A walk that ends well with the right node value has read a part of the tree, and its matches. */
  lemma {:induction false} ReadPart(hash: NodeHash, xs: seq<uint256>, height: nat, pos: nat, vBits: seq<bool>,
          vHash: seq<uint256>, w: Walk)
    returns (s: Part)
    requires Injective(hash) && pos < Width(|xs|, height)
    requires var r := Extract(hash, |xs|, vBits, vHash, height, pos, w);
             !r.walk.fBad && r.value == CalcHash(hash, xs, height, pos)
    ensures Fits(s, |xs|, height, pos) && NoTwins(hash, xs, s, height, pos)
    ensures Spells(hash, xs, s, height, pos, vBits, vHash, w)
    ensures Extract(hash, |xs|, vBits, vHash, height, pos, w).walk == Past(xs, s, height, pos, w)
    decreases height, 1
  {
    hide Width;
    if height > 0 && w.nBitsUsed < |vBits| && vBits[w.nBitsUsed] {
      s := ReadBelow(hash, xs, height, pos, vBits, vHash, w);
    } else {
      ExtractHash(hash, |xs|, vBits, vHash, height, pos, w);
      s := Hashed(vBits[w.nBitsUsed]);
      WidthZero(|xs|);
    }
  }

  lemma {:induction false} ReadBelow(hash: NodeHash, xs: seq<uint256>, height: nat, pos: nat, vBits: seq<bool>,
          vHash: seq<uint256>, w: Walk)
    returns (s: Part)
    requires Injective(hash) && pos < Width(|xs|, height)
    requires height > 0 && w.nBitsUsed < |vBits| && vBits[w.nBitsUsed]
    requires var r := Extract(hash, |xs|, vBits, vHash, height, pos, w);
             !r.walk.fBad && r.value == CalcHash(hash, xs, height, pos)
    ensures Fits(s, |xs|, height, pos) && NoTwins(hash, xs, s, height, pos)
    ensures Spells(hash, xs, s, height, pos, vBits, vHash, w)
    ensures Extract(hash, |xs|, vBits, vHash, height, pos, w).walk == Past(xs, s, height, pos, w)
    decreases height, 0
  {
    hide Width, Extract, Spells, Past;
    var n, w1 := |xs|, Down(w);
    LeavesSplit(n, height, pos);
    assert vBits[w.nBitsUsed..w.nBitsUsed + 1] == [true];
    var left := Extract(hash, n, vBits, vHash, height - 1, pos * 2, w1);
    var l := CalcHash(hash, xs, height - 1, pos * 2);
    if pos * 2 + 1 < Width(n, height - 1) {
      ExtractTwo(hash, n, vBits, vHash, height, pos, w);
      var right := Extract(hash, n, vBits, vHash, height - 1, pos * 2 + 1, left.walk);
      var r := CalcHash(hash, xs, height - 1, pos * 2 + 1);
      assert NoCollision(hash, left.value, right.value, l, r);
      var a := ReadPart(hash, xs, height - 1, pos * 2, vBits, vHash, w1);
      var b := ReadPart(hash, xs, height - 1, pos * 2 + 1, vBits, vHash, left.walk);
      s := Pair(a, b);
      PairSpells(hash, xs, a, b, height, pos, vBits, vHash, w);
    } else {
      ExtractOne(hash, n, vBits, vHash, height, pos, w);
      assert NoCollision(hash, left.value, left.value, l, l);
      var a := ReadPart(hash, xs, height - 1, pos * 2, vBits, vHash, w1);
      s := Single(a);
      SingleSpells(hash, xs, a, height, pos, vBits, vHash, w);
    }
  }

  // ---------------------------------------------------------- spelled out: accepted

  lemma {:induction false} ExtractOfPart(hash: NodeHash, xs: seq<uint256>, s: Part, height: nat, pos: nat,
          vBits: seq<bool>, vHash: seq<uint256>, w: Walk)
    requires pos < Width(|xs|, height) && Fits(s, |xs|, height, pos) && NoTwins(hash, xs, s, height, pos)
    requires Spells(hash, xs, s, height, pos, vBits, vHash, w)
    ensures Extract(hash, |xs|, vBits, vHash, height, pos, w)
      == Node(CalcHash(hash, xs, height, pos), Past(xs, s, height, pos, w))
    decreases height
  {
    hide Width, Extract, Spells, Past;
    var n, w1 := |xs|, Down(w);
    match s
    case Hashed(isMatch) => ExtractOfHashed(hash, xs, isMatch, height, pos, vBits, vHash, w);
    case Single(below) =>
      SingleSpells(hash, xs, below, height, pos, vBits, vHash, w);
      AtFirst(vBits, w.nBitsUsed, true);
      LeavesSplit(n, height, pos);
      ExtractOfPart(hash, xs, below, height - 1, pos * 2, vBits, vHash, w1);
      ExtractOne(hash, n, vBits, vHash, height, pos, w);
    case Pair(left, right) =>
      PairSpells(hash, xs, left, right, height, pos, vBits, vHash, w);
      AtFirst(vBits, w.nBitsUsed, true);
      ExtractOfPart(hash, xs, left, height - 1, pos * 2, vBits, vHash, w1);
      ExtractOfPart(hash, xs, right, height - 1, pos * 2 + 1, vBits, vHash, Past(xs, left, height - 1, pos * 2, w1));
      ExtractTwo(hash, n, vBits, vHash, height, pos, w);
  }

  lemma {:induction false} ExtractOfHashed(hash: NodeHash, xs: seq<uint256>, isMatch: bool, height: nat, pos: nat,
          vBits: seq<bool>, vHash: seq<uint256>, w: Walk)
    requires pos < Width(|xs|, height) && (isMatch ==> height == 0)
    requires Spells(hash, xs, Hashed(isMatch), height, pos, vBits, vHash, w)
    ensures Extract(hash, |xs|, vBits, vHash, height, pos, w)
      == Node(CalcHash(hash, xs, height, pos), Past(xs, Hashed(isMatch), height, pos, w))
  {
    hide Width, Extract;
    var value := CalcHash(hash, xs, height, pos);
    assert HashesOf(hash, xs, [(height, pos)]) == [value];
    AtFirst(vBits, w.nBitsUsed, isMatch);
    AtFirst(vHash, w.nHashUsed, value);
    ExtractHash(hash, |xs|, vBits, vHash, height, pos, w);
    WidthZero(|xs|);
  }

  // ------------------------------------------------------------------- sizes and order

  lemma {:induction false} PartIsSmall(s: Part, n: nat, height: nat, pos: nat)
    requires pos < Width(n, height) && Fits(s, n, height, pos)
    ensures First(height, pos) < Last(n, height, pos) <= n
    ensures 1 <= |Nodes(s, height, pos)| <= Last(n, height, pos) - First(height, pos)
    ensures |Nodes(s, height, pos)| <= |Flags(s)|
    decreases height
  {
    hide Width, First, Last;
    LeavesExist(n, height, pos);
    if !s.Hashed? {
      LeavesSplit(n, height, pos);
      match s
      case Single(below) => PartIsSmall(below, n, height - 1, pos * 2);
      case Pair(left, right) =>
        PartIsSmall(left, n, height - 1, pos * 2);
        PartIsSmall(right, n, height - 1, pos * 2 + 1);
    }
  }

  lemma {:induction false} NodesExist(s: Part, n: nat, height: nat, pos: nat)
    requires pos < Width(n, height) && Fits(s, n, height, pos)
    ensures forall node :: node in Nodes(s, height, pos) ==> node.0 <= height && node.1 < Width(n, node.0)
    decreases height
  {
    hide Width;
    if !s.Hashed? {
      LeavesSplit(n, height, pos);
      match s
      case Single(below) => NodesExist(below, n, height - 1, pos * 2);
      case Pair(left, right) =>
        NodesExist(left, n, height - 1, pos * 2);
        NodesExist(right, n, height - 1, pos * 2 + 1);
    }
  }

  /** `ps` are positions in [lo, hi), in increasing order. */
  ghost predicate Ascending(ps: seq<nat>, lo: nat, hi: nat) {
    && (forall i :: 0 <= i < |ps| ==> lo <= ps[i] < hi)
    && (forall i, j :: 0 <= i < j < |ps| ==> ps[i] < ps[j])
  }

  lemma {:induction false} AscendingJoin(a: seq<nat>, b: seq<nat>, lo: nat, mid: nat, hi: nat)
    requires Ascending(a, lo, mid) && Ascending(b, mid, hi) && lo <= mid <= hi
    ensures Ascending(a + b, lo, hi)
  {
  }

  lemma {:induction false} MatchedAscend(s: Part, n: nat, height: nat, pos: nat)
    requires pos < Width(n, height) && Fits(s, n, height, pos)
    ensures Ascending(Matched(s, height, pos), First(height, pos), Last(n, height, pos))
    decreases height
  {
    hide Width, First, Last, Ascending;
    LeavesExist(n, height, pos);
    match s
    case Hashed(isMatch) => OneAscends(n, isMatch, height, pos);
    case Single(below) =>
      LeavesSplit(n, height, pos);
      MatchedAscend(below, n, height - 1, pos * 2);
    case Pair(left, right) =>
      LeavesSplit(n, height, pos);
      MatchedAscend(left, n, height - 1, pos * 2);
      MatchedAscend(right, n, height - 1, pos * 2 + 1);
      AscendingJoin(Matched(left, height - 1, pos * 2), Matched(right, height - 1, pos * 2 + 1), First(height, pos),
        First(height - 1, pos * 2 + 1), Last(n, height, pos));
  }

  lemma {:induction false} OneAscends(n: nat, isMatch: bool, height: nat, pos: nat)
    requires pos < Width(n, height) && (isMatch ==> height == 0)
    ensures Ascending(if isMatch then [pos] else [], First(height, pos), Last(n, height, pos))
  {
    hide Width, First, Last;
    if isMatch {
      LeafNode(n, pos);
    }
  }

  // -------------------------------------------------------------------------- the theorem

  /** All stored hashes, and all bits but the padding of the last byte, spell out the part `s` of the tree over `xs`. */
  ghost predicate Proves(hash: NodeHash, xs: seq<uint256>, s: Part, vBits: seq<bool>, vHash: seq<uint256>) {
    var height := TreeHeight(|xs|);
    && 0 < Width(|xs|, height) && Fits(s, |xs|, height, 0) && NoTwins(hash, xs, s, height, 0)
    && Flags(s) <= vBits && |vBits| <= 8 * CeilDiv(|Flags(s)|, 8)
    && vHash == HashesOf(hash, xs, Nodes(s, height, 0))
  }

  /**
   Whatever bits and hashes arrive for a count of transactions: extraction gives the Merkle root of a list of that
   many if and only if they spell out a part of its tree and nothing else.
   */
  lemma {:induction false} ExtractionIff(hash: NodeHash, xs: seq<uint256>, vBits: seq<bool>, vHash: seq<uint256>,
          fBad: bool)
    requires Injective(hash) && |xs| > 0 && Root(hash, xs) != 0
    ensures ExtractAll(hash, |xs|, vBits, vHash, fBad).root == Root(hash, xs) <==>
      !fBad && |xs| <= MAX_BLOCK_SIZE / 60 && exists s :: Proves(hash, xs, s, vBits, vHash)
  {
    if ExtractAll(hash, |xs|, vBits, vHash, fBad).root == Root(hash, xs) {
      var _ := AcceptedIsProof(hash, xs, vBits, vHash, fBad);
    }
    if s :| !fBad && |xs| <= MAX_BLOCK_SIZE / 60 && Proves(hash, xs, s, vBits, vHash) {
      ProofIsAccepted(hash, xs, s, vBits, vHash);
    }
  }

  lemma {:induction false} AcceptedIsProof(hash: NodeHash, xs: seq<uint256>, vBits: seq<bool>, vHash: seq<uint256>,
          fBad: bool)
    returns (s: Part)
    requires Injective(hash) && |xs| > 0
    requires var e := ExtractAll(hash, |xs|, vBits, vHash, fBad); e.root != 0 && e.root == Root(hash, xs)
    ensures !fBad && Proves(hash, xs, s, vBits, vHash)
    ensures ExtractAll(hash, |xs|, vBits, vHash, fBad).vMatch == Picked(xs, Matched(s, TreeHeight(|xs|), 0))
  {
    hide Width, Extract, CeilDiv;
    var n, height, w := |xs|, TreeHeight(|xs|), Walk(0, 0, [], fBad);
    CalcHashAtTopIsRoot(hash, xs);
    s := ReadPart(hash, xs, height, 0, vBits, vHash, w);
    HashesAreMany(hash, xs, Nodes(s, height, 0));
    assert vHash[0..|vHash|] == vHash;
    assert [] + Picked(xs, Matched(s, height, 0)) == Picked(xs, Matched(s, height, 0));
    BytesOfBits(|Flags(s)|, |vBits|);
  }

  lemma {:induction false} BytesOfBits(used: nat, stored: nat)
    requires used <= stored
    ensures (used + 7) / 8 == (stored + 7) / 8 <==> stored <= 8 * CeilDiv(used, 8)
  {
  }

  lemma {:induction false} ProofIsAccepted(hash: NodeHash, xs: seq<uint256>, s: Part, vBits: seq<bool>,
          vHash: seq<uint256>)
    requires 0 < |xs| <= MAX_BLOCK_SIZE / 60 && Proves(hash, xs, s, vBits, vHash)
    ensures ExtractAll(hash, |xs|, vBits, vHash, false)
      == Extraction(Root(hash, xs), Picked(xs, Matched(s, TreeHeight(|xs|), 0)), false)
  {
    hide Width, Extract, CeilDiv;
    var n, height, w := |xs|, TreeHeight(|xs|), Walk(0, 0, [], false);
    WidthIsOneFromTheTop(n, height);
    CalcHashAtTopIsRoot(hash, xs);
    HashesAreMany(hash, xs, Nodes(s, height, 0));
    assert vHash[0..|vHash|] == vHash && vBits[0..|Flags(s)|] == Flags(s);
    ExtractOfPart(hash, xs, s, height, 0, vBits, vHash, w);
    PartIsSmall(s, n, height, 0);
    LeavesEnd(n, height, 0);
    BytesOfBits(|Flags(s)|, |vBits|);
    assert [] + Picked(xs, Matched(s, height, 0)) == Picked(xs, Matched(s, height, 0));
  }

  /** In particular the matches are a sublist of the list, in order. */
  lemma {:induction false} ExtractionIsSound(hash: NodeHash, xs: seq<uint256>, vBits: seq<bool>, vHash: seq<uint256>,
          fBad: bool)
    returns (ps: seq<nat>)
    requires Injective(hash) && |xs| > 0
    requires var e := ExtractAll(hash, |xs|, vBits, vHash, fBad); e.root != 0 && e.root == Root(hash, xs)
    ensures Ascending(ps, 0, |xs|)
    ensures ExtractAll(hash, |xs|, vBits, vHash, fBad).vMatch == seq(|ps|, i requires 0 <= i < |ps| => xs[ps[i]])
  {
    hide Width, ExtractAll;
    var n, height := |xs|, TreeHeight(|xs|);
    var s := AcceptedIsProof(hash, xs, vBits, vHash, fBad);
    ps := Matched(s, height, 0);
    MatchedAscend(s, n, height, 0);
    LeavesEnd(n, height, 0);
    WidthIsOneFromTheTop(n, height);
  }

  /** `x` is the hash of some node of the tree. */
  ghost predicate IsNode(hash: NodeHash, xs: seq<uint256>, x: uint256) {
    exists height: nat, pos: nat :: pos < Width(|xs|, height) && x == CalcHash(hash, xs, height, pos)
  }

  /** No hash is stored that is not of the tree, and less than a byte of flag bits is left over. */
  lemma {:induction false} NothingIsUnused(hash: NodeHash, xs: seq<uint256>, vBits: seq<bool>, vHash: seq<uint256>,
          fBad: bool)
    requires Injective(hash) && |xs| > 0
    requires var e := ExtractAll(hash, |xs|, vBits, vHash, fBad); e.root != 0 && e.root == Root(hash, xs)
    ensures forall i :: 0 <= i < |vHash| ==> IsNode(hash, xs, vHash[i])
    ensures Extract(hash, |xs|, vBits, vHash, TreeHeight(|xs|), 0, Walk(0, 0, [], fBad)).walk.nHashUsed == |vHash|
    ensures |vBits| <
      Extract(hash, |xs|, vBits, vHash, TreeHeight(|xs|), 0, Walk(0, 0, [], fBad)).walk.nBitsUsed + 8
  {
    hide Width, Extract, CalcHash;
    var n, height := |xs|, TreeHeight(|xs|);
    var s := AcceptedIsProof(hash, xs, vBits, vHash, fBad);
    var nodes := Nodes(s, height, 0);
    NodesExist(s, n, height, 0);
    forall i | 0 <= i < |vHash| ensures IsNode(hash, xs, vHash[i]) {
      assert nodes[i] in nodes;
      assert nodes[i].1 < Width(n, nodes[i].0) && vHash[i] == CalcHash(hash, xs, nodes[i].0, nodes[i].1);
    }
  }
}
