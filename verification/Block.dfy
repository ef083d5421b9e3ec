/**
 `CBlock`: building the Merkle tree in place, cutting a branch out of it and
 checking a branch. `vtx` holds the transaction ids, in block order.
 */
module Block {
  import opened Common
  import opened MerkleTree

  /** The sibling list that `GetMerkleBranch` collects, leaf level first; past the end the last node stands in. */
  function Branch(hash: NodeHash, xs: seq<uint256>, index: nat): (branch: seq<uint256>)
    ensures |branch| == TreeHeight(|xs|)
    decreases |xs|
  {
    if |xs| <= 1 then [] else [xs[Min(Sibling(index), |xs| - 1)]] + Branch(hash, Up(hash, xs), index / 2)
  }

  /** `index ^ 1`. */
  function Sibling(index: nat): nat {
    if index % 2 == 0 then index + 1 else index - 1
  }

  /** The node that `leaf` and its sibling are hashed to, for a leaf at `index`. */
  function Combine(hash: NodeHash, leaf: uint256, sibling: uint256, index: int): uint256 {
    if index % 2 == 1 then hash(sibling, leaf) else hash(leaf, sibling)
  }

  /** What `CheckMerkleBranch` folds a leaf and a branch to. */
  function Fold(hash: NodeHash, leaf: uint256, branch: seq<uint256>, index: int): uint256
    decreases |branch|
  {
    if branch == [] then leaf
    else Fold(hash, Combine(hash, leaf, branch[0], index), branch[1..], index / 2)
  }

  /** What moving from one level to the next does not change. */
  lemma {:induction false} LevelStep(hash: NodeHash, below: seq<uint256>, level: seq<uint256>)
    requires |level| > 1
    ensures below + Flat(hash, level) == (below + level) + Flat(hash, Up(hash, level))
    ensures Root(hash, level) == Root(hash, Up(hash, level))
    ensures Mutated(hash, level) == (EndsInTwins(level) || Mutated(hash, Up(hash, level)))
  {
    Associative(below, level, Flat(hash, Up(hash, level)));
  }

  lemma {:induction false} LevelDone(hash: NodeHash, level: seq<uint256>)
    requires |level| <= 1
    ensures Flat(hash, level) == level && !Mutated(hash, level)
    ensures level != [] ==> Root(hash, level) == level[0]
  {
  }

  lemma {:induction false} Associative<T>(a: seq<T>, b: seq<T>, c: seq<T>)
    ensures a + (b + c) == (a + b) + c
  {
  }

  lemma {:induction false} BranchDone(hash: NodeHash, branch: seq<uint256>, level: seq<uint256>, index: nat)
    requires |level| <= 1
    ensures branch + Branch(hash, level, index) == branch
  {
  }

  lemma {:induction false} BranchStep(hash: NodeHash, branch: seq<uint256>, level: seq<uint256>, index: nat)
    requires |level| > 1
    ensures branch + Branch(hash, level, index)
      == (branch + [level[Min(Sibling(index), |level| - 1)]]) + Branch(hash, Up(hash, level), index / 2)
  {
    Associative(branch, [level[Min(Sibling(index), |level| - 1)]], Branch(hash, Up(hash, level), index / 2));
  }

  class CBlock {
    const hash: NodeHash
    var vtx: seq<uint256>
    var vMerkleTree: seq<uint256>

    constructor (hash: NodeHash, vtx: seq<uint256>)
      ensures this.hash == hash && this.vtx == vtx && Valid()
    {
      this.hash, this.vtx, this.vMerkleTree := hash, vtx, [];
    }

    /** The cached tree, once built, is the tree of the current transactions. */
    ghost predicate Valid()
      reads this
    {
      vMerkleTree == [] || vMerkleTree == Flat(hash, vtx)
    }

    method BuildMerkleTree() returns (root: uint256, mutated: bool)
      modifies this`vMerkleTree
      ensures vMerkleTree == Flat(hash, vtx)
      ensures root == if vtx == [] then 0 else Root(hash, vtx)
      ensures mutated == Mutated(hash, vtx)
    {
      hide Flat, Root, Mutated, Up;
      vMerkleTree := vtx;
      var j := 0;
      mutated := false;
      var nSize := |vtx|;
      ghost var level, below := vtx, [];
      while nSize > 1
        invariant nSize == |level| && j == |below| && vMerkleTree == below + level
        invariant below + Flat(hash, level) == Flat(hash, vtx)
        invariant vtx != [] ==> level != [] && Root(hash, level) == Root(hash, vtx)
        invariant vtx == [] ==> level == []
        invariant Mutated(hash, vtx) == (mutated || Mutated(hash, level))
        decreases nSize
      {
        var twins := BuildLevel(j, nSize, below, level);
        mutated := mutated || twins;
        LevelStep(hash, below, level);
        below, level := below + level, Up(hash, level);
        j := j + nSize;
        nSize := (nSize + 1) / 2;
      }
      LevelDone(hash, level);
      root := if vMerkleTree == [] then 0 else vMerkleTree[|vMerkleTree| - 1];
    }

    /** The inner loop: hash the level that starts at `j` in pairs onto the end of the tree. */
    method BuildLevel(j: nat, nSize: nat, ghost below: seq<uint256>, ghost level: seq<uint256>) returns (mutated: bool)
      requires vMerkleTree == below + level && j == |below| && nSize == |level|
      modifies this`vMerkleTree
      ensures vMerkleTree == below + level + Up(hash, level)
      ensures mutated == EndsInTwins(level)
    {
      ghost var up := Up(hash, level);
      mutated := false;
      for half := 0 to (nSize + 1) / 2
        invariant vMerkleTree == below + level + up[..half]
        invariant mutated == (2 * half >= nSize && EndsInTwins(level))
      {
        var i := 2 * half;
        var i2 := Min(i + 1, nSize - 1);
        assert vMerkleTree[j + i] == level[i] && vMerkleTree[j + i2] == level[i2];
        if i2 == i + 1 && i2 + 1 == nSize && vMerkleTree[j + i] == vMerkleTree[j + i2] {
          mutated := true;
        }
        assert up[half] == Parent(hash, level, half);
        assert up[..half + 1] == up[..half] + [up[half]];
        vMerkleTree := vMerkleTree + [hash(vMerkleTree[j + i], vMerkleTree[j + i2])];
      }
      assert up[..(nSize + 1) / 2] == up;
    }

    method GetMerkleBranch(nIndex: nat) returns (branch: seq<uint256>)
      requires Valid()
      modifies this`vMerkleTree
      ensures vMerkleTree == Flat(hash, vtx)
      ensures branch == Branch(hash, vtx, nIndex)
    {
      hide Flat, Up, Branch;
      if vMerkleTree == [] {
        var _, _ := BuildMerkleTree();
      }
      branch := [];
      var j := 0;
      var index: nat := nIndex;
      var nSize := |vtx|;
      ghost var level, below := vtx, [];
      while nSize > 1
        invariant nSize == |level| && j == |below|
        invariant vMerkleTree == Flat(hash, vtx) == below + Flat(hash, level)
        invariant branch + Branch(hash, level, index) == Branch(hash, vtx, nIndex)
        decreases nSize
      {
        var i := Min(Sibling(index), nSize - 1);
        LevelStep(hash, below, level);
        BranchStep(hash, branch, level, index);
        assert (below + level)[j + i] == level[i];
        branch := branch + [vMerkleTree[j + i]];
        index := index / 2;
        below, level := below + level, Up(hash, level);
        j := j + nSize;
        nSize := (nSize + 1) / 2;
      }
      BranchDone(hash, branch, level, index);
    }

    static method CheckMerkleBranch(hash: NodeHash, leaf: uint256, branch: seq<uint256>, nIndex: int)
      returns (root: uint256)
      ensures root == if nIndex == -1 then 0 else Fold(hash, leaf, branch, nIndex)
    {
      if nIndex == -1 {
        return 0;
      }
      root := leaf;
      var index := nIndex;
      for k := 0 to |branch|
        invariant Fold(hash, root, branch[k..], index) == Fold(hash, leaf, branch, nIndex)
      {
        assert branch[k..][1..] == branch[k + 1..];
        if index % 2 == 1 {
          root := hash(branch[k], root);
        } else {
          root := hash(root, branch[k]);
        }
        index := index / 2;
      }
    }
  }

  lemma {:induction false} CombineIsParent(hash: NodeHash, xs: seq<uint256>, index: nat)
    requires index < |xs| && |xs| > 1
    ensures Combine(hash, xs[index], xs[Min(Sibling(index), |xs| - 1)], index) == Up(hash, xs)[index / 2]
  {
    assert Up(hash, xs)[index / 2] == Parent(hash, xs, index / 2);
  }

  /** A branch cut from the tree folds back to the root. */
  lemma {:induction false} BranchLeadsToRoot(hash: NodeHash, xs: seq<uint256>, index: nat)
    requires index < |xs|
    ensures Fold(hash, xs[index], Branch(hash, xs, index), index) == Root(hash, xs)
    decreases |xs|
  {
    if |xs| > 1 {
      hide Up, Combine, Sibling;
      assert Branch(hash, xs, index)[1..] == Branch(hash, Up(hash, xs), index / 2);
      CombineIsParent(hash, xs, index);
      BranchLeadsToRoot(hash, Up(hash, xs), index / 2);
    }
  }

  lemma {:induction false} CombineIsSound(hash: NodeHash, xs: seq<uint256>, leaf: uint256, sibling: uint256, index: nat)
    requires Injective(hash) && index < |xs|
    requires Combine(hash, leaf, sibling, index) == Parent(hash, xs, index / 2)
    ensures leaf == xs[index] && sibling == xs[Min(Sibling(index), |xs| - 1)]
  {
    var l, r := xs[2 * (index / 2)], xs[Min(2 * (index / 2) + 1, |xs| - 1)];
    assert NoCollision(hash, sibling, leaf, l, r) && NoCollision(hash, leaf, sibling, l, r);
  }

  /** A branch folds to the root only from the leaf and the siblings that are really there. */
  lemma {:induction false} FoldIsSound(hash: NodeHash, xs: seq<uint256>, leaf: uint256, branch: seq<uint256>,
          index: nat)
    requires Injective(hash) && index < |xs| && |branch| == TreeHeight(|xs|)
    requires Fold(hash, leaf, branch, index) == Root(hash, xs)
    ensures leaf == xs[index] && branch == Branch(hash, xs, index)
    decreases |xs|
  {
    if |xs| > 1 {
      var us, rest := Up(hash, xs), branch[1..];
      FoldIsSound(hash, us, Combine(hash, leaf, branch[0], index), rest, index / 2);
      assert us[index / 2] == Parent(hash, xs, index / 2);
      CombineIsSound(hash, xs, leaf, branch[0], index);
      assert branch == [branch[0]] + rest;
    }
  }

  /** A branch of the right length proves position and content: it checks out iff it is the genuine one. */
  lemma {:induction false} BranchCheckIffGenuine(hash: NodeHash, xs: seq<uint256>, leaf: uint256,
          branch: seq<uint256>, index: nat)
    requires Injective(hash) && index < |xs| && |branch| == TreeHeight(|xs|)
    ensures Fold(hash, leaf, branch, index) == Root(hash, xs)
      <==> leaf == xs[index] && branch == Branch(hash, xs, index)
  {
    if Fold(hash, leaf, branch, index) == Root(hash, xs) {
      FoldIsSound(hash, xs, leaf, branch, index);
    } else {
      BranchLeadsToRoot(hash, xs, index);
    }
  }
}
