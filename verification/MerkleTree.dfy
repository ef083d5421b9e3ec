/** The Merkle tree over a transaction list, level by level, and what the `mutated` flag detects. */
module MerkleTree {
  import opened Common

  /**
   A 256-bit hash is an unbounded natural here. The node hash is a parameter; where a result needs it
   to be collision free, it says so with `Injective`, which no function into a finite range could satisfy.
   */
  type NodeHash = (uint256, uint256) -> uint256

  ghost predicate NoCollision(hash: NodeHash, a: uint256, b: uint256, c: uint256, d: uint256) {
    hash(a, b) == hash(c, d) ==> a == c && b == d
  }

  ghost predicate Injective(hash: NodeHash) {
    forall a, b, c, d :: NoCollision(hash, a, b, c, d)
  }

  /** A transaction id: not the hash of any pair of nodes. */
  ghost predicate IsLeaf(hash: NodeHash, t: uint256) {
    forall a, b :: hash(a, b) != t
  }

  ghost predicate AllLeaves(hash: NodeHash, txids: seq<uint256>) {
    forall i :: 0 <= i < |txids| ==> IsLeaf(hash, txids[i])
  }

  function Min(a: int, b: int): int { if a <= b then a else b }

  // ---------------------------------------------------------------- levels

  /** The node over positions 2i and 2i+1; an odd last node is paired with itself. */
  function Parent(hash: NodeHash, xs: seq<uint256>, i: nat): uint256
    requires 2 * i < |xs|
  {
    hash(xs[2 * i], xs[Min(2 * i + 1, |xs| - 1)])
  }

  function Up(hash: NodeHash, xs: seq<uint256>): (ys: seq<uint256>)
    ensures |ys| == (|xs| + 1) / 2
    ensures forall i :: 0 <= i < |ys| ==> ys[i] == Parent(hash, xs, i)
  {
    seq((|xs| + 1) / 2, i requires 0 <= i < (|xs| + 1) / 2 => Parent(hash, xs, i))
  }

  function Level(hash: NodeHash, xs: seq<uint256>, height: nat): seq<uint256>
    decreases height
  {
    if height == 0 then xs else Level(hash, Up(hash, xs), height - 1)
  }

  /** The number of levels above the leaves. */
  function TreeHeight(n: nat): nat {
    if n <= 1 then 0 else 1 + TreeHeight((n + 1) / 2)
  }

  function Root(hash: NodeHash, xs: seq<uint256>): uint256
    requires |xs| > 0
    decreases |xs|
  {
    if |xs| == 1 then xs[0] else Root(hash, Up(hash, xs))
  }

  /** At some level the list ends in two identical hashes that get paired. */
  predicate Mutated(hash: NodeHash, xs: seq<uint256>)
    decreases |xs|
  {
    |xs| > 1 && (EndsInTwins(xs) || Mutated(hash, Up(hash, xs)))
  }

  predicate EndsInTwins(xs: seq<uint256>) {
    |xs| > 1 && |xs| % 2 == 0 && xs[|xs| - 2] == xs[|xs| - 1]
  }

  /** All levels, leaves first: the layout of `vMerkleTree`. */
  function Flat(hash: NodeHash, xs: seq<uint256>): seq<uint256>
    decreases |xs|
  {
    if |xs| <= 1 then xs else xs + Flat(hash, Up(hash, xs))
  }

  // -------------------------------------------- the two definitions of a level

  lemma {:induction false} LevelUp(hash: NodeHash, xs: seq<uint256>, height: nat)
    ensures Level(hash, xs, height + 1) == Up(hash, Level(hash, xs, height))
    decreases height
  {
    if height > 0 {
      LevelUp(hash, Up(hash, xs), height - 1);
    }
  }

  lemma {:induction false} TopLevelIsRoot(hash: NodeHash, xs: seq<uint256>)
    requires |xs| > 0
    ensures Level(hash, xs, TreeHeight(|xs|)) == [Root(hash, xs)]
    decreases |xs|
  {
    if |xs| > 1 {
      TopLevelIsRoot(hash, Up(hash, xs));
    }
  }

  lemma {:induction false} FlatEndsInRoot(hash: NodeHash, xs: seq<uint256>)
    requires |xs| > 0
    ensures |Flat(hash, xs)| > 0 && Flat(hash, xs)[|Flat(hash, xs)| - 1] == Root(hash, xs)
    decreases |xs|
  {
    if |xs| > 1 {
      FlatEndsInRoot(hash, Up(hash, xs));
    }
  }

  // ----------------------------------------------------- duplicate detection

  /** A node that is exactly `k` hashes above its leftmost leaf. */
  ghost predicate AtDepth(hash: NodeHash, k: nat, v: uint256) {
    if k == 0 then IsLeaf(hash, v) else exists a, b :: v == hash(a, b) && AtDepth(hash, k - 1, a)
  }

  lemma {:induction false} DepthIsUnique(hash: NodeHash, k: nat, j: nat, v: uint256)
    requires Injective(hash) && AtDepth(hash, k, v) && AtDepth(hash, j, v)
    ensures k == j
  {
    if k > 0 && j > 0 {
      var a, b :| v == hash(a, b) && AtDepth(hash, k - 1, a);
      var c, d :| v == hash(c, d) && AtDepth(hash, j - 1, c);
      assert NoCollision(hash, a, b, c, d);
      DepthIsUnique(hash, k - 1, j - 1, a);
    }
  }

  ghost predicate AllAtDepth(hash: NodeHash, k: nat, xs: seq<uint256>) {
    forall i :: 0 <= i < |xs| ==> AtDepth(hash, k, xs[i])
  }

  lemma {:induction false} UpDepth(hash: NodeHash, k: nat, xs: seq<uint256>)
    requires AllAtDepth(hash, k, xs)
    ensures AllAtDepth(hash, k + 1, Up(hash, xs))
  {
    forall i | 0 <= i < |Up(hash, xs)| ensures AtDepth(hash, k + 1, Up(hash, xs)[i]) {
      assert Up(hash, xs)[i] == hash(xs[2 * i], xs[Min(2 * i + 1, |xs| - 1)]);
      assert AtDepth(hash, k, xs[2 * i]);
    }
  }

  lemma {:induction false} RootDepth(hash: NodeHash, k: nat, xs: seq<uint256>)
    requires |xs| > 0 && AllAtDepth(hash, k, xs)
    ensures AtDepth(hash, k + TreeHeight(|xs|), Root(hash, xs))
    decreases |xs|
  {
    if |xs| > 1 {
      UpDepth(hash, k, xs);
      RootDepth(hash, k + 1, Up(hash, xs));
    }
  }

  lemma {:induction false} SameHeight(hash: NodeHash, xs: seq<uint256>, ys: seq<uint256>)
    requires Injective(hash) && AllLeaves(hash, xs) && AllLeaves(hash, ys)
    requires |xs| > 0 && |ys| > 0 && Root(hash, xs) == Root(hash, ys)
    ensures TreeHeight(|xs|) == TreeHeight(|ys|)
  {
    assert AllAtDepth(hash, 0, xs) && AllAtDepth(hash, 0, ys);
    RootDepth(hash, 0, xs);
    RootDepth(hash, 0, ys);
    DepthIsUnique(hash, TreeHeight(|xs|), TreeHeight(|ys|), Root(hash, xs));
  }

  lemma {:induction false} ParentsAgree(hash: NodeHash, xs: seq<uint256>, ys: seq<uint256>, i: nat)
    requires Injective(hash) && 2 * i < |xs| && 2 * i < |ys|
    requires Parent(hash, xs, i) == Parent(hash, ys, i)
    ensures xs[2 * i] == ys[2 * i]
    ensures xs[Min(2 * i + 1, |xs| - 1)] == ys[Min(2 * i + 1, |ys| - 1)]
  {
    assert NoCollision(hash, xs[2 * i], xs[Min(2 * i + 1, |xs| - 1)], ys[2 * i], ys[Min(2 * i + 1, |ys| - 1)]);
  }

  /** What equal parents say about two levels of which `xs` is not the longer one. */
  lemma {:induction false} SameParents(hash: NodeHash, xs: seq<uint256>, ys: seq<uint256>)
    requires Injective(hash) && 0 < |xs| <= |ys| && |ys| > 1
    requires Up(hash, xs) == Up(hash, ys)
    ensures |xs| == |ys| ==> xs == ys
    ensures |xs| < |ys| ==> EndsInTwins(ys)
  {
    var us, vs := Up(hash, xs), Up(hash, ys);
    forall i | 0 <= i < |xs| ensures xs[i] == ys[i] {
      assert us[i / 2] == vs[i / 2];
      ParentsAgree(hash, xs, ys, i / 2);
    }
    if |xs| < |ys| {
      assert us[|us| - 1] == vs[|us| - 1];
      ParentsAgree(hash, xs, ys, |us| - 1);
    }
  }

  lemma {:induction false} SameRootSameHeight(hash: NodeHash, xs: seq<uint256>, ys: seq<uint256>)
    requires Injective(hash) && 0 < |xs| <= |ys| && TreeHeight(|xs|) == TreeHeight(|ys|)
    requires Root(hash, xs) == Root(hash, ys)
    ensures |xs| == |ys| ==> xs == ys
    ensures |xs| < |ys| ==> TwinsBelowTop(hash, ys)
    decreases |ys|
  {
    if |ys| > 1 {
      var us, vs := Up(hash, xs), Up(hash, ys);
      SameRootSameHeight(hash, us, vs);
      if us == vs {
        SameParents(hash, xs, ys);
      }
    }
  }

  lemma {:induction false} TwinsAreFlagged(hash: NodeHash, xs: seq<uint256>)
    requires TwinsBelowTop(hash, xs)
    ensures Mutated(hash, xs)
    decreases |xs|
  {
    if !EndsInTwins(xs) {
      TwinsAreFlagged(hash, Up(hash, xs));
    }
  }

  /** Two transaction lists with one root are the same list, or the longer one is flagged. */
  lemma {:induction false} DuplicatesAreDetected(hash: NodeHash, xs: seq<uint256>, ys: seq<uint256>)
    requires Injective(hash) && AllLeaves(hash, xs) && AllLeaves(hash, ys)
    requires |xs| > 0 && |ys| > 0 && Root(hash, xs) == Root(hash, ys)
    ensures xs == ys || |xs| != |ys|
    ensures |xs| < |ys| ==> Mutated(hash, ys)
    ensures |ys| < |xs| ==> Mutated(hash, xs)
  {
    SameHeight(hash, xs, ys);
    var s, l := if |xs| <= |ys| then xs else ys, if |xs| <= |ys| then ys else xs;
    SameRootSameHeight(hash, s, l);
    if |s| < |l| {
      TwinsAreFlagged(hash, l);
    }
  }

  /** The flag is never raised for a list without repeated transactions. */
  lemma {:induction false} DistinctIsNotFlagged(hash: NodeHash, xs: seq<uint256>)
    requires Injective(hash) && Distinct(xs)
    ensures !Mutated(hash, xs)
    decreases |xs|
  {
    if |xs| > 1 {
      UpKeepsDistinct(hash, xs);
      DistinctIsNotFlagged(hash, Up(hash, xs));
    }
  }

  ghost predicate Distinct(xs: seq<uint256>) {
    forall i, j :: 0 <= i < j < |xs| ==> xs[i] != xs[j]
  }

  lemma {:induction false} UpKeepsDistinct(hash: NodeHash, xs: seq<uint256>)
    requires Injective(hash) && Distinct(xs)
    ensures Distinct(Up(hash, xs))
  {
    var us := Up(hash, xs);
    forall i, j | 0 <= i < j < |us| ensures us[i] != us[j] {
      assert us[i] == Parent(hash, xs, i) && us[j] == Parent(hash, xs, j);
      assert NoCollision(hash, xs[2 * i], xs[Min(2 * i + 1, |xs| - 1)], xs[2 * j], xs[Min(2 * j + 1, |xs| - 1)]);
    }
  }

  // ------------------------------------------------- what the flag stands for

  /**
   Identical hashes paired at the end of a level that has more than two nodes.
   The flag is also raised for a level of exactly two identical nodes, where
   dropping one of them changes the height and so the root.
   */
  predicate TwinsBelowTop(hash: NodeHash, xs: seq<uint256>)
    decreases |xs|
  {
    |xs| > 2 && (EndsInTwins(xs) || TwinsBelowTop(hash, Up(hash, xs)))
  }

  lemma {:induction false} UpOfEvenPrefix(hash: NodeHash, xs: seq<uint256>, j: nat)
    requires 2 * j <= |xs|
    ensures Up(hash, xs[..2 * j]) == Up(hash, xs)[..j]
  {
    var ys := xs[..2 * j];
    forall i | 0 <= i < j ensures Up(hash, ys)[i] == Up(hash, xs)[i] {
      assert Up(hash, ys)[i] == Parent(hash, ys, i) && Up(hash, xs)[i] == Parent(hash, xs, i);
    }
  }

  lemma {:induction false} TwinsCanBeDropped(hash: NodeHash, xs: seq<uint256>)
    requires EndsInTwins(xs)
    ensures Up(hash, xs[..|xs| - 1]) == Up(hash, xs)
  {
    var ys := xs[..|xs| - 1];
    forall i | 0 <= i < |Up(hash, xs)| ensures Up(hash, ys)[i] == Up(hash, xs)[i] {
      assert Up(hash, ys)[i] == Parent(hash, ys, i) && Up(hash, xs)[i] == Parent(hash, xs, i);
    }
  }

  lemma {:induction false} TwinsGiveShorterPrefix(hash: NodeHash, xs: seq<uint256>) returns (n: nat)
    requires TwinsBelowTop(hash, xs)
    ensures 1 < n < |xs| && Root(hash, xs[..n]) == Root(hash, xs)
    decreases |xs|
  {
    if EndsInTwins(xs) {
      n := |xs| - 1;
      TwinsCanBeDropped(hash, xs);
    } else {
      var j := TwinsGiveShorterPrefix(hash, Up(hash, xs));
      n := 2 * j;
      UpOfEvenPrefix(hash, xs, j);
    }
  }

  ghost predicate ShorterTwin(hash: NodeHash, ys: seq<uint256>, xs: seq<uint256>) {
    0 < |ys| < |xs| && AllLeaves(hash, ys) && Root(hash, ys) == Root(hash, xs)
  }

  /** Exactly which lists can be shortened without changing the root. */
  lemma {:induction false} ShorterTwinIffTwinsBelowTop(hash: NodeHash, xs: seq<uint256>)
    requires Injective(hash) && AllLeaves(hash, xs)
    ensures TwinsBelowTop(hash, xs) <==> exists ys :: ShorterTwin(hash, ys, xs)
  {
    if TwinsBelowTop(hash, xs) {
      var n := TwinsGiveShorterPrefix(hash, xs);
      assert ShorterTwin(hash, xs[..n], xs);
    }
    if ys :| ShorterTwin(hash, ys, xs) {
      SameHeight(hash, ys, xs);
      SameRootSameHeight(hash, ys, xs);
    }
  }

  /** The flag over-approximates: two equal transactions are flagged, yet nothing shorter has their root. */
  lemma {:induction false} FlaggedWithoutShorterTwin(hash: NodeHash, t: uint256)
    requires Injective(hash) && IsLeaf(hash, t)
    ensures Mutated(hash, [t, t])
    ensures forall ys :: !ShorterTwin(hash, ys, [t, t])
  {
    ShorterTwinIffTwinsBelowTop(hash, [t, t]);
  }
}
