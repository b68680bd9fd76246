/**
 * The binary hash tree of the attestation engine: level 0 is the leaf list,
 * each further level hashes adjacent pairs of the one below (the last node of
 * an odd-length level is paired with itself), and the last level holds the
 * root alone. Inclusion proofs collect the sibling of the current index,
 * level by level, skipping a sibling that falls off the end of its level.
 */
module Merkle {
  import opened Wrappers

  /** SHA-256 as a hex digest, left uninterpreted: every hashing call goes through this parameter. */
  type Hash = string -> string

  /** `index ^ 1` on a natural number: flips the lowest bit. */
  function Sibling(index: nat): nat {
    if index % 2 == 0 then index + 1 else index - 1
  }

  /** Node `j` of the level above `level`: the hash of its left child and its right child, or of the left child twice. */
  function Parent(H: Hash, level: seq<string>, j: nat): string
    requires 2 * j < |level|
  {
    var left := level[2 * j];
    var right := if 2 * j + 1 < |level| then level[2 * j + 1] else left;
    H(left + right)
  }

  function NextLevel(H: Hash, level: seq<string>): seq<string> {
    seq((|level| + 1) / 2, j requires 0 <= j < (|level| + 1) / 2 => Parent(H, level, j))
  }

  /** The whole tree, leaf level first: what `_build_tree` returns. */
  function Levels(H: Hash, leaves: seq<string>): seq<seq<string>>
    decreases |leaves|
  {
    if |leaves| == 0 then []
    else if |leaves| == 1 then [leaves]
    else [leaves] + Levels(H, NextLevel(H, leaves))
  }

  /** The root of the tree over `leaves`; the empty string for no leaves. */
  function Root(H: Hash, leaves: seq<string>): string
    decreases |leaves|
  {
    if |leaves| == 0 then ""
    else if |leaves| == 1 then leaves[0]
    else Root(H, NextLevel(H, leaves))
  }

  /** The contribution of one level to a proof: the sibling, when it exists. */
  function SiblingPart(level: seq<string>, index: nat): seq<string> {
    if Sibling(index) < |level| then [level[Sibling(index)]] else []
  }

  /** The proof for `index`, walking every level but the last and halving the index each step. */
  function Path(tree: seq<seq<string>>, index: nat): seq<string>
    decreases |tree|
  {
    if |tree| <= 1 then [] else SiblingPart(tree[0], index) + Path(tree[1..], index / 2)
  }

  /**
   * A reference verifier, not part of the system: it rebuilds the root from a
   * leaf, its position, the leaf count and a proof. Because a proof omits the
   * siblings that fall off the end of a level, the verifier needs the level
   * widths, which the leaf count determines.
   */
  function Recompute(H: Hash, width: nat, index: nat, current: string, proof: seq<string>): Option<string>
    decreases width
  {
    if width <= 1 then
      if proof == [] then Some(current) else None
    else if Sibling(index) < width then
      if proof == [] then None
      else
        var up := if index % 2 == 0 then H(current + proof[0]) else H(proof[0] + current);
        Recompute(H, (width + 1) / 2, index / 2, up, proof[1..])
    else
      Recompute(H, (width + 1) / 2, index / 2, H(current + current), proof)
  }

  /** The shape of the tree: the leaves first, each level half (rounded up) the one below, one root at the end. */
  lemma {:induction false} LevelsShape(H: Hash, leaves: seq<string>)
    ensures var t := Levels(H, leaves);
      && (leaves == [] <==> t == [])
      && (leaves != [] ==> t[0] == leaves && |t[|t| - 1]| == 1 && t[|t| - 1][0] == Root(H, leaves))
      && (forall k :: 0 <= k < |t| - 1 ==> |t[k]| > 1 && |t[k + 1]| == (|t[k]| + 1) / 2)
    decreases |leaves|
  {
    if |leaves| > 1 {
      var next := NextLevel(H, leaves);
      LevelsShape(H, next);
      var t := Levels(H, leaves);
      var u := Levels(H, next);
      assert t == [leaves] + u;
      forall k | 0 <= k < |t| - 1
        ensures |t[k]| > 1 && |t[k + 1]| == (|t[k]| + 1) / 2
      {
        if k > 0 {
          assert t[k] == u[k - 1] && t[k + 1] == u[k];
        }
      }
    }
  }

  /** Every node above the leaves is the hash of its two children, or of its only child twice. */
  lemma {:induction false} LevelsParent(H: Hash, leaves: seq<string>, k: nat, j: nat)
    requires k + 1 < |Levels(H, leaves)|
    requires j < |Levels(H, leaves)[k + 1]|
    ensures var lower := Levels(H, leaves)[k];
      && 2 * j < |lower|
      && Levels(H, leaves)[k + 1][j]
         == H(lower[2 * j] + (if 2 * j + 1 < |lower| then lower[2 * j + 1] else lower[2 * j]))
    decreases |leaves|
  {
    var next := NextLevel(H, leaves);
    var t := Levels(H, leaves);
    assert |leaves| > 1;
    assert t == [leaves] + Levels(H, next);
    if k > 0 {
      LevelsParent(H, next, k - 1, j);
    } else {
      LevelsShape(H, next);
    }
  }

  /** A proof never has more entries than the tree has levels above the leaves. */
  lemma {:induction false} PathLength(tree: seq<seq<string>>, index: nat)
    ensures |Path(tree, index)| <= if tree == [] then 0 else |tree| - 1
    decreases |tree|
  {
    if |tree| > 1 {
      PathLength(tree[1..], index / 2);
    }
  }

  /** One level of a proof: the sibling part of the leaf level takes the verifier to the parent on the level above. */
  lemma RecomputeStep(H: Hash, leaves: seq<string>, i: nat, rest: seq<string>)
    requires 1 < |leaves| && i < |leaves|
    ensures var next := NextLevel(H, leaves);
      && i / 2 < |next|
      && Recompute(H, |leaves|, i, leaves[i], SiblingPart(leaves, i) + rest)
         == Recompute(H, (|leaves| + 1) / 2, i / 2, next[i / 2], rest)
  {
    var next := NextLevel(H, leaves);
    var up := next[i / 2];
    assert up == Parent(H, leaves, i / 2);
    if Sibling(i) < |leaves| {
      var sib := leaves[Sibling(i)];
      assert SiblingPart(leaves, i) == [sib];
      assert ([sib] + rest)[0] == sib && ([sib] + rest)[1..] == rest;
      if i % 2 == 0 {
        assert up == H(leaves[i] + sib);
      } else {
        assert 2 * (i / 2) == i - 1;
        assert up == H(sib + leaves[i]);
      }
    } else {
      assert SiblingPart(leaves, i) + rest == rest;
      assert up == H(leaves[i] + leaves[i]);
    }
  }

  /** The inclusion proof of every leaf leads back to the root. */
  lemma {:induction false} ProofRoundTrip(H: Hash, leaves: seq<string>, i: nat)
    requires i < |leaves|
    ensures Recompute(H, |leaves|, i, leaves[i], Path(Levels(H, leaves), i)) == Some(Root(H, leaves))
    decreases |leaves|
  {
    if |leaves| > 1 {
      var next := NextLevel(H, leaves);
      var t := Levels(H, leaves);
      assert t == [leaves] + Levels(H, next);
      assert t[1..] == Levels(H, next);
      var rest := Path(Levels(H, next), i / 2);
      assert Path(t, i) == SiblingPart(leaves, i) + rest;
      RecomputeStep(H, leaves, i, rest);
      ProofRoundTrip(H, next, i / 2);
    }
  }

  /** The root of two or more leaves is a hash output. */
  lemma {:induction false} RootIsDigest(H: Hash, leaves: seq<string>)
    requires |leaves| > 1
    ensures exists s :: Root(H, leaves) == H(s)
    decreases |leaves|
  {
    var next := NextLevel(H, leaves);
    if |next| > 1 {
      RootIsDigest(H, next);
    } else {
      assert Root(H, leaves) == next[0] == Parent(H, leaves, 0);
    }
  }

  /** In a tree of nine leaves the proof of the last leaf has exactly one entry: its level-3 sibling. */
  lemma NineLeafProof(H: Hash, leaves: seq<string>)
    requires |leaves| == 9
    ensures var t := Levels(H, leaves);
      |t| == 5 && |t[3]| == 2 && Path(t, 8) == [t[3][0]]
  {
    var n1 := NextLevel(H, leaves);
    var n2 := NextLevel(H, n1);
    var n3 := NextLevel(H, n2);
    var n4 := NextLevel(H, n3);
    assert |n1| == 5 && |n2| == 3 && |n3| == 2 && |n4| == 1;
    assert Levels(H, n4) == [n4];
    assert Levels(H, n3) == [n3] + [n4];
    assert Levels(H, n2) == [n2] + [n3, n4];
    assert Levels(H, n1) == [n1] + [n2, n3, n4];
    var t := Levels(H, leaves);
    assert t == [leaves] + [n1, n2, n3, n4];
    assert t[1..] == [n1, n2, n3, n4];
    assert t[1..][1..] == [n2, n3, n4];
    assert t[1..][1..][1..] == [n3, n4];
    assert t[1..][1..][1..][1..] == [n4];
    assert Path(t, 8) == SiblingPart(leaves, 8) + Path([n1, n2, n3, n4], 4);
    assert Path([n1, n2, n3, n4], 4) == SiblingPart(n1, 4) + Path([n2, n3, n4], 2);
    assert Path([n2, n3, n4], 2) == SiblingPart(n2, 2) + Path([n3, n4], 1);
    assert Path([n3, n4], 1) == SiblingPart(n3, 1) + Path([n4], 0);
  }

  /** Walking a proof from level `level` contributes that level's sibling, then the walk from the level above. */
  lemma PathStep(tree: seq<seq<string>>, level: nat, index: nat)
    requires level + 1 < |tree|
    ensures Path(tree[level..], index) == SiblingPart(tree[level], index) + Path(tree[level + 1..], index / 2)
  {
    assert tree[level..][0] == tree[level] && tree[level..][1..] == tree[level + 1..];
  }

  /** `_build_tree`: level by level, pairing adjacent nodes, until one node is left. */
  method BuildTree(H: Hash, leaves: seq<string>) returns (tree: seq<seq<string>>)
    ensures tree == Levels(H, leaves)
  {
    if |leaves| == 0 {
      return [];
    }
    var current := leaves;
    tree := [current];
    while |current| > 1
      invariant current != []
      invariant tree + Levels(H, current)[1..] == Levels(H, leaves)
      decreases |current|
    {
      var next: seq<string> := [];
      var i := 0;
      while i < |current|
        invariant i % 2 == 0 && 0 <= i <= |current| + 1
        invariant |next| == i / 2
        invariant forall j :: 0 <= j < |next| ==> next[j] == Parent(H, current, j)
        decreases |current| - i
      {
        var left := current[i];
        var right := if i + 1 < |current| then current[i + 1] else left;
        next := next + [H(left + right)];
        i := i + 2;
      }
      assert next == NextLevel(H, current);
      assert Levels(H, current) == [current] + Levels(H, next);
      assert Levels(H, next)[0] == next;
      assert Levels(H, next) == [next] + Levels(H, next)[1..];
      current := next;
      tree := tree + [current];
    }
  }

  /** A built tree. Its fields never change after construction. */
  class MerkleTree {
    const hash: Hash
    const leaves: seq<string>
    const tree: seq<seq<string>>
    const root: string

    ghost predicate Valid() {
      tree == Levels(hash, leaves) && root == Root(hash, leaves)
    }

    constructor (hash: Hash, leaves: seq<string>)
      ensures this.hash == hash && this.leaves == leaves && Valid()
    {
      this.hash := hash;
      this.leaves := leaves;
      var t := BuildTree(hash, leaves);
      LevelsShape(hash, leaves);
      this.tree := t;
      this.root := if t == [] then "" else t[|t| - 1][0];
    }

    /** `get_proof`: no proof for an index past the leaves; otherwise the sibling path. */
    method GetProof(leafIndex: nat) returns (proof: seq<string>)
      requires Valid()
      ensures leafIndex >= |leaves| ==> proof == []
      ensures leafIndex < |leaves| ==> proof == Path(tree, leafIndex) && |proof| <= |tree| - 1
    {
      if leafIndex >= |leaves| {
        return [];
      }
      assert tree != [];
      PathLength(tree, leafIndex);
      proof := [];
      var index := leafIndex;
      var level := 0;
      while level < |tree| - 1
        invariant 0 <= level <= |tree| - 1
        invariant proof + Path(tree[level..], index) == Path(tree, leafIndex)
      {
        PathStep(tree, level, index);
        var siblingIndex := Sibling(index);
        if siblingIndex < |tree[level]| {
          proof := proof + [tree[level][siblingIndex]];
        }
        index := index / 2;
        level := level + 1;
      }
    }
  }
}
