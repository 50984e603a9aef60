/**
 The Merkle root of a block's transactions (ComputeMerkleRoot): the layered loop, the tree it
 computes, and what an equal root says about two transaction lists.
 */
module Merkle {
  import opened Base
  import opened Text
  import opened Blocks

  // ---------------------------------------------------------------- the layered form

  /** One pass of the loop: hash neighbours together, the last with itself when it has none. */
  function NextLayer(c: Crypto, layer: seq<Bytes>): (r: seq<Bytes>)
    requires layer != []
    ensures |layer| <= 2 * |r| <= |layer| + 1
  {
    if |layer| <= 2 then [c.sha(layer[0] + layer[|layer| - 1])]
    else [c.sha(layer[0] + layer[1])] + NextLayer(c, layer[2..])
  }

  function Leaves(c: Crypto, txs: seq<Transaction>): (r: seq<Bytes>)
    ensures |r| == |txs|
  {
    seq(|txs|, i requires 0 <= i < |txs| => c.sha(TxHash(c, txs[i])))
  }

  // ---------------------------------------------------------------- the tree

  function Pow2(d: nat): (p: nat)
    ensures p > 0
  {
    if d == 0 then 1 else 2 * Pow2(d - 1)
  }

  /**
   The root of the tree of depth `d` over `leaves`: the left half holds 2^(d-1) leaves, the right
   half the rest, and a missing right half repeats the left one.
   */
  function Tree(c: Crypto, leaves: seq<Bytes>, d: nat): Bytes
    requires 0 < |leaves| <= Pow2(d)
    decreases d
  {
    if d == 0 then leaves[0]
    else if |leaves| <= Pow2(d - 1) then
      var left := Tree(c, leaves, d - 1);
      c.sha(left + left)
    else
      c.sha(Tree(c, leaves[..Pow2(d - 1)], d - 1) + Tree(c, leaves[Pow2(d - 1)..], d - 1))
  }

  /** The least depth that holds `n` leaves. */
  function Depth(n: nat): (d: nat)
    requires n > 0
    ensures n <= Pow2(d)
    ensures d > 0 ==> n > Pow2(d - 1)
  {
    if n == 1 then 0 else Depth((n + 1) / 2) + 1
  }

  function TreeOf(c: Crypto, leaves: seq<Bytes>): Bytes
    requires leaves != []
  {
    Tree(c, leaves, Depth(|leaves|))
  }

  /** MerkleRoot as a function of the transactions. */
  function MerkleRoot(c: Crypto, txs: seq<Transaction>): Bytes {
    if txs == [] then HexEncode(c.sha([])) else HexEncode(TreeOf(c, Leaves(c, txs)))
  }

  // ---------------------------------------------------------------- layers compute the tree

  lemma NextLayerCons(c: Crypto, a: seq<Bytes>)
    requires |a| > 2
    ensures NextLayer(c, a) == [c.sha(a[0] + a[1])] + NextLayer(c, a[2..])
  {
  }

  lemma NextLayerOfTwo(c: Crypto, a: seq<Bytes>)
    requires |a| == 2
    ensures NextLayer(c, a) == [c.sha(a[0] + a[1])]
  {
  }

  lemma {:induction false} NextLayerOfHalves(c: Crypto, a: seq<Bytes>, b: seq<Bytes>, k: nat)
    requires |a| == 2 * k > 0 && b != []
    ensures NextLayer(c, a + b) == NextLayer(c, a) + NextLayer(c, b)
  {
    var s, rest := a + b, a[2..];
    assert s[2..] == rest + b && s[0] == a[0] && s[1] == a[1];
    assert NextLayer(c, s) == [c.sha(a[0] + a[1])] + NextLayer(c, rest + b);
    hide NextLayer;
    if k > 1 {
      NextLayerOfHalves(c, rest, b, k - 1);
      NextLayerCons(c, a);
    } else {
      assert rest + b == b;
      NextLayerOfTwo(c, a);
    }
  }

  /** Repeating the last node of an odd layer changes nothing. */
  lemma {:induction false} PaddingIsImplied(c: Crypto, layer: seq<Bytes>)
    requires |layer| % 2 == 1
    ensures NextLayer(c, layer + [layer[|layer| - 1]]) == NextLayer(c, layer)
  {
    if |layer| > 1 {
      PaddingIsImplied(c, layer[2..]);
      assert (layer + [layer[|layer| - 1]])[2..] == layer[2..] + [layer[2..][|layer| - 3]];
    }
  }

  lemma TreeOfHalves(c: Crypto, a: seq<Bytes>, b: seq<Bytes>, d: nat)
    requires |a| == Pow2(d) && 0 < |b| <= Pow2(d)
    ensures |a + b| <= Pow2(d + 1)
    ensures Tree(c, a + b, d + 1) == c.sha(Tree(c, a, d) + Tree(c, b, d))
  {
    assert (a + b)[..Pow2(d)] == a && (a + b)[Pow2(d)..] == b;
  }

  /** One pass of the loop takes the bottom level off the tree. */
  lemma {:induction false} LayerStep(c: Crypto, leaves: seq<Bytes>, d: nat)
    requires 0 < |leaves| <= Pow2(d + 1)
    ensures Tree(c, leaves, d + 1) == Tree(c, NextLayer(c, leaves), d)
    decreases d
  {
    if d == 0 {
      if |leaves| == 2 {
        assert leaves[..1] == [leaves[0]] && leaves[1..] == [leaves[1]];
      }
    } else if |leaves| <= Pow2(d) {
      LayerStep(c, leaves, d - 1);
    } else {
      assert leaves == leaves[..Pow2(d)] + leaves[Pow2(d)..];
      LayerStepBothHalves(c, leaves[..Pow2(d)], leaves[Pow2(d)..], d);
    }
  }

  lemma {:induction false} LayerStepBothHalves(c: Crypto, a: seq<Bytes>, b: seq<Bytes>, d: nat)
    requires d > 0 && |a| == Pow2(d) && 0 < |b| <= Pow2(d) && |a + b| <= Pow2(d + 1)
    ensures Tree(c, a + b, d + 1) == Tree(c, NextLayer(c, a + b), d)
    decreases d, 0
  {
    hide Tree, NextLayer;
    NextLayerOfHalves(c, a, b, Pow2(d - 1));
    LayerStep(c, a, d - 1);
    LayerStep(c, b, d - 1);
    HalvesAgree(c, a, b, NextLayer(c, a), NextLayer(c, b), d);
  }

  lemma HalvesAgree(c: Crypto, a: seq<Bytes>, b: seq<Bytes>, na: seq<Bytes>, nb: seq<Bytes>, d: nat)
    requires d > 0 && |a| == Pow2(d) && 0 < |b| <= Pow2(d) && |na| == Pow2(d - 1) && 0 < |nb| <= Pow2(d - 1)
    requires Tree(c, a, d) == Tree(c, na, d - 1) && Tree(c, b, d) == Tree(c, nb, d - 1)
    ensures |a + b| <= Pow2(d + 1) && |na + nb| <= Pow2(d)
    ensures Tree(c, a + b, d + 1) == Tree(c, na + nb, d)
  {
    TreeOfHalves(c, a, b, d);
    TreeOfHalves(c, na, nb, d - 1);
  }

  lemma LayerKeepsRoot(c: Crypto, layer: seq<Bytes>)
    requires |layer| > 1
    ensures TreeOf(c, NextLayer(c, layer)) == TreeOf(c, layer)
  {
    hide Tree, NextLayer;
    LayerStep(c, layer, Depth(|layer|) - 1);
  }

  /** The layer above what is left of an even layer from index i on. */
  function Remaining(c: Crypto, layer: seq<Bytes>, i: nat): seq<Bytes>
    requires i <= |layer|
  {
    if i == |layer| then [] else NextLayer(c, layer[i..])
  }

  lemma OnePair(c: Crypto, layer: seq<Bytes>, i: nat)
    requires i + 2 <= |layer|
    ensures Remaining(c, layer, i) == [c.sha(layer[i] + layer[i + 1])] + Remaining(c, layer, i + 2)
  {
    var rest := layer[i..];
    assert rest[0] == layer[i] && rest[1] == layer[i + 1];
    assert rest[2..] == layer[i + 2..];
  }

  lemma AllRemaining(c: Crypto, layer: seq<Bytes>)
    requires layer != []
    ensures Remaining(c, layer, 0) == NextLayer(c, layer) && Remaining(c, layer, |layer|) == []
  {
    assert layer[0..] == layer;
  }

  /** The inner loop, over a layer of even length. */
  method CombinePairs(c: Crypto, layer: seq<Bytes>, ghost pairs: nat) returns (next: seq<Bytes>)
    requires |layer| == 2 * pairs > 0
    ensures next == NextLayer(c, layer)
  {
    AllRemaining(c, layer);
    hide Remaining, NextLayer;
    next := [];
    var i := 0;
    ghost var done := 0;
    while i < |layer|
      invariant 0 <= i == 2 * done <= |layer|
      invariant NextLayer(c, layer) == next + Remaining(c, layer, i)
    {
      OnePair(c, layer, i);
      next := next + [c.sha(layer[i] + layer[i + 1])];
      i, done := i + 2, done + 1;
    }
  }

  method BuildLeaves(c: Crypto, txs: seq<Transaction>) returns (layer: seq<Bytes>)
    ensures layer == Leaves(c, txs)
  {
    hide TxHash;
    layer := [];
    for i := 0 to |txs|
      invariant |layer| == i && forall k :: 0 <= k < i ==> layer[k] == c.sha(TxHash(c, txs[k]))
    {
      layer := layer + [c.sha(TxHash(c, txs[i]))];
    }
  }

  lemma RootOfOne(c: Crypto, layer: seq<Bytes>)
    requires |layer| == 1
    ensures TreeOf(c, layer) == layer[0]
  {
  }

  /** The outer loop: pad an odd layer, combine its pairs, until one digest is left. */
  method FoldLayers(c: Crypto, leaves: seq<Bytes>) returns (root: Bytes)
    requires leaves != []
    ensures root == TreeOf(c, leaves)
  {
    hide TreeOf, NextLayer;
    var layer := leaves;
    while |layer| > 1
      invariant layer != [] && TreeOf(c, layer) == TreeOf(c, leaves)
    {
      LayerKeepsRoot(c, layer);
      if |layer| % 2 == 1 {
        PaddingIsImplied(c, layer);
        layer := layer + [layer[|layer| - 1]];
      }
      layer := CombinePairs(c, layer, |layer| / 2);
    }
    RootOfOne(c, layer);
    root := layer[0];
  }

  /** ComputeMerkleRoot. */
  method ComputeMerkleRoot(c: Crypto, b: Block) returns (r: Block)
    ensures r == b.(merkleRoot := MerkleRoot(c, b.transactions))
  {
    if |b.transactions| == 0 {
      return b.(merkleRoot := HexEncode(c.sha([])));
    }
    var leaves := BuildLeaves(c, b.transactions);
    var root := FoldLayers(c, leaves);
    r := b.(merkleRoot := HexEncode(root));
  }

  // ---------------------------------------------------------------- what a root commits to

  /** Every string hashed while computing the tree above its leaves. */
  function TreeInputs(c: Crypto, leaves: seq<Bytes>, d: nat): set<Bytes>
    requires 0 < |leaves| <= Pow2(d)
    decreases d
  {
    if d == 0 then {}
    else if |leaves| <= Pow2(d - 1) then
      var left := Tree(c, leaves, d - 1);
      {left + left} + TreeInputs(c, leaves, d - 1)
    else
      var a, b := leaves[..Pow2(d - 1)], leaves[Pow2(d - 1)..];
      {Tree(c, a, d - 1) + Tree(c, b, d - 1)} + TreeInputs(c, a, d - 1) + TreeInputs(c, b, d - 1)
  }

  /** Every string hashed while computing the root of `txs`, from the transactions' hashes up; the empty one for none. */
  function RootInputs(c: Crypto, txs: seq<Transaction>): set<Bytes> {
    (set i | 0 <= i < |txs| :: TxHash(c, txs[i]))
    + if txs == [] then {[]} else TreeInputs(c, Leaves(c, txs), Depth(|txs|))
  }

  ghost predicate AllDigests(s: seq<Bytes>) {
    forall i :: 0 <= i < |s| ==> |s[i]| == 32
  }

  lemma TreeIsDigest(c: Crypto, leaves: seq<Bytes>, d: nat)
    requires DigestsHave32Bytes(c) && AllDigests(leaves) && 0 < |leaves| <= Pow2(d)
    ensures |Tree(c, leaves, d)| == 32
  {
  }

  lemma EqualNodesEqualChildren(c: Crypto, inputs: set<Bytes>, l1: Bytes, r1: Bytes, l2: Bytes, r2: Bytes)
    requires NoCollision(c, inputs) && l1 + r1 in inputs && l2 + r2 in inputs
    requires |l1| == |l2| && c.sha(l1 + r1) == c.sha(l2 + r2)
    ensures l1 == l2 && r1 == r2
  {
    PrefixCancels(l1, l2, r1, r2);
  }

  lemma {:induction false} EqualTreesEqualLeaves(c: Crypto, a: seq<Bytes>, b: seq<Bytes>, d: nat, inputs: set<Bytes>)
    requires DigestsHave32Bytes(c) && AllDigests(a) && AllDigests(b)
    requires 0 < |a| == |b| <= Pow2(d)
    requires Tree(c, a, d) == Tree(c, b, d)
    requires NoCollision(c, inputs) && TreeInputs(c, a, d) <= inputs && TreeInputs(c, b, d) <= inputs
    ensures a == b
    decreases d, 0
  {
    hide Tree, TreeInputs;
    if d == 0 {
      EqualSingletons(c, a, b);
    } else if |a| <= Pow2(d - 1) {
      EqualShallowTrees(c, a, b, d - 1, inputs);
      EqualTreesEqualLeaves(c, a, b, d - 1, inputs);
    } else {
      var half := Pow2(d - 1);
      assert a[..half] + a[half..] == a && b[..half] + b[half..] == b;
      EqualHalves(c, a[..half], a[half..], b[..half], b[half..], d - 1, inputs);
    }
  }

  lemma EqualSingletons(c: Crypto, a: seq<Bytes>, b: seq<Bytes>)
    requires 0 < |a| == |b| <= Pow2(0)
    requires Tree(c, a, 0) == Tree(c, b, 0)
    ensures a == b
  {
    assert a == [a[0]] && b == [b[0]];
  }

  lemma EqualShallowTrees(c: Crypto, a: seq<Bytes>, b: seq<Bytes>, d: nat, inputs: set<Bytes>)
    requires DigestsHave32Bytes(c) && AllDigests(a) && AllDigests(b)
    requires 0 < |a| == |b| <= Pow2(d)
    requires Tree(c, a, d + 1) == Tree(c, b, d + 1)
    requires NoCollision(c, inputs) && TreeInputs(c, a, d + 1) <= inputs && TreeInputs(c, b, d + 1) <= inputs
    ensures Tree(c, a, d) == Tree(c, b, d)
    ensures TreeInputs(c, a, d) <= inputs && TreeInputs(c, b, d) <= inputs
  {
    var x, y := Tree(c, a, d), Tree(c, b, d);
    TreeIsDigest(c, a, d);
    TreeIsDigest(c, b, d);
    EqualNodesEqualChildren(c, inputs, x, x, y, y);
  }

  lemma {:induction false} EqualHalves(c: Crypto, a: seq<Bytes>, a': seq<Bytes>, b: seq<Bytes>, b': seq<Bytes>,
                                       d: nat, inputs: set<Bytes>)
    requires DigestsHave32Bytes(c) && AllDigests(a) && AllDigests(a') && AllDigests(b) && AllDigests(b')
    requires |a| == |b| == Pow2(d) && 0 < |a'| == |b'| <= Pow2(d) && Pow2(d + 1) == 2 * Pow2(d)
    requires Tree(c, a + a', d + 1) == Tree(c, b + b', d + 1)
    requires NoCollision(c, inputs) && TreeInputs(c, a + a', d + 1) <= inputs && TreeInputs(c, b + b', d + 1) <= inputs
    ensures a == b && a' == b'
    decreases d, 1
  {
    hide Tree, TreeInputs;
    TreeOfHalves(c, a, a', d);
    TreeOfHalves(c, b, b', d);
    InputsOfHalves(c, a, a', d);
    InputsOfHalves(c, b, b', d);
    TreeIsDigest(c, a, d);
    TreeIsDigest(c, b, d);
    EqualNodesEqualChildren(c, inputs, Tree(c, a, d), Tree(c, a', d), Tree(c, b, d), Tree(c, b', d));
    EqualTreesEqualLeaves(c, a, b, d, inputs);
    EqualTreesEqualLeaves(c, a', b', d, inputs);
  }

  lemma InputsOfHalves(c: Crypto, a: seq<Bytes>, b: seq<Bytes>, d: nat)
    requires |a| == Pow2(d) && 0 < |b| <= Pow2(d) && |a + b| <= Pow2(d + 1)
    ensures TreeInputs(c, a + b, d + 1)
         == {Tree(c, a, d) + Tree(c, b, d)} + TreeInputs(c, a, d) + TreeInputs(c, b, d)
  {
    assert (a + b)[..Pow2(d)] == a && (a + b)[Pow2(d)..] == b;
  }

  /**
   Two transaction lists of one length with one root hold the same transaction hashes in the same
   order, unless two different strings hashed for these two roots collide.
   */
  lemma EqualRootsEqualTransactions(c: Crypto, a: seq<Transaction>, b: seq<Transaction>)
    requires DigestsHave32Bytes(c)
    requires |a| == |b| && MerkleRoot(c, a) == MerkleRoot(c, b)
    requires NoCollision(c, RootInputs(c, a) + RootInputs(c, b))
    ensures forall i :: 0 <= i < |a| ==> TxHash(c, a[i]) == TxHash(c, b[i])
  {
    if a != [] {
      var d := Depth(|a|);
      HexInjective(Tree(c, Leaves(c, a), d), Tree(c, Leaves(c, b), d));
      EqualTreesEqualLeaves(c, Leaves(c, a), Leaves(c, b), d, RootInputs(c, a) + RootInputs(c, b));
      forall i | 0 <= i < |a| ensures TxHash(c, a[i]) == TxHash(c, b[i]) {
        assert Leaves(c, a)[i] == Leaves(c, b)[i];
        assert TxHash(c, a[i]) in RootInputs(c, a) && TxHash(c, b[i]) in RootInputs(c, b);
      }
    }
  }

  /**
   The lengths must agree: an odd list of three or more and the list that repeats its last
   transaction have the same root under every hash.
   */
  lemma RepeatedLastSharesRoot(c: Crypto, txs: seq<Transaction>)
    requires |txs| >= 3 && |txs| % 2 == 1
    ensures MerkleRoot(c, txs + [txs[|txs| - 1]]) == MerkleRoot(c, txs)
  {
    var more := txs + [txs[|txs| - 1]];
    var a, b := Leaves(c, txs), Leaves(c, more);
    assert b == a + [a[|a| - 1]];
    PaddingIsImplied(c, a);
    LayerKeepsRoot(c, a);
    LayerKeepsRoot(c, b);
  }
}
