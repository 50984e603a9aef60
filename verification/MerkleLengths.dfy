/**
 Merkle roots of lists that repeat nothing. Padding a layer repeats a node, and only by repeating can two
 lists of different length come to share a root: a list without repetitions is determined by its root,
 length and all.
 */
module MerkleLengths {
  import opened Base
  import opened Text
  import opened Blocks
  import opened Merkle

  predicate Repeatless<T(==)>(s: seq<T>) {
    forall i, j :: 0 <= i < j < |s| ==> s[i] != s[j]
  }

  // ---------------------------------------------------------------- trees as data

  datatype Shape = Leaf(digest: Bytes) | Node(left: Shape, right: Shape)

  function Digest(c: Crypto, s: Shape): Bytes {
    match s
    case Leaf(x) => x
    case Node(l, r) => c.sha(Digest(c, l) + Digest(c, r))
  }

  /** The strings hashed at the inner nodes. */
  function NodeInputs(c: Crypto, s: Shape): set<Bytes> {
    match s
    case Leaf(_) => {}
    case Node(l, r) => {Digest(c, l) + Digest(c, r)} + NodeInputs(c, l) + NodeInputs(c, r)
  }

  /** All leaves at depth d, each of them a digest. */
  predicate Full(s: Shape, d: nat) {
    match s
    case Leaf(x) => d == 0 && |x| == 32
    case Node(l, r) => d > 0 && Full(l, d - 1) && Full(r, d - 1)
  }

  function First(s: Shape): Bytes {
    match s
    case Leaf(x) => x
    case Node(l, _) => First(l)
  }

  lemma DigestHas32(c: Crypto, s: Shape, d: nat)
    requires DigestsHave32Bytes(c) && Full(s, d)
    ensures |Digest(c, s)| == 32
  {
  }

  ghost predicate Faithful(c: Crypto, inputs: set<Bytes>) {
    DigestsHave32Bytes(c) && NoCollision(c, inputs)
  }

  /** Equal digests of two nodes have equal children, whatever their depths. */
  lemma ChildrenAgree(c: Crypto, s: Shape, ds: nat, t: Shape, dt: nat, inputs: set<Bytes>)
    requires Faithful(c, inputs) && s.Node? && t.Node? && Full(s, ds) && Full(t, dt)
    requires NodeInputs(c, s) <= inputs && NodeInputs(c, t) <= inputs && Digest(c, s) == Digest(c, t)
    ensures Digest(c, s.left) == Digest(c, t.left) && Digest(c, s.right) == Digest(c, t.right)
  {
    DigestHas32(c, s.left, ds - 1);
    DigestHas32(c, t.left, dt - 1);
    EqualNodesEqualChildren(c, inputs, Digest(c, s.left), Digest(c, s.right), Digest(c, t.left), Digest(c, t.right));
  }

  /** Trees of one depth with one digest are one tree. */
  lemma {:induction false} ShapesAgree(c: Crypto, s: Shape, t: Shape, d: nat, inputs: set<Bytes>)
    requires Faithful(c, inputs) && Full(s, d) && Full(t, d)
    requires NodeInputs(c, s) <= inputs && NodeInputs(c, t) <= inputs && Digest(c, s) == Digest(c, t)
    ensures s == t
    decreases d
  {
    if d > 0 {
      ChildrenAgree(c, s, d, t, d, inputs);
      ShapesAgree(c, s.left, t.left, d - 1, inputs);
      ShapesAgree(c, s.right, t.right, d - 1, inputs);
    }
  }

  /** If a shallower tree has a deeper one's digest, its first leaf is the digest of an inner input. */
  lemma {:induction false} ShallowLeafIsNode(c: Crypto, s: Shape, ds: nat, t: Shape, dt: nat, inputs: set<Bytes>)
    requires ds < dt && Faithful(c, inputs) && Full(s, ds) && Full(t, dt)
    requires NodeInputs(c, s) <= inputs && NodeInputs(c, t) <= inputs && Digest(c, s) == Digest(c, t)
    ensures exists x :: x in NodeInputs(c, t) && First(s) == c.sha(x)
    decreases ds
  {
    if ds == 0 {
      assert Digest(c, t.left) + Digest(c, t.right) in NodeInputs(c, t);
    } else {
      ChildrenAgree(c, s, ds, t, dt, inputs);
      ShallowLeafIsNode(c, s.left, ds - 1, t.left, dt - 1, inputs);
    }
  }

  // ---------------------------------------------------------------- the tree of a list

  /** What lies below the left child. */
  function LeftPart(leaves: seq<Bytes>, d: nat): seq<Bytes>
    requires d > 0
  {
    if |leaves| <= Pow2(d - 1) then leaves else leaves[..Pow2(d - 1)]
  }

  /** What lies below the right child, which is the left one again if there are too few leaves. */
  function RightPart(leaves: seq<Bytes>, d: nat): seq<Bytes>
    requires d > 0
  {
    if |leaves| <= Pow2(d - 1) then leaves else leaves[Pow2(d - 1)..]
  }

  lemma PartSizes(leaves: seq<Bytes>, d: nat)
    requires d > 0 && 0 < |leaves| <= Pow2(d)
    ensures 0 < |LeftPart(leaves, d)| <= Pow2(d - 1) && 0 < |RightPart(leaves, d)| <= Pow2(d - 1)
    ensures LeftPart(leaves, d)[0] == leaves[0]
    ensures |leaves| > Pow2(d - 1) ==> RightPart(leaves, d)[0] == leaves[Pow2(d - 1)]
  {
  }

  lemma PartsInherit(leaves: seq<Bytes>, d: nat)
    requires d > 0 && 0 < |leaves| <= Pow2(d)
    ensures AllDigests(leaves) ==> AllDigests(LeftPart(leaves, d)) && AllDigests(RightPart(leaves, d))
    ensures Repeatless(leaves) ==> Repeatless(LeftPart(leaves, d)) && Repeatless(RightPart(leaves, d))
  {
  }

  function ShapeOf(leaves: seq<Bytes>, d: nat): Shape
    requires 0 < |leaves| <= Pow2(d)
    decreases d
  {
    if d == 0 then Leaf(leaves[0])
    else
      PartSizes(leaves, d);
      Node(ShapeOf(LeftPart(leaves, d), d - 1), ShapeOf(RightPart(leaves, d), d - 1))
  }

  lemma TreeOfParts(c: Crypto, leaves: seq<Bytes>, d: nat)
    requires d > 0 && 0 < |leaves| <= Pow2(d)
    ensures 0 < |LeftPart(leaves, d)| <= Pow2(d - 1) && 0 < |RightPart(leaves, d)| <= Pow2(d - 1)
    ensures var l, r := Tree(c, LeftPart(leaves, d), d - 1), Tree(c, RightPart(leaves, d), d - 1);
      && Tree(c, leaves, d) == c.sha(l + r)
      && TreeInputs(c, leaves, d)
         == {l + r} + TreeInputs(c, LeftPart(leaves, d), d - 1) + TreeInputs(c, RightPart(leaves, d), d - 1)
  {
    PartSizes(leaves, d);
  }

  lemma ShapeParts(leaves: seq<Bytes>, d: nat)
    requires d > 0 && 0 < |leaves| <= Pow2(d)
    ensures 0 < |LeftPart(leaves, d)| <= Pow2(d - 1) && 0 < |RightPart(leaves, d)| <= Pow2(d - 1)
    ensures ShapeOf(leaves, d) == Node(ShapeOf(LeftPart(leaves, d), d - 1), ShapeOf(RightPart(leaves, d), d - 1))
  {
    PartSizes(leaves, d);
  }

  lemma SingleTree(c: Crypto, leaves: seq<Bytes>)
    requires 0 < |leaves| <= Pow2(0)
    ensures Digest(c, ShapeOf(leaves, 0)) == Tree(c, leaves, 0) && NodeInputs(c, ShapeOf(leaves, 0)) == TreeInputs(c, leaves, 0)
  {
  }

  /** The shape of a list has the digest and the inner inputs of its tree. */
  lemma {:induction false} ShapeIsTree(c: Crypto, leaves: seq<Bytes>, d: nat)
    requires 0 < |leaves| <= Pow2(d)
    ensures Digest(c, ShapeOf(leaves, d)) == Tree(c, leaves, d) && NodeInputs(c, ShapeOf(leaves, d)) == TreeInputs(c, leaves, d)
    decreases d
  {
    hide ShapeOf, Tree, TreeInputs, LeftPart, RightPart, Pow2;
    if d == 0 {
      SingleTree(c, leaves);
    } else {
      ShapeParts(leaves, d);
      TreeOfParts(c, leaves, d);
      ShapeIsTree(c, LeftPart(leaves, d), d - 1);
      ShapeIsTree(c, RightPart(leaves, d), d - 1);
    }
  }

  lemma {:induction false} ShapeIsFull(leaves: seq<Bytes>, d: nat)
    requires 0 < |leaves| <= Pow2(d)
    ensures First(ShapeOf(leaves, d)) == leaves[0] && (AllDigests(leaves) ==> Full(ShapeOf(leaves, d), d))
    decreases d
  {
    if d > 0 {
      hide ShapeOf, LeftPart, RightPart, AllDigests, Repeatless;
      PartSizes(leaves, d);
      PartsInherit(leaves, d);
      hide Pow2;
      ShapeParts(leaves, d);
      ShapeIsFull(LeftPart(leaves, d), d - 1);
      ShapeIsFull(RightPart(leaves, d), d - 1);
    }
  }

  /** Only a list that leaves half the tree to padding has two equal halves. */
  lemma HalvesDiffer(leaves: seq<Bytes>, d: nat)
    requires d > 0 && 0 < |leaves| <= Pow2(d) && Repeatless(leaves)
    ensures ShapeOf(leaves, d).Node?
    ensures ShapeOf(leaves, d).left == ShapeOf(leaves, d).right <==> |leaves| <= Pow2(d - 1)
  {
    PartSizes(leaves, d);
    ShapeParts(leaves, d);
    ShapeIsFull(LeftPart(leaves, d), d - 1);
    ShapeIsFull(RightPart(leaves, d), d - 1);
    hide ShapeOf, First, Full;
  }

  lemma SingleShapes(a: seq<Bytes>, b: seq<Bytes>)
    requires 0 < |a| <= Pow2(0) && 0 < |b| <= Pow2(0) && ShapeOf(a, 0) == ShapeOf(b, 0)
    ensures a == b
  {
    assert a == [a[0]] && b == [b[0]];
  }

  lemma {:induction false} ShapeFixesList(a: seq<Bytes>, b: seq<Bytes>, d: nat)
    requires 0 < |a| <= Pow2(d) && 0 < |b| <= Pow2(d) && Repeatless(a) && Repeatless(b) && ShapeOf(a, d) == ShapeOf(b, d)
    ensures a == b
    decreases d
  {
    hide Repeatless, LeftPart, RightPart, ShapeOf, AllDigests, Pow2;
    if d == 0 {
      SingleShapes(a, b);
    } else {
      PartsInherit(a, d);
      PartsInherit(b, d);
      ShapeParts(a, d);
      ShapeParts(b, d);
      HalvesDiffer(a, d);
      HalvesDiffer(b, d);
      ShapeFixesList(LeftPart(a, d), LeftPart(b, d), d - 1);
      ShapeFixesList(RightPart(a, d), RightPart(b, d), d - 1);
      PartsMakeWhole(a, b, d);
    }
  }

  lemma PartsMakeWhole(a: seq<Bytes>, b: seq<Bytes>, d: nat)
    requires d > 0 && (|a| <= Pow2(d - 1) <==> |b| <= Pow2(d - 1))
    requires LeftPart(a, d) == LeftPart(b, d) && RightPart(a, d) == RightPart(b, d)
    ensures a == b
  {
    if |a| > Pow2(d - 1) {
      assert a == LeftPart(a, d) + RightPart(a, d) && b == LeftPart(b, d) + RightPart(b, d);
    }
  }

  // ---------------------------------------------------------------- transaction lists

  /** No transaction hash is at the same time the input of an inner node. (One is hex, the other raw.) */
  ghost predicate Apart(c: Crypto, xs: seq<Transaction>, ys: seq<Transaction>) {
    xs != [] && ys != [] ==>
      forall i :: 0 <= i < |xs| ==> TxHash(c, xs[i]) !in TreeInputs(c, Leaves(c, ys), Depth(|ys|))
  }

  predicate HashesDiffer(c: Crypto, txs: seq<Transaction>) {
    forall i, j :: 0 <= i < j < |txs| ==> TxHash(c, txs[i]) != TxHash(c, txs[j])
  }

  lemma LeavesAreDigests(c: Crypto, txs: seq<Transaction>, inputs: set<Bytes>)
    requires DigestsHave32Bytes(c) && txs != [] && RootInputs(c, txs) <= inputs
    ensures AllDigests(Leaves(c, txs)) && TreeInputs(c, Leaves(c, txs), Depth(|txs|)) <= inputs
    ensures forall i :: 0 <= i < |txs| ==> TxHash(c, txs[i]) in inputs && Leaves(c, txs)[i] == c.sha(TxHash(c, txs[i]))
  {
    hide TxHash;
    forall i | 0 <= i < |txs| ensures |Leaves(c, txs)[i]| == 32 && TxHash(c, txs[i]) in inputs {
      assert Leaves(c, txs)[i] == c.sha(TxHash(c, txs[i]));
      assert TxHash(c, txs[i]) in RootInputs(c, txs);
    }
  }

  /** The tree of a list's leaves, as data. */
  function ShapeOfTxs(c: Crypto, txs: seq<Transaction>): Shape
    requires txs != []
  {
    ShapeOf(Leaves(c, txs), Depth(|txs|))
  }

  /** All that is needed of that tree. */
  lemma ShapeFacts(c: Crypto, txs: seq<Transaction>, inputs: set<Bytes>)
    requires DigestsHave32Bytes(c) && txs != [] && RootInputs(c, txs) <= inputs
    ensures var s := ShapeOfTxs(c, txs);
      && Full(s, Depth(|txs|)) && NodeInputs(c, s) <= inputs && NodeInputs(c, s) == TreeInputs(c, Leaves(c, txs), Depth(|txs|))
      && First(s) == c.sha(TxHash(c, txs[0])) && TxHash(c, txs[0]) in inputs
      && MerkleRoot(c, txs) == HexEncode(Digest(c, s))
  {
    LeavesAreDigests(c, txs, inputs);
    ShapeIsTree(c, Leaves(c, txs), Depth(|txs|));
    ShapeIsFull(Leaves(c, txs), Depth(|txs|));
    hide Tree, TreeInputs, Leaves, TxHash, HexEncode, Full, First, Digest, NodeInputs, RootInputs;
  }

  lemma LeavesRepeatless(c: Crypto, txs: seq<Transaction>, inputs: set<Bytes>)
    requires NoCollision(c, inputs) && HashesDiffer(c, txs)
    requires forall i :: 0 <= i < |txs| ==> TxHash(c, txs[i]) in inputs
    ensures Repeatless(Leaves(c, txs))
  {
    hide TxHash;
    var leaves := Leaves(c, txs);
    forall i, j | 0 <= i < j < |leaves| ensures leaves[i] != leaves[j] {
      assert leaves[i] == c.sha(TxHash(c, txs[i])) && leaves[j] == c.sha(TxHash(c, txs[j]));
    }
  }

  /** Equal roots of two lists, neither empty, come from one depth. */
  lemma SameDepth(c: Crypto, xs: seq<Transaction>, ys: seq<Transaction>, inputs: set<Bytes>)
    requires Faithful(c, inputs) && xs != [] && ys != [] && RootInputs(c, xs) <= inputs && RootInputs(c, ys) <= inputs
    requires MerkleRoot(c, xs) == MerkleRoot(c, ys) && Apart(c, xs, ys)
    ensures Depth(|xs|) >= Depth(|ys|)
  {
    var s, t := ShapeOfTxs(c, xs), ShapeOfTxs(c, ys);
    ShapeFacts(c, xs, inputs);
    ShapeFacts(c, ys, inputs);
    HexInjective(Digest(c, s), Digest(c, t));
    hide TreeInputs, TxHash, Leaves, Depth, RootInputs, MerkleRoot, HexEncode, Full, First, Digest, NodeInputs, ShapeOfTxs;
    if Depth(|xs|) < Depth(|ys|) {
      ShallowLeafIsNode(c, s, Depth(|xs|), t, Depth(|ys|), inputs);
    }
  }

  lemma RootIsNotEmptys(c: Crypto, s: Shape, d: nat, x: Bytes, inputs: set<Bytes>)
    requires Faithful(c, inputs) && Full(s, d) && NodeInputs(c, s) <= inputs && [] in inputs
    requires First(s) == c.sha(x) && x in inputs && x != []
    ensures Digest(c, s) != c.sha([])
  {
    if s.Node? {
      DigestHas32(c, s.left, d - 1);
      assert Digest(c, s.left) + Digest(c, s.right) in inputs;
    }
  }

  lemma EmptyRootDiffers(c: Crypto, ys: seq<Transaction>, inputs: set<Bytes>)
    requires Faithful(c, inputs) && ys != [] && [] in inputs && RootInputs(c, ys) <= inputs
    ensures MerkleRoot(c, ys) != MerkleRoot(c, [])
  {
    var s := ShapeOfTxs(c, ys);
    ShapeFacts(c, ys, inputs);
    assert |c.sha(TxSigningBytes(ys[0]) + ys[0].signature)| == 32 && |TxHash(c, ys[0])| == 64;
    hide TreeInputs, TxHash, Leaves, RootInputs, Full, First, Digest, NodeInputs, ShapeOfTxs;
    RootIsNotEmptys(c, s, Depth(|ys|), TxHash(c, ys[0]), inputs);
    if MerkleRoot(c, ys) == MerkleRoot(c, []) {
      HexInjective(Digest(c, s), c.sha([]));
    }
  }

  lemma NonEmptyRootsEqual(c: Crypto, xs: seq<Transaction>, ys: seq<Transaction>, inputs: set<Bytes>)
    requires Faithful(c, inputs) && xs != [] && ys != [] && RootInputs(c, xs) <= inputs && RootInputs(c, ys) <= inputs
    requires Apart(c, xs, ys) && Apart(c, ys, xs) && HashesDiffer(c, xs) && HashesDiffer(c, ys)
    requires MerkleRoot(c, xs) == MerkleRoot(c, ys)
    ensures Leaves(c, xs) == Leaves(c, ys)
  {
    var s, t := ShapeOfTxs(c, xs), ShapeOfTxs(c, ys);
    LeavesAreDigests(c, xs, inputs);
    LeavesAreDigests(c, ys, inputs);
    LeavesRepeatless(c, xs, inputs);
    LeavesRepeatless(c, ys, inputs);
    ShapeFacts(c, xs, inputs);
    ShapeFacts(c, ys, inputs);
    SameDepth(c, xs, ys, inputs);
    SameDepth(c, ys, xs, inputs);
    hide RootInputs, HexEncode, Apart, TxHash, TreeInputs, MerkleRoot, Full, Digest, NodeInputs, Repeatless, HashesDiffer, Leaves;
    HexInjective(Digest(c, s), Digest(c, t));
    ShapesAgree(c, s, t, Depth(|xs|), inputs);
    ShapeFixesList(Leaves(c, xs), Leaves(c, ys), Depth(|xs|));
  }

  lemma EqualLeavesEqualHashes(c: Crypto, xs: seq<Transaction>, ys: seq<Transaction>, inputs: set<Bytes>)
    requires Faithful(c, inputs) && RootInputs(c, xs) <= inputs && RootInputs(c, ys) <= inputs
    requires xs != [] && ys != [] && Leaves(c, xs) == Leaves(c, ys)
    ensures |xs| == |ys| && forall i :: 0 <= i < |xs| ==> TxHash(c, xs[i]) == TxHash(c, ys[i])
  {
    LeavesAreDigests(c, xs, inputs);
    LeavesAreDigests(c, ys, inputs);
    assert |xs| == |Leaves(c, xs)| == |ys|;
    hide TxHash, RootInputs, Leaves, TreeInputs, AllDigests;
    forall i | 0 <= i < |xs| ensures TxHash(c, xs[i]) == TxHash(c, ys[i]) {
      assert c.sha(TxHash(c, xs[i])) == Leaves(c, xs)[i] == Leaves(c, ys)[i] == c.sha(TxHash(c, ys[i]));
    }
  }

  /**
   Two lists without repeated hashes and with one root have the same hashes in the same order, of whatever
   length they are, unless two of the strings hashed for them collide or a transaction hash is an inner
   node's input.
   */
  lemma RepeatlessRootsEqual(c: Crypto, xs: seq<Transaction>, ys: seq<Transaction>)
    requires Faithful(c, RootInputs(c, xs) + RootInputs(c, ys)) && Apart(c, xs, ys) && Apart(c, ys, xs)
    requires HashesDiffer(c, xs) && HashesDiffer(c, ys) && MerkleRoot(c, xs) == MerkleRoot(c, ys)
    ensures |xs| == |ys| && forall i :: 0 <= i < |xs| ==> TxHash(c, xs[i]) == TxHash(c, ys[i])
  {
    var inputs := RootInputs(c, xs) + RootInputs(c, ys);
    assert (xs == [] ==> [] in RootInputs(c, xs)) && (ys == [] ==> [] in RootInputs(c, ys));
    hide RootInputs, Apart, HashesDiffer, TxHash, MerkleRoot;
    if xs == [] && ys != [] {
      EmptyRootDiffers(c, ys, inputs);
    } else if ys == [] && xs != [] {
      EmptyRootDiffers(c, xs, inputs);
    } else if xs != [] {
      NonEmptyRootsEqual(c, xs, ys, inputs);
      EqualLeavesEqualHashes(c, xs, ys, inputs);
    }
  }
}
