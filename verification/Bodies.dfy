/**
 What a block's header says about the transactions under it. Validators and relays agree on header
 hashes, and the code never recomputes a received block's Merkle root: this module says what that
 check would be worth.
 */
module Bodies {
  import opened Base
  import opened Text
  import opened Blocks
  import opened Merkle
  import opened MerkleLengths
  import opened Ledgers

  /** The check that neither validateProposal nor CommitBlock makes. */
  predicate RootMatches(c: Crypto, b: Block) {
    MerkleRoot(c, b.transactions) == b.merkleRoot
  }

  /** Genesis: height 0, no predecessor, no time, no transactions, and the root of none. */
  lemma GenesisIsFixed(c: Crypto)
    ensures var g := GenesisBlock(c);
      && g.height == 0 && g.prevHash == [] && g.timestamp == 0 && g.transactions == [] && g.commitSigs == []
      && RootMatches(c, g) && g.proposer == [103, 101, 110, 101, 115, 105, 115]
  {
  }

  /** The same transaction hashes in the same order. */
  predicate SameHashes(c: Crypto, xs: seq<Transaction>, ys: seq<Transaction>) {
    |xs| == |ys| && forall i :: 0 <= i < |xs| ==> TxHash(c, xs[i]) == TxHash(c, ys[i])
  }

  /** Every string hashed for a block: its header, its tree and its transactions. */
  function Inputs(c: Crypto, b: Block): set<Bytes> {
    {HeaderBytes(b)} + RootInputs(c, b.transactions) + set t | t in b.transactions :: TxSigningBytes(t) + t.signature
  }

  ghost predicate Collisionless(c: Crypto, a: Block, b: Block) {
    DigestsHave32Bytes(c) && NoCollision(c, Inputs(c, a) + Inputs(c, b))
  }

  lemma SameHashesSameRoot(c: Crypto, xs: seq<Transaction>, ys: seq<Transaction>)
    requires SameHashes(c, xs, ys)
    ensures MerkleRoot(c, xs) == MerkleRoot(c, ys)
  {
    assert Leaves(c, xs) == Leaves(c, ys);
  }

  lemma RootHas64Digits(c: Crypto, txs: seq<Transaction>)
    requires DigestsHave32Bytes(c)
    ensures |MerkleRoot(c, txs)| == 64
  {
    if txs != [] {
      forall i | 0 <= i < |txs| ensures |Leaves(c, txs)[i]| == 32 {
        assert Leaves(c, txs)[i] == c.sha(TxHash(c, txs[i]));
      }
      TreeIsDigest(c, Leaves(c, txs), Depth(|txs|));
    }
  }

  lemma EqualHashesEqualHeaders(c: Crypto, a: Block, b: Block)
    requires Collisionless(c, a, b) && BlockHash(c, a) == BlockHash(c, b)
    ensures HeaderBytes(a) == HeaderBytes(b)
  {
    HexInjective(c.sha(HeaderBytes(a)), c.sha(HeaderBytes(b)));
    assert HeaderBytes(a) in Inputs(c, a) && HeaderBytes(b) in Inputs(c, b);
    hide HeaderBytes, TxSigningBytes, RootInputs, HexEncode;
  }

  lemma HeaderLength(b: Block)
    ensures |HeaderBytes(b)| == 16 + |b.prevHash| + |b.proposer| + |b.merkleRoot|
  {
  }

  /** Two blocks whose roots match, under one header hash, agree in every header field. */
  lemma HeadersAgree(c: Crypto, a: Block, b: Block)
    requires Collisionless(c, a, b) && BlockHash(c, a) == BlockHash(c, b) && |a.prevHash| == |b.prevHash|
    requires RootMatches(c, a) && RootMatches(c, b)
    ensures a.height == b.height && a.prevHash == b.prevHash && a.timestamp == b.timestamp
    ensures a.proposer == b.proposer && a.merkleRoot == b.merkleRoot
  {
    EqualHashesEqualHeaders(c, a, b);
    RootHas64Digits(c, a.transactions);
    RootHas64Digits(c, b.transactions);
    HeaderLength(a);
    HeaderLength(b);
    hide HeaderBytes, MerkleRoot, Inputs;
    HeaderBytesInjective(a, b);
  }

  lemma MatchingRootsSameHashes(c: Crypto, a: Block, b: Block)
    requires Collisionless(c, a, b) && RootMatches(c, a) && RootMatches(c, b)
    requires a.merkleRoot == b.merkleRoot && |a.transactions| == |b.transactions|
    ensures SameHashes(c, a.transactions, b.transactions)
  {
    assert RootInputs(c, a.transactions) + RootInputs(c, b.transactions) <= Inputs(c, a) + Inputs(c, b);
    hide RootInputs, MerkleRoot, TxHash;
    EqualRootsEqualTransactions(c, a.transactions, b.transactions);
  }

  /**
   Under one header hash, a block carries the hashes of `a`'s transactions, under the same root, if
   and only if its own root matches and it has as many of them.
   */
  lemma GuardDecides(c: Crypto, a: Block, b: Block)
    requires Collisionless(c, a, b) && BlockHash(c, a) == BlockHash(c, b) && |a.prevHash| == |b.prevHash|
    requires RootMatches(c, a)
    ensures a.merkleRoot == b.merkleRoot && SameHashes(c, a.transactions, b.transactions)
      <==> RootMatches(c, b) && |a.transactions| == |b.transactions|
  {
    if a.merkleRoot == b.merkleRoot && SameHashes(c, a.transactions, b.transactions) {
      SameHashesSameRoot(c, a.transactions, b.transactions);
    }
    hide MerkleRoot, Collisionless, SameHashes;
    if RootMatches(c, b) && |a.transactions| == |b.transactions| {
      HeadersAgree(c, a, b);
      MatchingRootsSameHashes(c, a, b);
    }
  }

  // ---------------------------------------------------------------- from hashes to transactions

  /** Both addresses and the signature have the sizes that Ed25519 and hex give them. */
  predicate FixedSizes(t: Transaction) {
    |t.from| == 64 && |t.to| == 64 && |t.signature| == 64
  }

  predicate AllFixed(txs: seq<Transaction>) {
    forall t :: t in txs ==> FixedSizes(t)
  }

  lemma SameInputSameTransaction(s: Transaction, t: Transaction)
    requires FixedSizes(s) && FixedSizes(t) && TxSigningBytes(s) + s.signature == TxSigningBytes(t) + t.signature
    ensures s == t
  {
    PrefixCancels(TxSigningBytes(s), TxSigningBytes(t), s.signature, t.signature);
    TxSigningBytesInjective(s, t);
    assert s == s.(signature := []).(signature := s.signature);
    assert t == t.(signature := []).(signature := t.signature);
  }

  lemma SameHashSameTransaction(c: Crypto, inputs: set<Bytes>, s: Transaction, t: Transaction)
    requires FixedSizes(s) && FixedSizes(t) && TxHash(c, s) == TxHash(c, t) && NoCollision(c, inputs)
    requires TxSigningBytes(s) + s.signature in inputs && TxSigningBytes(t) + t.signature in inputs
    ensures s == t
  {
    HexInjective(c.sha(TxSigningBytes(s) + s.signature), c.sha(TxSigningBytes(t) + t.signature));
    hide TxSigningBytes;
    SameInputSameTransaction(s, t);
  }

  lemma SameHashesSameTransactions(c: Crypto, a: Block, b: Block)
    requires Collisionless(c, a, b) && SameHashes(c, a.transactions, b.transactions)
    requires AllFixed(a.transactions) && AllFixed(b.transactions)
    ensures a.transactions == b.transactions
  {
    hide TxSigningBytes, TxHash, RootInputs, FixedSizes, HeaderBytes;
    forall i | 0 <= i < |a.transactions| ensures a.transactions[i] == b.transactions[i] {
      var s, t := a.transactions[i], b.transactions[i];
      assert TxSigningBytes(s) + s.signature in Inputs(c, a) && TxSigningBytes(t) + t.signature in Inputs(c, b);
      SameHashSameTransaction(c, Inputs(c, a) + Inputs(c, b), s, t);
    }
  }

  /** What a receiver can check of a block by itself. */
  predicate Guarded(c: Crypto, b: Block) {
    |b.prevHash| == 64 && RootMatches(c, b) && AllFixed(b.transactions)
  }

  /** Under one header hash, `b` is the block `a` if and only if it passes the guard that `a` passes and is as long. */
  lemma GuardDecidesBody(c: Crypto, a: Block, b: Block)
    requires Collisionless(c, a, b) && BlockHash(c, a) == BlockHash(c, b) && Guarded(c, a)
    ensures SameBody(a, b) <==> Guarded(c, b) && |a.transactions| == |b.transactions|
  {
    if SameBody(a, b) {
      SameBodySameHash(c, a, b);
    }
    if Guarded(c, b) && |a.transactions| == |b.transactions| {
      hide Collisionless, MerkleRoot, SameHashes, AllFixed, BlockHash;
      GuardDecides(c, a, b);
      HeadersAgree(c, a, b);
      SameHashesSameTransactions(c, a, b);
    }
  }

  // ---------------------------------------------------------------- lists that the chain accepts

  /** What the nonce loop leaves true of every list it accepts. */
  predicate Acceptable(c: Crypto, txs: seq<Transaction>) {
    NoncesIncrease(txs) && forall t :: t in txs ==> TxVerify(c, t)
  }

  lemma AcceptedIsAcceptable(c: Crypto, L: Ledger, txs: seq<Transaction>)
    requires NoncePlan(c, L, txs).1 == Accepted
    ensures Acceptable(c, txs)
  {
    NoncePlanAccepts(c, L, [], txs);
    assert [] + txs == txs;
  }

  /** No transaction hash is the input of an inner node of either tree. */
  ghost predicate Unmixed(c: Crypto, a: Block, b: Block) {
    Apart(c, a.transactions, b.transactions) && Apart(c, b.transactions, a.transactions)
  }

  /** An accepted list repeats no hash, since it repeats no nonce of a sender. */
  lemma AcceptableHashesDiffer(c: Crypto, txs: seq<Transaction>, inputs: set<Bytes>)
    requires NoCollision(c, inputs) && NoncesIncrease(txs)
    requires forall t :: t in txs ==> TxSigningBytes(t) + t.signature in inputs && |t.from| == 64 && |t.signature| == 64
    ensures HashesDiffer(c, txs)
  {
    hide TxSigningBytes;
    forall i, j | 0 <= i < j < |txs| ensures TxHash(c, txs[i]) != TxHash(c, txs[j]) {
      var s, t := txs[i], txs[j];
      assert s in txs && t in txs;
      if TxHash(c, s) == TxHash(c, t) {
        HexInjective(c.sha(TxSigningBytes(s) + s.signature), c.sha(TxSigningBytes(t) + t.signature));
        SameInputSameSlot(s, t);
      }
    }
  }

  lemma BlockHashesDiffer(c: Crypto, b: Block, inputs: set<Bytes>)
    requires NoCollision(c, inputs) && Inputs(c, b) <= inputs && NoncesIncrease(b.transactions)
    requires forall t :: t in b.transactions ==> |t.from| == 64 && |t.signature| == 64
    ensures HashesDiffer(c, b.transactions)
  {
    hide TxSigningBytes, RootInputs, HeaderBytes, NoncesIncrease, HashesDiffer;
    forall t | t in b.transactions ensures TxSigningBytes(t) + t.signature in inputs {
      assert TxSigningBytes(t) + t.signature in Inputs(c, b);
    }
    AcceptableHashesDiffer(c, b.transactions, inputs);
  }

  lemma RootsFixLength(c: Crypto, a: Block, b: Block)
    requires Collisionless(c, a, b) && Unmixed(c, a, b) && RootMatches(c, a) && RootMatches(c, b) && a.merkleRoot == b.merkleRoot
    requires HashesDiffer(c, a.transactions) && HashesDiffer(c, b.transactions)
    ensures |a.transactions| == |b.transactions|
  {
    assert RootInputs(c, a.transactions) + RootInputs(c, b.transactions) <= Inputs(c, a) + Inputs(c, b);
    hide RootInputs, MerkleRoot, TxHash, HashesDiffer, Apart, Inputs;
    RepeatlessRootsEqual(c, a.transactions, b.transactions);
  }

  lemma AcceptableSizes(c: Crypto, txs: seq<Transaction>)
    requires SignaturesHave64Bytes(c) && Acceptable(c, txs)
    ensures forall t :: t in txs ==> |t.from| == 64 && |t.signature| == 64
  {
    hide TxVerify;
    forall t | t in txs ensures |t.from| == 64 && |t.signature| == 64 {
      VerifiedSizes(c, t);
    }
  }

  /**
   Of two blocks under one header hash whose transactions the chain accepts, one of them with a matching
   root: the other carries the same transaction hashes under the same root if and only if its root
   matches too. Nothing need be known about how many there are.
   */
  lemma AcceptedGuardDecides(c: Crypto, a: Block, b: Block)
    requires Collisionless(c, a, b) && Unmixed(c, a, b) && SignaturesHave64Bytes(c)
    requires BlockHash(c, a) == BlockHash(c, b) && |a.prevHash| == |b.prevHash| && RootMatches(c, a)
    requires Acceptable(c, a.transactions) && Acceptable(c, b.transactions)
    ensures a.merkleRoot == b.merkleRoot && SameHashes(c, a.transactions, b.transactions) <==> RootMatches(c, b)
  {
    GuardDecides(c, a, b);
    if RootMatches(c, b) {
      var inputs := Inputs(c, a) + Inputs(c, b);
      AcceptableSizes(c, a.transactions);
      AcceptableSizes(c, b.transactions);
      BlockHashesDiffer(c, a, inputs);
      BlockHashesDiffer(c, b, inputs);
      hide Acceptable, Inputs, MerkleRoot, SameHashes, HashesDiffer, Unmixed, BlockHash, NoCollision;
      HeadersAgree(c, a, b);
      RootsFixLength(c, a, b);
    }
  }

  lemma FixedHashesDiffer(c: Crypto, b: Block, inputs: set<Bytes>)
    requires NoCollision(c, inputs) && Inputs(c, b) <= inputs && NoncesIncrease(b.transactions) && AllFixed(b.transactions)
    ensures HashesDiffer(c, b.transactions)
  {
    hide HashesDiffer, NoncesIncrease, Inputs, NoCollision;
    assert forall t :: t in b.transactions ==> FixedSizes(t);
    BlockHashesDiffer(c, b, inputs);
  }

  /** For such blocks, `b` is the block `a` if and only if it passes the guard that `a` passes. */
  lemma AcceptedGuardDecidesBody(c: Crypto, a: Block, b: Block)
    requires Collisionless(c, a, b) && Unmixed(c, a, b) && BlockHash(c, a) == BlockHash(c, b) && Guarded(c, a)
    requires NoncesIncrease(a.transactions) && NoncesIncrease(b.transactions)
    ensures SameBody(a, b) <==> Guarded(c, b)
  {
    GuardDecidesBody(c, a, b);
    if Guarded(c, b) {
      var inputs := Inputs(c, a) + Inputs(c, b);
      FixedHashesDiffer(c, a, inputs);
      FixedHashesDiffer(c, b, inputs);
      hide Inputs, MerkleRoot, HashesDiffer, Unmixed, BlockHash, NoCollision, NoncesIncrease, AllFixed, SameBody;
      HeadersAgree(c, a, b);
      RootsFixLength(c, a, b);
    }
  }
}
