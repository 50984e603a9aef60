/**
 Transactions and blocks (internal/blockchain), over an arbitrary hash and signature scheme.
 */
module Blocks {
  import opened Base
  import opened Text

  /**
   The cryptographic primitives. `sign` is keyed by the hex address of the signer; `verify` by the
   decoded public key. No theorem fixes what these functions are.
   */
  datatype Crypto = Crypto(sha: Bytes -> Bytes,
                           sign: (Bytes, Bytes) -> Bytes,
                           verify: (Bytes, Bytes, Bytes) -> bool)

  const PUBLIC_KEY_SIZE := 32

  /** Digests have 32 bytes. */
  ghost predicate DigestsHave32Bytes(c: Crypto) {
    forall x :: |c.sha(x)| == 32
  }

  /** A signature made with a key verifies under it. */
  ghost predicate SignaturesVerify(c: Crypto) {
    forall address, message :: DecodeAddress(address).Some? ==>
      c.verify(DecodeAddress(address).value, message, c.sign(address, message))
  }

  /** Ed25519 accepts only signatures of 64 bytes. */
  ghost predicate SignaturesHave64Bytes(c: Crypto) {
    forall pub, message, signature :: c.verify(pub, message, signature) ==> |signature| == 64
  }

  /** No two of these strings have one digest. */
  ghost predicate NoCollision(c: Crypto, inputs: set<Bytes>) {
    forall x, y :: x in inputs && y in inputs && c.sha(x) == c.sha(y) ==> x == y
  }

  /** hexDecodePubkey and decodeAddress: a hex string of exactly 32 bytes. */
  function DecodeAddress(address: Bytes): (r: Option<Bytes>)
    ensures r.Some? ==> |r.value| == PUBLIC_KEY_SIZE
  {
    var b := HexDecode(address);
    if b.Some? && |b.value| == PUBLIC_KEY_SIZE then b else None
  }

  /** A signature by the holder of `address`, as every Verify of the repository checks it. */
  predicate SignedBy(c: Crypto, address: Bytes, message: Bytes, signature: Bytes) {
    var pub := DecodeAddress(address);
    pub.Some? && c.verify(pub.value, message, signature)
  }

  // ---------------------------------------------------------------- transactions

  datatype Transaction = Transaction(
    from: Bytes,
    to: Bytes,
    ciphertext: Bytes,
    nonceAead: Bytes12,
    ephemeral: Bytes32,
    nonce: u64,
    timestamp: i64,
    signature: Bytes)

  function TxSigningBytes(t: Transaction): Bytes {
    t.from + t.to + t.ciphertext + t.nonceAead + t.ephemeral
    + BigEndian(t.nonce, 8) + BigEndian(U64OfI64(t.timestamp), 8)
  }

  predicate TxVerify(c: Crypto, t: Transaction) {
    SignedBy(c, t.from, TxSigningBytes(t), t.signature)
  }

  function TxHash(c: Crypto, t: Transaction): Bytes {
    HexEncode(c.sha(TxSigningBytes(t) + t.signature))
  }

  /**
   Sender, recipient and ciphertext are signed without lengths. For one length of sender, the signed
   bytes determine the whole transaction but its signature exactly if the recipients are equally long.
   */
  lemma TxSigningBytesInjective(a: Transaction, b: Transaction)
    requires |a.from| == |b.from| && TxSigningBytes(a) == TxSigningBytes(b)
    ensures a.(signature := []) == b.(signature := []) <==> |a.to| == |b.to|
  {
    if |a.to| == |b.to| {
      EqualTails(a, b);
      Be64RoundTrip(a.nonce);
      Be64RoundTrip(b.nonce);
      Be64RoundTrip(U64OfI64(a.timestamp));
      Be64RoundTrip(U64OfI64(b.timestamp));
    }
  }

  /** The fields that follow the ciphertext, which have a fixed length. */
  function TxTail(t: Transaction): (r: Bytes)
    ensures |r| == 60
  {
    t.nonceAead + t.ephemeral + BigEndian(t.nonce, 8) + BigEndian(U64OfI64(t.timestamp), 8)
  }

  lemma EqualTails(a: Transaction, b: Transaction)
    requires |a.from| == |b.from| && |a.to| == |b.to| && TxSigningBytes(a) == TxSigningBytes(b)
    ensures a.from == b.from && a.to == b.to && a.ciphertext == b.ciphertext
    ensures a.nonceAead == b.nonceAead && a.ephemeral == b.ephemeral
    ensures BigEndian(a.nonce, 8) == BigEndian(b.nonce, 8)
    ensures BigEndian(U64OfI64(a.timestamp), 8) == BigEndian(U64OfI64(b.timestamp), 8)
  {
    TxParts(a);
    TxParts(b);
    hide TxSigningBytes, TxTail, BigEndian;
    PrefixCancels(a.from, b.from, a.to + (a.ciphertext + TxTail(a)), b.to + (b.ciphertext + TxTail(b)));
    PrefixCancels(a.to, b.to, a.ciphertext + TxTail(a), b.ciphertext + TxTail(b));
    PrefixCancels(a.ciphertext, b.ciphertext, TxTail(a), TxTail(b));
    TailParts(a, b);
  }

  lemma TxParts(t: Transaction)
    ensures TxSigningBytes(t) == t.from + (t.to + (t.ciphertext + TxTail(t)))
  {
    hide BigEndian;
  }

  lemma TailParts(a: Transaction, b: Transaction)
    requires TxTail(a) == TxTail(b)
    ensures a.nonceAead == b.nonceAead && a.ephemeral == b.ephemeral
    ensures BigEndian(a.nonce, 8) == BigEndian(b.nonce, 8)
    ensures BigEndian(U64OfI64(a.timestamp), 8) == BigEndian(U64OfI64(b.timestamp), 8)
  {
    var na, nb := BigEndian(a.nonce, 8), BigEndian(b.nonce, 8);
    var ta, tb := BigEndian(U64OfI64(a.timestamp), 8), BigEndian(U64OfI64(b.timestamp), 8);
    hide BigEndian;
    assert TxTail(a) == a.nonceAead + (a.ephemeral + (na + ta));
    assert TxTail(b) == b.nonceAead + (b.ephemeral + (nb + tb));
    PrefixCancels(a.nonceAead, b.nonceAead, a.ephemeral + (na + ta), b.ephemeral + (nb + tb));
    PrefixCancels(a.ephemeral, b.ephemeral, na + ta, nb + tb);
    PrefixCancels(na, nb, ta, tb);
  }

  /** A verified transaction's sender and signature have fixed sizes. */
  lemma VerifiedSizes(c: Crypto, t: Transaction)
    requires SignaturesHave64Bytes(c) && TxVerify(c, t)
    ensures |t.from| == 64 && |t.signature| == 64
  {
    HexDecodeHalves(t.from);
  }

  /** With those sizes, the hashed bytes determine sender and nonce, wherever the recipient ends. */
  lemma SameInputSameSlot(s: Transaction, t: Transaction)
    requires |s.from| == |t.from| && |s.signature| == |t.signature|
    requires TxSigningBytes(s) + s.signature == TxSigningBytes(t) + t.signature
    ensures s.from == t.from && s.nonce == t.nonce
  {
    PrefixCancels(TxSigningBytes(s), TxSigningBytes(t), s.signature, t.signature);
    TxParts(s);
    TxParts(t);
    hide TxSigningBytes, TxTail, BigEndian;
    PrefixCancels(s.from, t.from, s.to + (s.ciphertext + TxTail(s)), t.to + (t.ciphertext + TxTail(t)));
    assert s.to + (s.ciphertext + TxTail(s)) == (s.to + s.ciphertext) + TxTail(s);
    assert t.to + (t.ciphertext + TxTail(t)) == (t.to + t.ciphertext) + TxTail(t);
    PrefixCancels(s.to + s.ciphertext, t.to + t.ciphertext, TxTail(s), TxTail(t));
    TailParts(s, t);
    Be64RoundTrip(s.nonce);
    Be64RoundTrip(t.nonce);
  }

  /** The same bytes cut between recipient and ciphertext elsewhere: same signature, same hash. */
  lemma RecipientCanMove(c: Crypto, t: Transaction, k: nat)
    requires k < |t.to|
    ensures var t' := t.(to := t.to[..k], ciphertext := t.to[k..] + t.ciphertext);
      && t' != t && TxSigningBytes(t') == TxSigningBytes(t)
      && (TxVerify(c, t') <==> TxVerify(c, t)) && TxHash(c, t') == TxHash(c, t)
  {
    var t' := t.(to := t.to[..k], ciphertext := t.to[k..] + t.ciphertext);
    TxParts(t);
    TxParts(t');
    assert t.to == t.to[..k] + t.to[k..];
    assert TxTail(t') == TxTail(t);
    hide TxTail;
    assert t'.to + (t'.ciphertext + TxTail(t)) == t.to + (t.ciphertext + TxTail(t));
  }

  // ---------------------------------------------------------------- blocks

  datatype ValidatorSig = ValidatorSig(validator: Bytes, round: u32, signature: Bytes)

  datatype Block = Block(
    height: u64,
    prevHash: Bytes,
    timestamp: i64,
    proposer: Bytes,
    transactions: seq<Transaction>,
    merkleRoot: Bytes,
    commitSigs: seq<ValidatorSig>)

  function HeaderBytes(b: Block): Bytes {
    BigEndian(b.height, 8) + b.prevHash + BigEndian(U64OfI64(b.timestamp), 8) + b.proposer + b.merkleRoot
  }

  function BlockHash(c: Crypto, b: Block): Bytes {
    HexEncode(c.sha(HeaderBytes(b)))
  }

  /** The same block; the certificates may differ. */
  predicate SameBody(a: Block, b: Block) {
    a.(commitSigs := []) == b.(commitSigs := [])
  }

  lemma SameBodySameHash(c: Crypto, a: Block, b: Block)
    requires SameBody(a, b)
    ensures BlockHash(c, a) == BlockHash(c, b) && a.transactions == b.transactions && a.height == b.height
    ensures a.prevHash == b.prevHash && a.merkleRoot == b.merkleRoot
  {
    var a', b' := a.(commitSigs := []), b.(commitSigs := []);
    assert HeaderBytes(a) == HeaderBytes(a') && HeaderBytes(b) == HeaderBytes(b');
    assert a'.transactions == a.transactions && b'.transactions == b.transactions;
    assert a'.merkleRoot == a.merkleRoot && b'.merkleRoot == b.merkleRoot;
  }

  /**
   The header fields are concatenated without lengths. Two headers with equally long previous
   hashes and equally long proposers (64 hex digits each once a proposal is validated and linked)
   still cannot be confused.
   */
  lemma HeaderBytesInjective(a: Block, b: Block)
    requires |a.prevHash| == |b.prevHash| && |a.proposer| == |b.proposer|
    requires HeaderBytes(a) == HeaderBytes(b)
    ensures a.height == b.height && a.prevHash == b.prevHash && a.timestamp == b.timestamp
    ensures a.proposer == b.proposer && a.merkleRoot == b.merkleRoot
  {
    var ta, tb := BigEndian(U64OfI64(a.timestamp), 8), BigEndian(U64OfI64(b.timestamp), 8);
    var ha, hb := BigEndian(a.height, 8), BigEndian(b.height, 8);
    assert HeaderBytes(a) == ha + (a.prevHash + (ta + (a.proposer + a.merkleRoot)));
    assert HeaderBytes(b) == hb + (b.prevHash + (tb + (b.proposer + b.merkleRoot)));
    PrefixCancels(ha, hb, a.prevHash + (ta + (a.proposer + a.merkleRoot)), b.prevHash + (tb + (b.proposer + b.merkleRoot)));
    PrefixCancels(a.prevHash, b.prevHash, ta + (a.proposer + a.merkleRoot), tb + (b.proposer + b.merkleRoot));
    PrefixCancels(ta, tb, a.proposer + a.merkleRoot, b.proposer + b.merkleRoot);
    PrefixCancels(a.proposer, b.proposer, a.merkleRoot, b.merkleRoot);
    Be64RoundTrip(a.height);
    Be64RoundTrip(b.height);
    Be64RoundTrip(U64OfI64(a.timestamp));
    Be64RoundTrip(U64OfI64(b.timestamp));
  }

  // ---------------------------------------------------------------- commit certificates

  const VOTE_PRECOMMIT_TYPE: byte := 2

  /** What a validator signs when it precommits, as block.go rebuilds it. */
  function PrecommitSigningBytes(height: u64, round: u32, hash: Bytes): Bytes {
    [VOTE_PRECOMMIT_TYPE] + BigEndian(height, 8) + BigEndian(round, 4) + hash
  }

  /** `cs` is a valid precommit signature for `b`. */
  predicate ValidCommitSig(c: Crypto, b: Block, cs: ValidatorSig) {
    SignedBy(c, cs.validator, PrecommitSigningBytes(b.height, cs.round, BlockHash(c, b)), cs.signature)
  }

  /** Some entry of `sigs` is a valid precommit signature of `v` for `b`. */
  predicate SignedCommit(c: Crypto, b: Block, sigs: seq<ValidatorSig>, v: Bytes) {
    exists k :: 0 <= k < |sigs| && sigs[k].validator == v && ValidCommitSig(c, b, sigs[k])
  }

  /** The configured validators with at least one valid signature on the block. */
  function CommitSigners(c: Crypto, b: Block, sigs: seq<ValidatorSig>, validators: set<Bytes>): (s: set<Bytes>)
    ensures s <= validators
  {
    set v | v in validators && SignedCommit(c, b, sigs, v)
  }

  /** What the certificate check is for: enough distinct configured validators signed. */
  predicate QuorumMet(c: Crypto, b: Block, quorum: int, validators: set<Bytes>) {
    |CommitSigners(c, b, b.commitSigs, validators)| >= quorum
  }

  lemma NoMoreSignersThanEntries(c: Crypto, b: Block, sigs: seq<ValidatorSig>, validators: set<Bytes>)
    ensures |CommitSigners(c, b, sigs, validators)| <= |sigs|
  {
    var names := seq(|sigs|, k requires 0 <= k < |sigs| => sigs[k].validator);
    var s := CommitSigners(c, b, sigs, validators);
    forall v | v in s ensures v in names {
      var k :| 0 <= k < |sigs| && sigs[k].validator == v && ValidCommitSig(c, b, sigs[k]);
      assert names[k] == v;
    }
    ListBoundsSet(s, names);
  }

  lemma OneMoreEntry(c: Crypto, b: Block, sigs: seq<ValidatorSig>, i: nat, validators: set<Bytes>)
    requires i < |sigs|
    ensures CommitSigners(c, b, sigs[..i + 1], validators)
         == CommitSigners(c, b, sigs[..i], validators)
            + if sigs[i].validator in validators && ValidCommitSig(c, b, sigs[i]) then {sigs[i].validator} else {}
  {
    var s, t := sigs[..i], sigs[..i + 1];
    forall v ensures SignedCommit(c, b, t, v)
                <==> SignedCommit(c, b, s, v) || (v == sigs[i].validator && ValidCommitSig(c, b, sigs[i]))
    {
      if SignedCommit(c, b, s, v) {
        var k :| 0 <= k < |s| && s[k].validator == v && ValidCommitSig(c, b, s[k]);
        assert t[k] == s[k];
      }
      if v == sigs[i].validator && ValidCommitSig(c, b, sigs[i]) {
        assert t[i] == sigs[i];
      }
      if SignedCommit(c, b, t, v) {
        var k :| 0 <= k < |t| && t[k].validator == v && ValidCommitSig(c, b, t[k]);
        if k < i {
          assert s[k] == t[k];
        }
      }
    }
  }

  /** Block.VerifyCommitQuorum, with its early exit, its `seen` map and its counter. */
  method VerifyCommitQuorum(c: Crypto, b: Block, quorum: int, validators: set<Bytes>) returns (ok: bool)
    ensures ok <==> QuorumMet(c, b, quorum, validators)
  {
    var sigs := b.commitSigs;
    if |sigs| < quorum {
      NoMoreSignersThanEntries(c, b, sigs, validators);
      return false;
    }
    var hash := BlockHash(c, b);
    var seen: set<Bytes> := {};
    var valid := 0;
    for i := 0 to |sigs|
      invariant seen == CommitSigners(c, b, sigs[..i], validators)
      invariant valid == |seen|
    {
      OneMoreEntry(c, b, sigs, i, validators);
      var cs := sigs[i];
      if cs.validator in seen {
        continue;
      }
      if cs.validator !in validators {
        continue;
      }
      var pub := DecodeAddress(cs.validator);
      if pub.None? {
        continue;
      }
      if c.verify(pub.value, PrecommitSigningBytes(b.height, cs.round, hash), cs.signature) {
        seen := seen + {cs.validator};
        valid := valid + 1;
      }
    }
    assert sigs[..|sigs|] == sigs;
    ok := valid >= quorum;
  }

  /** Order and repetition of the entries do not matter, only which entries there are. */
  lemma QuorumIgnoresOrder(c: Crypto, b: Block, sigs: seq<ValidatorSig>, quorum: int, validators: set<Bytes>)
    requires forall cs :: cs in sigs <==> cs in b.commitSigs
    ensures QuorumMet(c, b.(commitSigs := sigs), quorum, validators) <==> QuorumMet(c, b, quorum, validators)
  {
    var b' := b.(commitSigs := sigs);
    assert HeaderBytes(b') == HeaderBytes(b);
    forall v ensures SignedCommit(c, b', sigs, v) <==> SignedCommit(c, b, b.commitSigs, v) {
      if SignedCommit(c, b', sigs, v) {
        var k :| 0 <= k < |sigs| && sigs[k].validator == v && ValidCommitSig(c, b', sigs[k]);
        assert sigs[k] in b.commitSigs;
        var m :| 0 <= m < |b.commitSigs| && b.commitSigs[m] == sigs[k];
      }
      if SignedCommit(c, b, b.commitSigs, v) {
        var k :| 0 <= k < |b.commitSigs| && b.commitSigs[k].validator == v && ValidCommitSig(c, b, b.commitSigs[k]);
        assert b.commitSigs[k] in sigs;
        var m :| 0 <= m < |sigs| && sigs[m] == b.commitSigs[k];
      }
    }
    assert CommitSigners(c, b', sigs, validators) == CommitSigners(c, b, b.commitSigs, validators);
  }
}
