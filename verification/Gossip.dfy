/**
 The gossip listener of a relay (cmd/node/relay.go) against blocks of any kind. CommitBlock checks the
 certificate over the header and never the Merkle root, so certified gossip keeps the relay's chain
 a prefix of the true one exactly as long as the bodies are the true ones.
 */
module Gossips {
  import opened Base
  import opened Blocks
  import opened Bodies
  import opened Ledgers
  import opened Storage
  import opened Chains
  import opened Mempools
  import opened Relays

  // ---------------------------------------------------------------- one block

  lemma AcceptedExactly(L1: Ledger, s: ChainState, truth: ChainState, b: Block)
    requires GapFree(s.ledger, s.tip) && s.tip < MAX_U64 && b.height == s.tip + 1
    requires L1.blocks == s.ledger.blocks && L1.head == s.ledger.head
    ensures var L' := Apply(L1, Write.PutBlock(b));
      && GapFree(L', b.height)
      && (IsPrefix(L', b.height, truth) <==> IsPrefix(s.ledger, s.tip, truth) && Genuine(truth, b))
  {
    hide SameBody;
    var L' := Apply(L1, Write.PutBlock(b));
    if IsPrefix(L', b.height, truth) {
      assert L'.blocks[b.height] == b;
      forall k: u64 | k <= s.tip ensures k in truth.ledger.blocks && SameBody(s.ledger.blocks[k], truth.ledger.blocks[k]) {
        assert L'.blocks[k] == s.ledger.blocks[k];
      }
    }
    if IsPrefix(s.ledger, s.tip, truth) && Genuine(truth, b) {
      forall k: u64 | k <= b.height ensures k in truth.ledger.blocks && SameBody(L'.blocks[k], truth.ledger.blocks[k]) {
        if k <= s.tip {
          assert L'.blocks[k] == s.ledger.blocks[k];
        }
      }
    }
  }

  lemma RaisedExactly(s: ChainState, L': Ledger, truth: ChainState, txs: seq<Transaction>)
    requires GapFree(s.ledger, s.tip) && OnlyRaises(s.ledger, L', txs)
    ensures GapFree(L', s.tip) && (IsPrefix(L', s.tip, truth) <==> IsPrefix(s.ledger, s.tip, truth))
  {
    hide SameBody;
  }

  /** After any block the chain is a prefix exactly if it was one and the block was refused or genuine. */
  lemma CommitExactly(r: Rules, s: ChainState, truth: ChainState, b: Block)
    requires GapFree(s.ledger, s.tip) && s.tip < MAX_U64
    ensures var (s', verdict) := Commit(r, s, b);
      && GapFree(s'.ledger, s'.tip) && s'.tip == (if verdict == Accepted then s.tip + 1 else s.tip)
      && (IsPrefix(s'.ledger, s'.tip, truth)
          <==> IsPrefix(s.ledger, s.tip, truth) && (verdict == Accepted ==> Genuine(truth, b)))
  {
    if Commit(r, s, b).1 == Accepted {
      AcceptedEffect(r, s, b);
      hide QuorumMet, NoncePlan, ApplyAll, Commit, HeaderBytes, IsPrefix, Genuine;
      AcceptedExactly(ApplyAll(s.ledger, NoncePlan(r.crypto, s.ledger, b.transactions).0), s, truth, b);
    } else {
      RejectionKeepsChain(r, s, b);
      RaisedExactly(s, Commit(r, s, b).0.ledger, truth, b.transactions);
    }
  }

  lemma BrokenExactly(r: Rules, s: ChainState, truth: ChainState, b: Block, L: Ledger)
    requires GapFree(s.ledger, s.tip) && BrokenOff(r, s, b, L)
    ensures GapFree(L, s.tip) && (IsPrefix(L, s.tip, truth) <==> IsPrefix(s.ledger, s.tip, truth))
  {
    BrokenOffKeepsBlocks(r, s, b, L);
    RaisedExactly(s, L, truth, b.transactions);
  }

  // ---------------------------------------------------------------- any gossip

  /** The blocks of the list that the relay accepts as they arrive. */
  function Taken(r: Rules, s: ChainState, blocks: seq<Block>): seq<Block>
    decreases |blocks|
  {
    if blocks == [] then []
    else
      var (s', verdict) := Commit(r, s, blocks[0]);
      (if verdict == Accepted then [blocks[0]] else []) + Taken(r, s', blocks[1..])
  }

  /** Whatever arrives: the relay's chain ends up a prefix exactly if every block it accepted was genuine. */
  lemma {:induction false} GossipExactly(r: Rules, s: ChainState, truth: ChainState, blocks: seq<Block>)
    requires GapFree(s.ledger, s.tip) && s.tip + |blocks| <= MAX_U64
    ensures var s' := Gossip(r, s, blocks);
      IsPrefix(s'.ledger, s'.tip, truth)
      <==> IsPrefix(s.ledger, s.tip, truth) && forall b :: b in Taken(r, s, blocks) ==> Genuine(truth, b)
    decreases |blocks|
  {
    if blocks != [] {
      CommitExactly(r, s, truth, blocks[0]);
      hide Commit, GapFree, IsPrefix, Genuine;
      GossipExactly(r, Commit(r, s, blocks[0]).0, truth, blocks[1..]);
    }
  }

  // ---------------------------------------------------------------- certified blocks with other transactions

  /**
   The next genuine block, with any other transactions that the chain would take put under its header,
   keeps its certificate and is accepted; the relay's chain is then no prefix of the true one.
   */
  lemma ExchangedIsAccepted(r: Rules, s: ChainState, truth: ChainState, b: Block, txs: seq<Transaction>)
    requires InStep(r, s, truth) && Genuine(truth, b) && b.height == s.tip + 1
    requires QuorumMet(r.crypto, b, r.quorum, r.validators)
    requires NoncePlan(r.crypto, s.ledger, txs).1 == Accepted && txs != b.transactions
    ensures var b' := b.(transactions := txs);
      && BlockHash(r.crypto, b') == BlockHash(r.crypto, b)
      && Commit(r, s, b').1 == Accepted
      && !IsPrefix(Commit(r, s, b').0.ledger, Commit(r, s, b').0.tip, truth)
  {
    var b' := b.(transactions := txs);
    ExchangeKeepsCertificate(r, b, txs);
    NextIsAdmitted(r, s, truth, b);
    SameBodySameHash(r.crypto, b, truth.ledger.blocks[b.height]);
    if Genuine(truth, b') {
      SameBodySameHash(r.crypto, b', truth.ledger.blocks[b.height]);
    }
    CommitExactly(r, s, truth, b');
    hide NoncePlan, QuorumMet, BlockHash, Genuine, IsPrefix, InStep, ApplyAll;
    CommitCompleted(r, s, b');
  }

  lemma ExchangeKeepsCertificate(r: Rules, b: Block, txs: seq<Transaction>)
    ensures var b' := b.(transactions := txs);
      && BlockHash(r.crypto, b') == BlockHash(r.crypto, b)
      && (QuorumMet(r.crypto, b', r.quorum, r.validators) <==> QuorumMet(r.crypto, b, r.quorum, r.validators))
  {
    var b' := b.(transactions := txs);
    assert HeaderBytes(b') == HeaderBytes(b);
    hide HeaderBytes;
    assert CommitSigners(r.crypto, b', b.commitSigs, r.validators) == CommitSigners(r.crypto, b, b.commitSigs, r.validators);
  }

  /** In particular with none. */
  lemma EmptiedIsAccepted(r: Rules, s: ChainState, truth: ChainState, b: Block)
    requires InStep(r, s, truth) && Genuine(truth, b) && b.height == s.tip + 1
    requires QuorumMet(r.crypto, b, r.quorum, r.validators) && b.transactions != []
    ensures var b' := b.(transactions := []);
      Commit(r, s, b').1 == Accepted && !IsPrefix(Commit(r, s, b').0.ledger, Commit(r, s, b').0.tip, truth)
  {
    assert NoncePlan(r.crypto, s.ledger, []).1 == Accepted;
    hide NoncePlan, Commit, InStep, Genuine, QuorumMet, IsPrefix;
    ExchangedIsAccepted(r, s, truth, b, []);
  }

  // ---------------------------------------------------------------- the guard

  /** Every true block passes the guard. */
  ghost predicate TruthGuarded(c: Crypto, truth: ChainState) {
    forall k: u64 :: 0 < k <= truth.tip && k in truth.ledger.blocks ==> Guarded(c, truth.ledger.blocks[k])
  }

  /** The block bears the true header hash of its height. This is what a certificate vouches for. */
  predicate TrueHeader(c: Crypto, truth: ChainState, b: Block) {
    && 0 < b.height <= truth.tip && b.height in truth.ledger.blocks
    && BlockHash(c, b) == BlockHash(c, truth.ledger.blocks[b.height])
  }

  /** A block under a true header hash, with nonces that the chain accepts, is genuine if and only if it passes the guard. */
  lemma GenuineExactlyIfGuarded(c: Crypto, truth: ChainState, b: Block)
    requires TruthGuarded(c, truth) && TrueHeader(c, truth, b)
    requires var g := truth.ledger.blocks[b.height];
      Collisionless(c, g, b) && Unmixed(c, g, b) && NoncesIncrease(g.transactions) && NoncesIncrease(b.transactions)
    ensures Genuine(truth, b) <==> Guarded(c, b)
  {
    hide Collisionless, Unmixed, Guarded, BlockHash, SameBody, NoncesIncrease;
    var g := truth.ledger.blocks[b.height];
    AcceptedGuardDecidesBody(c, g, b);
    SameBodySymmetric(g, b);
  }

  lemma SameBodySymmetric(a: Block, b: Block)
    ensures SameBody(a, b) <==> SameBody(b, a)
  {
  }

  /** Uncertified, or certified under the true header hash and without a coincidence of hashes. */
  ghost predicate Attested(r: Rules, truth: ChainState, b: Block) {
    QuorumMet(r.crypto, b, r.quorum, r.validators) ==>
      && TrueHeader(r.crypto, truth, b)
      && Collisionless(r.crypto, truth.ledger.blocks[b.height], b) && Unmixed(r.crypto, truth.ledger.blocks[b.height], b)
  }

  /**
   Over every gossip whose certificates vouch for true headers, the relay's chain ends up a prefix of the
   true one exactly if every block it accepted passes the guard, which the code does not check: recompute
   the root and look at three lengths.
   */
  lemma GuardKeepsPrefix(r: Rules, s: ChainState, truth: ChainState, blocks: seq<Block>)
    requires InStep(r, s, truth) && s.tip + |blocks| <= MAX_U64 && TruthGuarded(r.crypto, truth)
    requires forall b :: b in blocks ==> Attested(r, truth, b)
    ensures var s' := Gossip(r, s, blocks);
      IsPrefix(s'.ledger, s'.tip, truth) <==> forall b :: b in Taken(r, s, blocks) ==> Guarded(r.crypto, b)
  {
    GossipExactly(r, s, truth, blocks);
    TakenAreAccepted(r, s, blocks);
    hide Gossip, Taken, QuorumMet, Genuine, Guarded, TruthGuarded, TrueHeader, Collisionless, Unmixed, NoncesIncrease, Good;
    forall b | b in Taken(r, s, blocks) ensures Genuine(truth, b) <==> Guarded(r.crypto, b) {
      assert Attested(r, truth, b);
      TrueBlockIsAcceptable(r, truth, b);
      GenuineExactlyIfGuarded(r.crypto, truth, b);
    }
  }

  lemma TrueBlockIsAcceptable(r: Rules, truth: ChainState, b: Block)
    requires Good(r, truth) && TrueHeader(r.crypto, truth, b)
    ensures NoncesIncrease(truth.ledger.blocks[b.height].transactions)
  {
    BlockIsAcceptable(r, truth, b.height);
  }

  /** Whatever the relay accepts arrived, was certified and repeats no nonce. */
  lemma {:induction false} TakenAreAccepted(r: Rules, s: ChainState, blocks: seq<Block>)
    ensures forall b :: b in Taken(r, s, blocks) ==>
      b in blocks && QuorumMet(r.crypto, b, r.quorum, r.validators) && NoncesIncrease(b.transactions)
    decreases |blocks|
  {
    if blocks != [] {
      var (s', verdict) := Commit(r, s, blocks[0]);
      if verdict == Accepted {
        AcceptedEffect(r, s, blocks[0]);
        AcceptedIsAcceptable(r.crypto, s.ledger, blocks[0].transactions);
      }
      hide Commit, QuorumMet, NoncesIncrease;
      TakenAreAccepted(r, s', blocks[1..]);
    }
  }

  // ---------------------------------------------------------------- the listener

  lemma HarmlessKeepsCaughtUp(r: Rules, s: ChainState, truth: ChainState, start: u64, c: Crypto, p: Pool,
                              blocks: seq<Block>, b: Block)
    requires CaughtUpTo(r, s, truth, start, c, p) && GossipIsHarmless(r, truth, blocks) && b in blocks
    ensures if Commit(r, s, b).1 == Accepted then CaughtUpTo(r, Commit(r, s, b).0, truth, start, c, RemoveFrom(c, p, b.transactions))
            else Commit(r, s, b).0 == s
  {
    assert Harmless(r, truth, b);
    if b.height == s.tip + 1 && QuorumMet(r.crypto, b, r.quorum, r.validators) {
      OneBlockFurther(r, s, truth, start, c, p, b);
    } else {
      OthersAreRefused(r, s, truth, b);
    }
  }

  /** One block at the listener: commit it, and on success remove its transactions from the pool. */
  method HearBlock(chain: Chain, pool: Mempool, quorum: int, validators: seq<Bytes>, b: Block)
    returns (applied: bool, storeFailed: bool)
    requires chain.Valid() && pool.nonces == chain.store && GoodPool(pool.crypto, pool.State())
    modifies chain, chain.store, pool
    ensures chain.Valid() && GoodPool(pool.crypto, pool.State()) && (chain.store.reliable ==> !storeFailed)
    ensures pool.State() == if applied then RemoveFrom(pool.crypto, old(pool.State()), b.transactions) else old(pool.State())
    ensures var r := RulesOf(chain.crypto, quorum, validators);
      if storeFailed then !applied && chain.tip == old(chain.tip) && BrokenOff(r, old(chain.State()), b, chain.store.ledger)
      else chain.State() == Commit(r, old(chain.State()), b).0 && (applied <==> Commit(r, old(chain.State()), b).1 == Accepted)
  {
    hide Commit, Represents, BrokenOff, GoodPool, RemoveFrom;
    var outcome := chain.CommitBlock(b, quorum, validators);
    applied, storeFailed := outcome == Done(Accepted), outcome.StoreError?;
    if applied {
      pool.Remove(b.transactions);
    }
  }

  /**
   runBlockCommitListener over the blocks of one session, whatever they are: commit, and on success
   remove from the pool; on any error go on with the next. Without a store error the chain is the one that
   these blocks make of it, one after the other. The chain ends up a prefix of the true one exactly if every
   block applied was genuine, only certified blocks are applied, and exactly their transactions leave the pool.
   While the gossip is harmless and the store never fails, the relay stays in step with a cleared pool.
   */
  method ListenForCommits(chain: Chain, pool: Mempool, quorum: int, validators: seq<Bytes>, blocks: seq<Block>,
                          ghost truth: ChainState, ghost start: u64)
    returns (applied: seq<Block>, storeFailed: bool)
    requires chain.Valid() && pool.nonces == chain.store && GoodPool(pool.crypto, pool.State())
    requires GapFree(chain.store.ledger, chain.tip) && chain.tip + |blocks| <= MAX_U64
    modifies chain, chain.store, pool
    ensures chain.Valid() && GapFree(chain.store.ledger, chain.tip) && chain.tip == old(chain.tip) + |applied|
    ensures chain.store.reliable ==> !storeFailed
    ensures !storeFailed ==>
      && chain.State() == Gossip(RulesOf(chain.crypto, quorum, validators), old(chain.State()), blocks)
      && applied == Taken(RulesOf(chain.crypto, quorum, validators), old(chain.State()), blocks)
    ensures Cleans(pool.crypto, old(pool.State()), applied, pool.State())
    ensures IsPrefix(chain.store.ledger, chain.tip, truth)
      <==> old(IsPrefix(chain.store.ledger, chain.tip, truth)) && AllGenuine(truth, applied)
    ensures AllCertified(RulesOf(chain.crypto, quorum, validators), blocks, applied)
    ensures !storeFailed && GossipIsHarmless(RulesOf(chain.crypto, quorum, validators), truth, blocks)
      && old(CaughtUpTo(RulesOf(chain.crypto, quorum, validators), chain.State(), truth, start, pool.crypto, pool.State()))
      ==> CaughtUpTo(RulesOf(chain.crypto, quorum, validators), chain.State(), truth, start, pool.crypto, pool.State())
  {
    hide CaughtUpTo, GossipIsHarmless, Commit, Represents, BrokenOff, GoodPool, IsPrefix, GapFree, AllGenuine, AllCertified, Gossip,
      Taken, Cleans, RemoveFrom, RulesOf;
    ghost var r := RulesOf(chain.crypto, quorum, validators);
    ghost var s0, p0 := chain.State(), pool.State();
    ghost var was := IsPrefix(chain.store.ledger, chain.tip, truth);
    ghost var calm := GossipIsHarmless(r, truth, blocks) && CaughtUpTo(r, s0, truth, start, pool.crypto, p0);
    applied, storeFailed := [], false;
    NoneApplied(r, truth, blocks);
    NoneHeard(r, s0, blocks, pool.crypto, p0);
    for i := 0 to |blocks|
      invariant chain.Valid() && GoodPool(pool.crypto, pool.State()) && (chain.store.reliable ==> !storeFailed)
      invariant GapFree(chain.store.ledger, chain.tip) && chain.tip == old(chain.tip) + |applied| && |applied| <= i
      invariant IsPrefix(chain.store.ledger, chain.tip, truth) <==> was && AllGenuine(truth, applied)
      invariant AllCertified(r, blocks, applied)
      invariant !storeFailed ==> chain.State() == Gossip(r, s0, blocks[..i]) && applied == Taken(r, s0, blocks[..i])
      invariant Cleans(pool.crypto, p0, applied, pool.State())
      invariant calm && !storeFailed ==> CaughtUpTo(r, chain.State(), truth, start, pool.crypto, pool.State())
    {
      var b := blocks[i];
      ghost var before := chain.State();
      OneMoreHeard(r, s0, blocks, i);
      CommitExactly(r, before, truth, b);
      CleansMore(pool.crypto, p0, applied, pool.State(), b);
      if calm && !storeFailed {
        HarmlessKeepsCaughtUp(r, before, truth, start, pool.crypto, pool.State(), blocks, b);
      }
      var taken, failed := HearBlock(chain, pool, quorum, validators, b);
      if taken {
        OneApplied(r, before, truth, blocks, applied, b);
        applied := applied + [b];
      } else if failed {
        BrokenExactly(r, before, truth, b, chain.store.ledger);
        storeFailed := true;
      }
    }
    assert blocks[..|blocks|] == blocks;
  }

  /** Of the pool exactly the transactions of these blocks are gone, by their hashes; the pending marks stay. */
  ghost predicate Cleans(c: Crypto, p: Pool, applied: seq<Block>, p': Pool) {
    && p'.pending == p.pending
    && forall t :: Pooled(p', t) <==> Pooled(p, t) && forall b :: b in applied ==> TxHash(c, t) !in Hashes(c, b.transactions)
  }

  lemma CleansMore(c: Crypto, p: Pool, applied: seq<Block>, p': Pool, b: Block)
    requires GoodPool(c, p') && Cleans(c, p, applied, p')
    ensures Cleans(c, p, applied + [b], RemoveFrom(c, p', b.transactions))
  {
    hide TxHash, GoodPool, RemoveFrom, Pooled, Hashes;
    RemoveKeepsGood(c, p', b.transactions);
  }

  lemma NoneHeard(r: Rules, s: ChainState, blocks: seq<Block>, c: Crypto, p: Pool)
    ensures Gossip(r, s, blocks[..0]) == s && Taken(r, s, blocks[..0]) == [] && Cleans(c, p, [], p)
  {
  }

  lemma OneMoreHeard(r: Rules, s: ChainState, blocks: seq<Block>, i: nat)
    requires i < |blocks|
    ensures var (s', verdict) := Commit(r, Gossip(r, s, blocks[..i]), blocks[i]);
      && Gossip(r, s, blocks[..i + 1]) == s'
      && Taken(r, s, blocks[..i + 1]) == Taken(r, s, blocks[..i]) + if verdict == Accepted then [blocks[i]] else []
  {
    hide Commit;
    assert blocks[..i + 1] == blocks[..i] + [blocks[i]];
    GossipAppend(r, s, blocks[..i], [blocks[i]]);
    TakenAppend(r, s, blocks[..i], blocks[i]);
    assert Gossip(r, Gossip(r, s, blocks[..i]), [blocks[i]]) == Commit(r, Gossip(r, s, blocks[..i]), blocks[i]).0;
  }

  lemma {:induction false} TakenAppend(r: Rules, s: ChainState, a: seq<Block>, b: Block)
    ensures Taken(r, s, a + [b]) == Taken(r, s, a) + if Commit(r, Gossip(r, s, a), b).1 == Accepted then [b] else []
    decreases |a|
  {
    hide Commit;
    if a == [] {
      assert a + [b] == [b] && [b][1..] == [];
    } else {
      assert (a + [b])[1..] == a[1..] + [b];
      TakenAppend(r, Commit(r, s, a[0]).0, a[1..], b);
    }
  }

  predicate AllGenuine(truth: ChainState, applied: seq<Block>) {
    forall b :: b in applied ==> Genuine(truth, b)
  }

  /** Only blocks that arrived are applied, and only under a certificate that meets the quorum. */
  predicate AllCertified(r: Rules, blocks: seq<Block>, applied: seq<Block>) {
    forall b :: b in applied ==> b in blocks && QuorumMet(r.crypto, b, r.quorum, r.validators)
  }

  predicate GossipIsHarmless(r: Rules, truth: ChainState, blocks: seq<Block>) {
    forall b :: b in blocks ==> Harmless(r, truth, b)
  }

  lemma NoneApplied(r: Rules, truth: ChainState, blocks: seq<Block>)
    ensures AllGenuine(truth, []) && AllCertified(r, blocks, [])
  {
  }

  lemma OneApplied(r: Rules, s: ChainState, truth: ChainState, blocks: seq<Block>, applied: seq<Block>, b: Block)
    requires Commit(r, s, b).1 == Accepted && b in blocks && AllCertified(r, blocks, applied)
    ensures AllCertified(r, blocks, applied + [b])
    ensures AllGenuine(truth, applied + [b]) <==> AllGenuine(truth, applied) && Genuine(truth, b)
  {
    AcceptedEffect(r, s, b);
    hide Commit, QuorumMet, Genuine;
    if AllGenuine(truth, applied + [b]) {
      forall x | x in applied ensures Genuine(truth, x) {
        assert x in applied + [b];
      }
      assert b in applied + [b];
    }
  }
}
