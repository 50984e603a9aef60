/**
 How a relay rebuilds the chain (cmd/node/relay.go): what genuine blocks from gossip or from a gateway's
 GetBlocks replies do to it. The loops are in Gossip.dfy and Backfill.dfy.
 */
module Relays {
  import opened Base
  import opened Blocks
  import opened Ledgers
  import opened Chains
  import opened Wire
  import opened Mempools

  // ---------------------------------------------------------------- replaying transactions

  /** The last nonce `a` used in `txs`, 0 if none. */
  function LastIn(txs: seq<Transaction>, a: Bytes): u64 {
    if txs == [] then 0
    else if txs[|txs| - 1].from == a then txs[|txs| - 1].nonce
    else LastIn(txs[..|txs| - 1], a)
  }

  /** The watermarks are exactly those of the replayed history. */
  ghost predicate Exact(L: Ledger, txs: seq<Transaction>) {
    forall a :: LastNonce(L, a) == LastIn(txs, a)
  }

  lemma {:induction false} LastInIsOld(txs: seq<Transaction>, t: Transaction)
    requires NoncesIncrease(txs + [t])
    ensures LastIn(txs, t.from) < t.nonce
    decreases |txs|
  {
    var all := txs + [t];
    assert all[|txs|] == t;
    if txs != [] {
      var init, last := txs[..|txs| - 1], txs[|txs| - 1];
      assert all[|txs| - 1] == last;
      if last.from != t.from {
        forall i, j | 0 <= i < j < |init + [t]| && (init + [t])[i].from == (init + [t])[j].from
          ensures (init + [t])[i].nonce < (init + [t])[j].nonce
        {
          assert (init + [t])[i] == all[i];
          assert (init + [t])[j] == all[if j == |init| then j + 1 else j];
        }
        forall i | 0 <= i < |init + [t]| ensures (init + [t])[i].nonce > 0 {
          assert (init + [t])[i] == all[if i == |init| then i + 1 else i];
        }
        LastInIsOld(init, t);
      }
    }
  }

  lemma PrefixIncreases(txs: seq<Transaction>, k: nat)
    requires NoncesIncrease(txs) && k <= |txs|
    ensures NoncesIncrease(txs[..k])
  {
  }

  /** With exact watermarks, the transactions that really came next are accepted and stay exact. */
  lemma {:induction false} NoncePlanReplays(c: Crypto, L: Ledger, past: seq<Transaction>, txs: seq<Transaction>)
    requires Exact(L, past) && NoncesIncrease(past + txs) && forall t :: t in txs ==> TxVerify(c, t)
    ensures NoncePlan(c, L, txs).1 == Accepted
    ensures Exact(ApplyAll(L, NoncePlan(c, L, txs).0), past + txs)
    decreases |txs|
  {
    if txs == [] {
      assert past + txs == past;
    } else {
      var t := txs[0];
      assert past + txs == (past + [t]) + txs[1..];
      assert (past + txs)[..|past| + 1] == past + [t];
      PrefixIncreases(past + txs, |past| + 1);
      LastInIsOld(past, t);
      var L1 := Apply(L, SetNonce(t.from, t.nonce));
      assert (past + [t])[..|past|] == past;
      NoncePlanReplays(c, L1, past + [t], txs[1..]);
      assert NoncePlan(c, L, txs).0[1..] == NoncePlan(c, L1, txs[1..]).0;
    }
  }

  // ---------------------------------------------------------------- a relay against the true chain

  /** The relay holds a beginning of the true chain. */
  ghost predicate IsPrefix(L: Ledger, tip: u64, truth: ChainState) {
    && GapFree(L, tip) && tip <= truth.tip
    && forall k: u64 :: k <= tip ==> k in truth.ledger.blocks && SameBody(L.blocks[k], truth.ledger.blocks[k])
  }

  /** A relay that has replayed a beginning of the true chain and nothing else. */
  ghost predicate InStep(r: Rules, s: ChainState, truth: ChainState) {
    && Good(r, truth) && truth.tip < MAX_U64
    && IsPrefix(s.ledger, s.tip, truth)
    && Exact(s.ledger, History(truth.ledger.blocks, s.tip))
  }

  /** A block that the true chain holds at its height. */
  predicate Genuine(truth: ChainState, b: Block) {
    0 < b.height <= truth.tip && b.height in truth.ledger.blocks && SameBody(b, truth.ledger.blocks[b.height])
  }

  lemma SortedHistoryPrefix(r: Rules, truth: ChainState, k: u64)
    requires Good(r, truth) && k <= truth.tip
    ensures NoncesIncrease(History(truth.ledger.blocks, k))
  {
    HistoryPrefix(truth.ledger.blocks, truth.tip, k);
    PrefixIncreases(History(truth.ledger.blocks, truth.tip), |History(truth.ledger.blocks, k)|);
  }

  lemma NextIsAdmitted(r: Rules, s: ChainState, truth: ChainState, b: Block)
    requires InStep(r, s, truth) && Genuine(truth, b) && b.height == s.tip + 1
    requires QuorumMet(r.crypto, b, r.quorum, r.validators)
    ensures Admission(r, s.ledger, s.tip, b) == Accepted
  {
    var actual := truth.ledger.blocks[b.height];
    assert BlockFits(r, truth.ledger.blocks, b.height);
    SameBodySameHash(r.crypto, b, actual);
    SameBodySameHash(r.crypto, s.ledger.blocks[s.tip], truth.ledger.blocks[s.tip]);
  }

  /** The next genuine block, with any certificate that meets the quorum, is accepted. */
  lemma NextIsAccepted(r: Rules, s: ChainState, truth: ChainState, b: Block)
    requires InStep(r, s, truth) && Genuine(truth, b) && b.height == s.tip + 1
    requires QuorumMet(r.crypto, b, r.quorum, r.validators)
    ensures Commit(r, s, b).1 == Accepted && InStep(r, Commit(r, s, b).0, truth)
    ensures Commit(r, s, b).0.tip == s.tip + 1
  {
    var actual := truth.ledger.blocks[b.height];
    assert BlockFits(r, truth.ledger.blocks, b.height);
    SameBodySameHash(r.crypto, b, actual);
    NextIsAdmitted(r, s, truth, b);
    var past := History(truth.ledger.blocks, s.tip);
    SortedHistoryPrefix(r, truth, b.height);
    assert History(truth.ledger.blocks, b.height) == past + b.transactions;
    NoncePlanReplays(r.crypto, s.ledger, past, b.transactions);
    CommitCompletedKeepsStep(r, s, truth, b);
  }

  lemma CommitCompletedKeepsStep(r: Rules, s: ChainState, truth: ChainState, b: Block)
    requires InStep(r, s, truth) && Genuine(truth, b) && b.height == s.tip + 1
    requires Admission(r, s.ledger, s.tip, b) == Accepted && NoncePlan(r.crypto, s.ledger, b.transactions).1 == Accepted
    requires Exact(ApplyAll(s.ledger, NoncePlan(r.crypto, s.ledger, b.transactions).0), History(truth.ledger.blocks, b.height))
    ensures Commit(r, s, b).1 == Accepted && InStep(r, Commit(r, s, b).0, truth)
    ensures Commit(r, s, b).0.tip == s.tip + 1
  {
    hide Good, NoncePlan, ApplyAll, Commit, LastIn, History, QuorumMet;
    CommitCompleted(r, s, b);
    AcceptedEffect(r, s, b);
    var L1 := ApplyAll(s.ledger, NoncePlan(r.crypto, s.ledger, b.transactions).0);
    BlockExtendsPrefix(L1, s, truth, b);
  }

  lemma BlockExtendsPrefix(L1: Ledger, s: ChainState, truth: ChainState, b: Block)
    requires IsPrefix(s.ledger, s.tip, truth) && Genuine(truth, b) && b.height == s.tip + 1
    requires L1.blocks == s.ledger.blocks && L1.head == s.ledger.head
    ensures IsPrefix(Apply(L1, Write.PutBlock(b)), b.height, truth)
    ensures forall txs :: Exact(L1, txs) ==> Exact(Apply(L1, Write.PutBlock(b)), txs)
  {
    var L2 := Apply(L1, Write.PutBlock(b));
    forall txs | Exact(L1, txs) ensures Exact(L2, txs) {
      forall a ensures LastNonce(L2, a) == LastIn(txs, a) {
        assert LastNonce(L1, a) == LastIn(txs, a);
      }
    }
  }

  /** A genuine block, or one whose certificate falls short of the quorum. */
  predicate Harmless(r: Rules, truth: ChainState, b: Block) {
    Genuine(truth, b) || !QuorumMet(r.crypto, b, r.quorum, r.validators)
  }

  /** Any other harmless block is refused and leaves no trace. */
  lemma OthersAreRefused(r: Rules, s: ChainState, truth: ChainState, b: Block)
    requires InStep(r, s, truth) && Harmless(r, truth, b)
    requires b.height != s.tip + 1 || !QuorumMet(r.crypto, b, r.quorum, r.validators)
    ensures Commit(r, s, b).1 != Accepted && Commit(r, s, b).0 == s
  {
    CommitRefused(r, s, b);
  }

  // ---------------------------------------------------------------- gossip

  /** runBlockCommitListener over a sequence of gossiped blocks. */
  function Gossip(r: Rules, s: ChainState, blocks: seq<Block>): ChainState
    decreases |blocks|
  {
    if blocks == [] then s else Gossip(r, Commit(r, s, blocks[0]).0, blocks[1..])
  }

  /**
   Whatever genuine blocks arrive, early, late, repeated or out of order, and whatever uncertified
   ones, the relay's chain stays a prefix of the true one.
   */
  lemma {:induction false} GossipKeepsPrefix(r: Rules, s: ChainState, truth: ChainState, blocks: seq<Block>)
    requires InStep(r, s, truth) && forall b :: b in blocks ==> Harmless(r, truth, b)
    ensures InStep(r, Gossip(r, s, blocks), truth) && s.tip <= Gossip(r, s, blocks).tip
    decreases |blocks|
  {
    if blocks != [] {
      var b := blocks[0];
      assert Harmless(r, truth, b);
      if b.height == s.tip + 1 && QuorumMet(r.crypto, b, r.quorum, r.validators) {
        NextIsAccepted(r, s, truth, b);
      } else {
        OthersAreRefused(r, s, truth, b);
      }
      hide InStep, Commit;
      GossipKeepsPrefix(r, Commit(r, s, b).0, truth, blocks[1..]);
    }
  }

  /** A fresh relay is in step with every good chain. */
  lemma FreshRelayInStep(r: Rules, truth: ChainState)
    requires Good(r, truth) && truth.tip < MAX_U64
    ensures InStep(r, Boot(r.crypto, FRESH), truth)
  {
    FreshBootIsGood(r);
    var s := Boot(r.crypto, FRESH);
    assert ApplyAll(FRESH, [Write.PutBlock(GenesisBlock(r.crypto))]) == Apply(FRESH, Write.PutBlock(GenesisBlock(r.crypto)));
    assert History(truth.ledger.blocks, 0) == [];
  }

  // ---------------------------------------------------------------- replay completeness

  /** The first k blocks above genesis, in order. */
  function Replay(truth: ChainState, k: u64): seq<Block>
    requires forall i: u64 :: i <= k ==> i in truth.ledger.blocks
    decreases k
  {
    if k == 0 then [] else Replay(truth, k - 1) + [truth.ledger.blocks[k]]
  }

  lemma {:induction false} GossipAppend(r: Rules, s: ChainState, a: seq<Block>, b: seq<Block>)
    ensures Gossip(r, s, a + b) == Gossip(r, Gossip(r, s, a), b)
    decreases |a|
  {
    if a == [] {
      assert a + b == b;
    } else {
      assert (a + b)[1..] == a[1..] + b;
      hide Commit;
      GossipAppend(r, Commit(r, s, a[0]).0, a[1..], b);
    }
  }

  lemma {:induction false} ReplayIsAccepted(r: Rules, truth: ChainState, k: u64)
    requires Good(r, truth) && truth.tip < MAX_U64 && k <= truth.tip
    ensures var s := Gossip(r, Boot(r.crypto, FRESH), Replay(truth, k)); InStep(r, s, truth) && s.tip == k
    decreases k
  {
    if k == 0 {
      FreshRelayInStep(r, truth);
    } else {
      ReplayIsAccepted(r, truth, k - 1);
      var before := Gossip(r, Boot(r.crypto, FRESH), Replay(truth, k - 1));
      var b := truth.ledger.blocks[k];
      assert BlockFits(r, truth.ledger.blocks, k);
      GossipAppend(r, Boot(r.crypto, FRESH), Replay(truth, k - 1), [b]);
      assert Gossip(r, before, [b]) == Commit(r, before, b).0;
      hide InStep, Commit, Boot, BlockFits, Good;
      NextIsAccepted(r, before, truth, b);
    }
  }

  /**
   Replay completeness: the chain left by any life of a validator, through accepted and rejected
   blocks, store errors and crashes, is accepted block by block by a fresh relay.
   */
  lemma ReplayCompleteness(r: Rules, attempts: seq<Attempt>)
    requires |attempts| < MAX_U64
    ensures var truth := Live(r, attempts);
      && Good(r, truth)
      && var s := Gossip(r, Boot(r.crypto, FRESH), Replay(truth, truth.tip));
         s.tip == truth.tip && IsPrefix(s.ledger, s.tip, truth)
  {
    EveryLifeIsGood(r, attempts);
    ReplayIsAccepted(r, Live(r, attempts), Live(r, attempts).tip);
  }

  // ---------------------------------------------------------------- backfill

  const BACKFILL_BATCH: u32 := 200

  /** A validator's chain that is itself a beginning of the true chain, under certificates of its own. */
  ghost predicate Serves(r: Rules, g: ChainState, truth: ChainState) {
    Good(r, g) && g.tip < MAX_U64 && IsPrefix(g.ledger, g.tip, truth)
  }

  lemma GapFreeOfServes(r: Rules, g: ChainState, truth: ChainState)
    requires Serves(r, g, truth)
    ensures GapFree(g.ledger, g.tip) && g.tip < MAX_U64
  {
  }

  lemma ServedBlockIsGenuine(r: Rules, g: ChainState, truth: ChainState, k: u64)
    requires Serves(r, g, truth) && 0 < k <= g.tip
    ensures k in g.ledger.blocks && g.ledger.blocks[k].height == k
    ensures Genuine(truth, g.ledger.blocks[k]) && QuorumMet(r.crypto, g.ledger.blocks[k], r.quorum, r.validators)
  {
    assert BlockFits(r, g.ledger.blocks, k);
  }

  /** The pool holds no transaction of the given blocks. */
  predicate Cleared(c: Crypto, p: Pool, txs: seq<Transaction>) {
    forall h :: h in p.byHash ==> h !in Hashes(c, txs)
  }

  lemma ClearedMore(c: Crypto, p: Pool, past: seq<Transaction>, txs: seq<Transaction>)
    requires Cleared(c, p, past)
    ensures Cleared(c, RemoveFrom(c, p, txs), past + txs)
  {
    hide TxHash;
    forall h | h in RemoveFrom(c, p, txs).byHash ensures h !in Hashes(c, past + txs) {
      assert h !in Hashes(c, past) && h !in Hashes(c, txs);
    }
  }

  /** The transactions of blocks from + 1 to last, in chain order. */
  function Stretch(blocks: map<u64, Block>, from: u64, last: u64): seq<Transaction>
    requires forall k: u64 :: from < k <= last ==> k in blocks
    decreases last
  {
    if last <= from then [] else Stretch(blocks, from, last - 1) + blocks[last].transactions
  }

  function RulesOf(c: Crypto, quorum: int, validators: seq<Bytes>): Rules {
    Rules(c, quorum, set v | v in validators)
  }

  /** What backfill keeps at every point between two blocks. */
  ghost predicate CaughtUpTo(r: Rules, s: ChainState, truth: ChainState, start: u64, c: Crypto, p: Pool) {
    && InStep(r, s, truth) && start <= s.tip
    && GoodPool(c, p)
    && Cleared(c, p, Stretch(truth.ledger.blocks, start, s.tip))
  }

  lemma StartsCaughtUp(r: Rules, s: ChainState, truth: ChainState, c: Crypto, p: Pool)
    requires InStep(r, s, truth) && GoodPool(c, p)
    ensures CaughtUpTo(r, s, truth, s.tip, c, p)
  {
  }

  lemma OneBlockFurther(r: Rules, s: ChainState, truth: ChainState, start: u64, c: Crypto, p: Pool, b: Block)
    requires CaughtUpTo(r, s, truth, start, c, p)
    requires Genuine(truth, b) && b.height == s.tip + 1 && QuorumMet(r.crypto, b, r.quorum, r.validators)
    ensures Commit(r, s, b).1 == Accepted && Commit(r, s, b).0.tip == s.tip + 1
    ensures CaughtUpTo(r, Commit(r, s, b).0, truth, start, c, RemoveFrom(c, p, b.transactions))
  {
    NextIsAccepted(r, s, truth, b);
    hide Commit, InStep, GoodPool, QuorumMet, RemoveFrom, Cleared;
    RemoveKeepsGood(c, p, b.transactions);
    ClearedMore(c, p, Stretch(truth.ledger.blocks, start, s.tip), b.transactions);
  }

  /** Certified genuine blocks at tip + 1, tip + 2, ... */
  ghost predicate GenuineRun(r: Rules, truth: ChainState, blocks: seq<Block>, tip: u64) {
    forall k :: 0 <= k < |blocks| ==>
      Genuine(truth, blocks[k]) && blocks[k].height == tip + 1 + k && QuorumMet(r.crypto, blocks[k], r.quorum, r.validators)
  }

  /** A gateway's reply: nothing once the relay is as far as the gateway, a certified stretch before. */
  lemma ReplyIsGenuineRun(r: Rules, g: ChainState, truth: ChainState, tip: u64)
    requires Serves(r, g, truth) && tip < MAX_U64
    ensures var blocks := Contiguous(g.ledger.blocks, tip + 1, BatchLimit(BACKFILL_BATCH));
      && GenuineRun(r, truth, blocks, tip)
      && Served(g.ledger.blocks, tip + 1, BACKFILL_BATCH) == ToWire(blocks)
      && |ToWire(blocks)| == |blocks|
      && (|blocks| == 0 <==> g.tip <= tip)
  {
    hide Linked, BlockFits, QuorumMet, Genuine, History, Covers, Contiguous, SameBody, NoncesIncrease;
    var blocks := Contiguous(g.ledger.blocks, tip + 1, BatchLimit(BACKFILL_BATCH));
    GapFreeOfServes(r, g, truth);
    ContiguousIsRange(g.ledger, g.tip, tip + 1, BatchLimit(BACKFILL_BATCH));
    forall k: nat | k < |blocks|
      ensures Genuine(truth, blocks[k]) && blocks[k].height == tip + 1 + k && QuorumMet(r.crypto, blocks[k], r.quorum, r.validators)
    {
      ServedBlockIsGenuine(r, g, truth, tip + 1 + k);
    }
  }
}
