/**
 Backfill of a relay (cmd/node/relay.go, backfillOnce) while its gossip listener goes on: both commit to
 the same chain object, so a gossiped block may overtake a fetched one between any two calls.
 */
module Backfills {
  import opened Base
  import opened Blocks
  import opened Ledgers
  import opened Storage
  import opened Chains
  import opened Wire
  import opened Mempools
  import opened Relays
  import opened Gossips

  // ---------------------------------------------------------------- what every commit keeps

  /** Caught up, or after a store error (`broke`) at least a prefix of the true chain. */
  ghost predicate Kept(r: Rules, s: ChainState, truth: ChainState, start: u64, c: Crypto, p: Pool, broke: bool) {
    && start <= s.tip && truth.tip < MAX_U64 && GoodPool(c, p)
    && IsPrefix(s.ledger, s.tip, truth)
    && (!broke ==> CaughtUpTo(r, s, truth, start, c, p))
  }

  /** A store error stays one, and a reliable store has none. */
  ghost predicate MayBreak(reliable: bool, before: bool, after: bool) {
    (before ==> after) && (reliable && after ==> before)
  }

  lemma StartsKept(r: Rules, s: ChainState, truth: ChainState, c: Crypto, p: Pool)
    requires InStep(r, s, truth) && GoodPool(c, p)
    ensures Kept(r, s, truth, s.tip, c, p, false)
  {
    StartsCaughtUp(r, s, truth, c, p);
  }

  lemma KeptFacts(r: Rules, s: ChainState, truth: ChainState, start: u64, c: Crypto, p: Pool, broke: bool)
    requires Kept(r, s, truth, start, c, p, broke)
    ensures start <= s.tip <= truth.tip < MAX_U64 && GoodPool(c, p) && IsPrefix(s.ledger, s.tip, truth)
    ensures !broke ==> CaughtUpTo(r, s, truth, start, c, p)
  {
  }

  lemma AcceptedHarmless(r: Rules, s: ChainState, truth: ChainState, b: Block)
    requires Commit(r, s, b).1 == Accepted && Harmless(r, truth, b)
    ensures Genuine(truth, b) && b.height == NextHeight(s.tip)
  {
    AcceptedEffect(r, s, b);
    hide Commit, NoncePlan, Genuine, ApplyAll;
  }

  /** A harmless block, accepted or refused. The next genuine one is accepted unless the store has failed before. */
  lemma CommitKeeps(r: Rules, s: ChainState, truth: ChainState, start: u64, c: Crypto, p: Pool, broke: bool, b: Block)
    requires Kept(r, s, truth, start, c, p, broke) && Harmless(r, truth, b)
    ensures var (s', verdict) := Commit(r, s, b);
      if verdict == Accepted then
        b.height == s.tip + 1 == s'.tip && Kept(r, s', truth, start, c, RemoveFrom(c, p, b.transactions), broke)
      else
        s'.tip == s.tip && Kept(r, s', truth, start, c, p, broke)
    ensures !broke && b.height == s.tip + 1 && QuorumMet(r.crypto, b, r.quorum, r.validators) ==>
      Commit(r, s, b).1 == Accepted
  {
    KeptFacts(r, s, truth, start, c, p, broke);
    CommitExactly(r, s, truth, b);
    RemoveKeepsGood(c, p, b.transactions);
    if Commit(r, s, b).1 == Accepted {
      AcceptedHarmless(r, s, truth, b);
    }
    if !broke {
      Calm(r, s, truth, start, c, p, b);
    }
    hide CaughtUpTo, Commit, IsPrefix, GoodPool, RemoveFrom, Genuine, QuorumMet;
  }

  lemma Calm(r: Rules, s: ChainState, truth: ChainState, start: u64, c: Crypto, p: Pool, b: Block)
    requires CaughtUpTo(r, s, truth, start, c, p) && Harmless(r, truth, b)
    ensures var (s', verdict) := Commit(r, s, b);
      if verdict == Accepted then CaughtUpTo(r, s', truth, start, c, RemoveFrom(c, p, b.transactions)) else s' == s
    ensures b.height == s.tip + 1 && QuorumMet(r.crypto, b, r.quorum, r.validators) ==> Commit(r, s, b).1 == Accepted
  {
    hide CaughtUpTo, Commit, RemoveFrom, QuorumMet, Genuine;
    HarmlessKeepsCaughtUp(r, s, truth, start, c, p, [b], b);
    if b.height == s.tip + 1 && QuorumMet(r.crypto, b, r.quorum, r.validators) {
      OneBlockFurther(r, s, truth, start, c, p, b);
    }
  }

  lemma BreakKeeps(r: Rules, s: ChainState, truth: ChainState, start: u64, c: Crypto, p: Pool,
                   broke: bool, b: Block, L: Ledger)
    requires Kept(r, s, truth, start, c, p, broke) && BrokenOff(r, s, b, L)
    ensures Kept(r, ChainState(L, s.tip), truth, start, c, p, true)
  {
    KeptFacts(r, s, truth, start, c, p, broke);
    BrokenExactly(r, s, truth, b, L);
    hide BrokenOff, IsPrefix, GoodPool;
  }

  // ---------------------------------------------------------------- the loops

  lemma ReplyAt(blocks: seq<Block>, i: nat)
    requires i < |ToWire(blocks)|
    ensures ToWire(blocks)[i] == BlockToPb(blocks[i]) && Decodable(BlockToPb(blocks[i]))
  {
    WireRoundTrip(blocks[i], blocks[i]);
  }

  /** Decoding a block that a gateway encoded. */
  method DecodeServed(p: BlockPB, ghost served: Block) returns (b: Block)
    requires p == BlockToPb(served)
    ensures b == served
  {
    WireRoundTrip(served, served);
    var decoded := BlockFromPb(p);
    if decoded.None? {
      assert false; // where backfillOnce gives up: a gateway's blocks always decode
    }
    b := decoded.value;
    WireRoundTrip(b, served);
  }

  /** CommitBlock, and on success Remove, as listener and backfill both do. */
  method Offer(chain: Chain, pool: Mempool, quorum: int, validators: seq<Bytes>, b: Block,
               ghost truth: ChainState, ghost start: u64, ghost broke: bool)
    returns (applied: bool, ghost broke': bool)
    requires chain.Valid() && pool.nonces == chain.store
    requires Kept(RulesOf(chain.crypto, quorum, validators), chain.State(), truth, start, pool.crypto, pool.State(), broke)
    requires Harmless(RulesOf(chain.crypto, quorum, validators), truth, b)
    modifies chain, chain.store, pool
    ensures chain.Valid() && MayBreak(chain.store.reliable, broke, broke')
    ensures Kept(RulesOf(chain.crypto, quorum, validators), chain.State(), truth, start, pool.crypto, pool.State(), broke')
    ensures chain.tip == old(chain.tip) + if applied then 1 else 0
    ensures applied ==> b.height == chain.tip
    ensures !applied && !broke' ==>
      b.height != old(chain.tip) + 1 || !QuorumMet(chain.crypto, b, quorum, RulesOf(chain.crypto, quorum, validators).validators)
  {
    ghost var r := RulesOf(chain.crypto, quorum, validators);
    ghost var before := chain.State();
    KeptFacts(r, before, truth, start, pool.crypto, pool.State(), broke);
    hide Kept, Harmless, Genuine, QuorumMet, Commit, Represents, BrokenOff, GoodPool, IsPrefix, RemoveFrom, CaughtUpTo;
    CommitKeeps(r, before, truth, start, pool.crypto, pool.State(), broke, b);
    var outcome := chain.CommitBlock(b, quorum, validators);
    applied, broke' := outcome == Done(Accepted), broke;
    if applied {
      pool.Remove(b.transactions);
    } else if outcome.StoreError? {
      BreakKeeps(r, before, truth, start, pool.crypto, pool.State(), broke, b, chain.store.ledger);
      broke' := true;
    }
  }

  /** The listener in between: any number of the gossiped blocks, in any order and repetition. */
  method Meanwhile(chain: Chain, pool: Mempool, quorum: int, validators: seq<Bytes>, gossip: seq<Block>,
                   ghost truth: ChainState, ghost start: u64, ghost broke: bool)
    returns (ghost taken: nat, ghost broke': bool)
    requires chain.Valid() && pool.nonces == chain.store
    requires Kept(RulesOf(chain.crypto, quorum, validators), chain.State(), truth, start, pool.crypto, pool.State(), broke)
    requires GossipIsHarmless(RulesOf(chain.crypto, quorum, validators), truth, gossip)
    modifies chain, chain.store, pool
    ensures chain.Valid() && MayBreak(chain.store.reliable, broke, broke') && (gossip == [] ==> taken == 0)
    ensures Kept(RulesOf(chain.crypto, quorum, validators), chain.State(), truth, start, pool.crypto, pool.State(), broke')
    ensures chain.tip == old(chain.tip) + taken
  {
    hide Kept, Harmless, Represents, GoodPool;
    taken, broke' := 0, broke;
    var times: nat :| 0 <= times;
    if gossip == [] {
      return;
    }
    for i := 0 to times
      invariant chain.Valid() && MayBreak(chain.store.reliable, broke, broke')
      invariant Kept(RulesOf(chain.crypto, quorum, validators), chain.State(), truth, start, pool.crypto, pool.State(), broke')
      invariant chain.tip == old(chain.tip) + taken
    {
      var k :| 0 <= k < |gossip|;
      assert Harmless(RulesOf(chain.crypto, quorum, validators), truth, gossip[k]);
      var applied;
      applied, broke' := Offer(chain, pool, quorum, validators, gossip[k], truth, start, broke');
      taken := taken + if applied then 1 else 0;
    }
  }

  /**
   The inner loop of backfillOnce over one batch: decode, commit, remove from the pool. It stops early only
   after an error of the relay's own store, or overtaken by gossip.
   */
  method ApplyBatch(chain: Chain, pool: Mempool, quorum: int, validators: seq<Bytes>, reply: seq<BlockPB>,
                    gossip: seq<Block>, ghost blocks: seq<Block>, ghost truth: ChainState, ghost start: u64, ghost broke: bool)
    returns (done: bool, ghost taken: nat, ghost broke': bool)
    requires chain.Valid() && pool.nonces == chain.store
    requires var r := RulesOf(chain.crypto, quorum, validators);
      && Kept(r, chain.State(), truth, start, pool.crypto, pool.State(), broke)
      && GenuineRun(r, truth, blocks, chain.tip) && GossipIsHarmless(r, truth, gossip)
    requires reply == ToWire(blocks)
    modifies chain, chain.store, pool
    ensures chain.Valid() && MayBreak(chain.store.reliable, broke, broke') && (gossip == [] ==> taken == 0)
    ensures Kept(RulesOf(chain.crypto, quorum, validators), chain.State(), truth, start, pool.crypto, pool.State(), broke')
    ensures old(chain.tip) + taken <= chain.tip
    ensures if done then chain.tip == old(chain.tip) + |blocks| else broke' || taken > 0
  {
    ghost var r := RulesOf(chain.crypto, quorum, validators);
    hide Kept, Genuine, QuorumMet, BlockToPb, Decodable, Represents, GoodPool, ToWire, GenuineRun, GossipIsHarmless;
    taken, broke' := 0, broke;
    for i := 0 to |reply|
      invariant chain.Valid() && MayBreak(chain.store.reliable, broke, broke') && taken == 0
      invariant Kept(r, chain.State(), truth, start, pool.crypto, pool.State(), broke')
      invariant chain.tip == old(chain.tip) + i
    {
      ReplyAt(blocks, i);
      var b := DecodeServed(reply[i], blocks[i]);
      RunAt(r, truth, blocks, old(chain.tip), i);
      taken, broke' := Meanwhile(chain, pool, quorum, validators, gossip, truth, start, broke');
      var applied;
      applied, broke' := Offer(chain, pool, quorum, validators, b, truth, start, broke');
      if !applied {
        return false, taken, broke';
      }
    }
    return true, 0, broke';
  }

  lemma RunAt(r: Rules, truth: ChainState, blocks: seq<Block>, tip: u64, i: nat)
    requires GenuineRun(r, truth, blocks, tip) && i < |blocks|
    ensures Genuine(truth, blocks[i]) && blocks[i].height == tip + 1 + i && QuorumMet(r.crypto, blocks[i], r.quorum, r.validators)
  {
  }

  /** What a gateway answers to a relay at `tip`. */
  method ReplyOf(gateway: ChainState, tip: u64, ghost r: Rules, ghost truth: ChainState)
    returns (reply: seq<BlockPB>, ghost blocks: seq<Block>)
    requires Serves(r, gateway, truth) && tip < MAX_U64
    ensures reply == ToWire(blocks) && |reply| == |blocks| && GenuineRun(r, truth, blocks, tip)
    ensures |blocks| == 0 <==> gateway.tip <= tip
  {
    reply := Served(gateway.ledger.blocks, NextHeight(tip), BACKFILL_BATCH);
    blocks := Contiguous(gateway.ledger.blocks, tip + 1, BatchLimit(BACKFILL_BATCH));
    ReplyIsGenuineRun(r, gateway, truth, tip);
  }

  datatype Fetched = CallFailed | NothingNew | Applied | GaveUp

  /** One GetBlocks call of backfillOnce on a gateway, given as its chain, and what is done with the reply. */
  method FetchBatch(chain: Chain, pool: Mempool, quorum: int, validators: seq<Bytes>, gateway: ChainState, up: bool,
                    gossip: seq<Block>, ghost truth: ChainState, ghost start: u64, ghost broke: bool)
    returns (outcome: Fetched, ghost taken: nat, ghost broke': bool)
    requires chain.Valid() && pool.nonces == chain.store
    requires var r := RulesOf(chain.crypto, quorum, validators);
      && Kept(r, chain.State(), truth, start, pool.crypto, pool.State(), broke)
      && Serves(r, gateway, truth) && GossipIsHarmless(r, truth, gossip)
    modifies chain, chain.store, pool
    ensures chain.Valid() && MayBreak(chain.store.reliable, broke, broke') && (gossip == [] ==> taken == 0) && old(chain.tip) + taken <= chain.tip
    ensures Kept(RulesOf(chain.crypto, quorum, validators), chain.State(), truth, start, pool.crypto, pool.State(), broke')
    ensures outcome == NothingNew ==> gateway.tip <= chain.tip
    ensures up ==> outcome != CallFailed
    ensures outcome == Applied ==> old(chain.tip) < chain.tip && old(chain.tip) < gateway.tip
    ensures outcome == GaveUp ==> broke' || taken > 0
  {
    ghost var r := RulesOf(chain.crypto, quorum, validators);
    hide Kept, Serves, Represents, ToWire, GenuineRun, RulesOf, GoodPool, GossipIsHarmless;
    ghost var more;
    taken, broke' := Meanwhile(chain, pool, quorum, validators, gossip, truth, start, broke);
    KeptFacts(r, chain.State(), truth, start, pool.crypto, pool.State(), broke');
    var delivered: bool := *;
    if !up && !delivered {
      outcome := CallFailed;
      return;
    }
    var reply, blocks := ReplyOf(gateway, chain.tip, r, truth);
    if |reply| == 0 {
      outcome := NothingNew;
      return;
    }
    var done;
    done, more, broke' := ApplyBatch(chain, pool, quorum, validators, reply, gossip, blocks, truth, start, broke');
    taken := taken + more;
    outcome := if done then Applied else GaveUp;
  }

  /** backfillOnce against one gateway. `up` says that neither the dial nor a call fails; otherwise any of them may. */
  method CatchUp(chain: Chain, pool: Mempool, quorum: int, validators: seq<Bytes>, gateway: ChainState, up: bool,
                 gossip: seq<Block>, ghost truth: ChainState, ghost start: u64, ghost broke: bool)
    returns (done: bool, ghost taken: nat, ghost broke': bool)
    requires chain.Valid() && pool.nonces == chain.store
    requires var r := RulesOf(chain.crypto, quorum, validators);
      && Kept(r, chain.State(), truth, start, pool.crypto, pool.State(), broke)
      && Serves(r, gateway, truth) && GossipIsHarmless(r, truth, gossip)
    modifies chain, chain.store, pool
    ensures chain.Valid() && MayBreak(chain.store.reliable, broke, broke') && (gossip == [] ==> taken == 0) && old(chain.tip) + taken <= chain.tip
    ensures Kept(RulesOf(chain.crypto, quorum, validators), chain.State(), truth, start, pool.crypto, pool.State(), broke')
    ensures done && up ==> gateway.tip <= chain.tip
    ensures !done ==> broke' || taken > 0
  {
    hide Kept, Serves, Represents, RulesOf, GossipIsHarmless;
    done, taken, broke' := true, 0, broke;
    var dialled: bool := *;
    if !up && !dialled {
      return;
    }
    while true
      invariant chain.Valid() && MayBreak(chain.store.reliable, broke, broke') && (gossip == [] ==> taken == 0) && old(chain.tip) + taken <= chain.tip
      invariant Kept(RulesOf(chain.crypto, quorum, validators), chain.State(), truth, start, pool.crypto, pool.State(), broke')
      decreases gateway.tip - chain.tip
    {
      var outcome;
      ghost var more;
      outcome, more, broke' := FetchBatch(chain, pool, quorum, validators, gateway, up, gossip, truth, start, broke');
      taken := taken + more;
      if outcome != Applied {
        done := outcome != GaveUp;
        return;
      }
    }
  }

  /** The tip is no lower than that of any of the first `n` gateways that are up. */
  predicate AsFarAs(gateways: seq<ChainState>, up: seq<bool>, n: nat, tip: u64)
    requires |up| == |gateways|
  {
    n <= |gateways| && forall i :: 0 <= i < n && up[i] ==> gateways[i].tip <= tip
  }

  lemma AsFarAsNone(gateways: seq<ChainState>, up: seq<bool>, tip: u64)
    requires |up| == |gateways|
    ensures AsFarAs(gateways, up, 0, tip)
  {
  }

  lemma AsFarAsMore(gateways: seq<ChainState>, up: seq<bool>, n: nat, tip: u64, tip': u64)
    requires |up| == |gateways| && AsFarAs(gateways, up, n, tip) && tip <= tip' && n < |gateways|
    requires up[n] ==> gateways[n].tip <= tip'
    ensures AsFarAs(gateways, up, n + 1, tip')
  {
  }

  /**
   backfillOnce, with a listener that commits harmless gossip at any point in between. Against gateways that
   serve beginnings of one true chain it ends, and the relay's chain is a prefix of the true one. Unless a
   store error occurs, the relay is in step and its pool holds no transaction of any block committed during
   the call. It visits all gateways, and is then at least as far as each that is up, unless a store error
   occurs or gossip has committed a block during the call.
   */
  method BackfillOnce(chain: Chain, pool: Mempool, quorum: int, validators: seq<Bytes>, gateways: seq<ChainState>,
                      up: seq<bool>, gossip: seq<Block>, ghost truth: ChainState)
    returns (done: bool, ghost taken: nat, ghost broke: bool)
    requires chain.Valid() && pool.nonces == chain.store && GoodPool(pool.crypto, pool.State())
    requires InStep(RulesOf(chain.crypto, quorum, validators), chain.State(), truth) && |up| == |gateways|
    requires forall i :: 0 <= i < |gateways| ==> Serves(RulesOf(chain.crypto, quorum, validators), gateways[i], truth)
    requires GossipIsHarmless(RulesOf(chain.crypto, quorum, validators), truth, gossip)
    modifies chain, chain.store, pool
    ensures chain.Valid() && IsPrefix(chain.store.ledger, chain.tip, truth) && old(chain.tip) + taken <= chain.tip
    ensures !broke ==>
      CaughtUpTo(RulesOf(chain.crypto, quorum, validators), chain.State(), truth, old(chain.tip), pool.crypto, pool.State())
    ensures done ==> forall i :: 0 <= i < |gateways| && up[i] ==> gateways[i].tip <= chain.tip
    ensures !done ==> broke || taken > 0
    ensures (gossip == [] ==> taken == 0) && (chain.store.reliable ==> !broke)
  {
    hide Kept, CaughtUpTo, Serves, Represents, InStep, GoodPool, IsPrefix, RulesOf, GossipIsHarmless;
    ghost var r := RulesOf(chain.crypto, quorum, validators);
    ghost var start := chain.tip;
    StartsKept(r, chain.State(), truth, pool.crypto, pool.State());
    AsFarAsNone(gateways, up, chain.tip);
    done, taken, broke := true, 0, false;
    for i := 0 to |gateways|
      invariant chain.Valid() && old(chain.tip) + taken <= chain.tip && (gossip == [] ==> taken == 0)
      invariant Kept(r, chain.State(), truth, start, pool.crypto, pool.State(), broke) && (chain.store.reliable ==> !broke)
      invariant done && AsFarAs(gateways, up, i, chain.tip)
    {
      ghost var more;
      ghost var before := chain.tip;
      done, more, broke := CatchUp(chain, pool, quorum, validators, gateways[i], up[i], gossip, truth, start, broke);
      taken := taken + more;
      if !done {
        KeptFacts(r, chain.State(), truth, start, pool.crypto, pool.State(), broke);
        return;
      }
      AsFarAsMore(gateways, up, i, before, chain.tip);
    }
    KeptFacts(r, chain.State(), truth, start, pool.crypto, pool.State(), broke);
  }
}
