/**
 A commit that the store broke off after some of its watermarks (internal/blockchain/chain.go): what can
 still become of that block, and of a relay that was waiting for it.
 */
module Retries {
  import opened Base
  import opened Blocks
  import opened Ledgers
  import opened Wire
  import opened Relays

  // ---------------------------------------------------------------- the block itself

  /** More of a node's life: commits, refusals, store errors, crashes and restarts. */
  function Continue(r: Rules, s: ChainState, attempts: seq<Attempt>): ChainState
    decreases |attempts|
  {
    if attempts == [] then s else Continue(r, Try(r, s, attempts[0]), attempts[1..])
  }

  /** What a commit of `b` leaves if the store breaks it off after `cut` writes. */
  function BrokenAt(r: Rules, s: ChainState, b: Block, cut: nat): ChainState
    requires cut <= |CommitPlan(r, s.ledger, s.tip, b).0|
  {
    ChainState(ApplyAll(s.ledger, CommitPlan(r, s.ledger, s.tip, b).0[..cut]), s.tip)
  }

  lemma {:induction false} PlanRaises(c: Crypto, L: Ledger, txs: seq<Transaction>, cut: nat, a: Bytes)
    requires cut <= |NoncePlan(c, L, txs).0|
    ensures LastNonce(L, a) <= LastNonce(ApplyAll(L, NoncePlan(c, L, txs).0[..cut]), a)
  {
    NoncePlanOnlyRaises(c, L, txs, cut);
  }

  lemma WritesRaise(r: Rules, s: ChainState, b: Block, cut: nat, a: Bytes)
    requires cut <= |CommitPlan(r, s.ledger, s.tip, b).0|
    ensures LastNonce(s.ledger, a) <= LastNonce(BrokenAt(r, s, b, cut).ledger, a)
  {
    var (ws, verdict) := CommitPlan(r, s.ledger, s.tip, b);
    if verdict == Accepted && cut == |ws| {
      var ns := NoncePlan(r.crypto, s.ledger, b.transactions).0;
      assert ws[..cut] == ns + [Write.PutBlock(b)];
      assert ns[..|ns|] == ns;
      PlanRaises(r.crypto, s.ledger, b.transactions, |ns|, a);
      ApplyAllAppend(s.ledger, ns, [Write.PutBlock(b)]);
    } else {
      PartialCommitOnlyRaises(r, s, b, cut);
    }
  }

  /** Nothing in a node's life lowers a watermark. */
  lemma TryRaises(r: Rules, s: ChainState, x: Attempt, a: Bytes)
    ensures LastNonce(s.ledger, a) <= LastNonce(Try(r, s, x).ledger, a)
  {
    var ws := CommitPlan(r, s.ledger, s.tip, x.block).0;
    var cut := if x.cut < |ws| then x.cut else |ws|;
    assert (if x.cut < |ws| then ws[..x.cut] else ws) == ws[..cut];
    WritesRaise(r, s, x.block, cut, a);
    BootKeepsNonces(r.crypto, ApplyAll(s.ledger, ws[..cut]), a);
  }

  lemma BootKeepsNonces(c: Crypto, L: Ledger, a: Bytes)
    ensures LastNonce(Boot(c, L).ledger, a) == LastNonce(L, a)
  {
    var w := Write.PutBlock(GenesisBlock(c));
    assert ApplyAll(L, [w]) == Apply(L, w);
  }

  lemma {:induction false} ContinueRaises(r: Rules, s: ChainState, attempts: seq<Attempt>, a: Bytes)
    ensures LastNonce(s.ledger, a) <= LastNonce(Continue(r, s, attempts).ledger, a)
    decreases |attempts|
  {
    if attempts != [] {
      TryRaises(r, s, attempts[0], a);
      hide Try;
      ContinueRaises(r, Try(r, s, attempts[0]), attempts[1..], a);
    }
  }

  /** A block whose first nonce lies below its watermark is refused without a write. */
  lemma FirstStale(r: Rules, s: ChainState, b: Block)
    requires b.transactions != [] && b.transactions[0].nonce <= LastNonce(s.ledger, b.transactions[0].from)
    ensures CommitPlan(r, s.ledger, s.tip, b).0 == [] && CommitPlan(r, s.ledger, s.tip, b).1 != Accepted
  {
  }

  lemma FirstWatermarkStays(r: Rules, s: ChainState, b: Block, cut: nat)
    requires Commit(r, s, b).1 == Accepted && b.transactions != []
    requires 0 < cut < |CommitPlan(r, s.ledger, s.tip, b).0|
    ensures LastNonce(ApplyAll(s.ledger, CommitPlan(r, s.ledger, s.tip, b).0[..cut]), b.transactions[0].from) >= b.transactions[0].nonce
  {
    var t := b.transactions[0];
    var ws := CommitPlan(r, s.ledger, s.tip, b).0;
    var L1 := Apply(s.ledger, SetNonce(t.from, t.nonce));
    var ns := NoncePlan(r.crypto, L1, b.transactions[1..]).0;
    NoncePlanOnlyRaises(r.crypto, L1, b.transactions[1..], cut - 1);
    assert ws[..cut] == [SetNonce(t.from, t.nonce)] + ns[..cut - 1];
    assert ws[..cut][1..] == ns[..cut - 1];
  }

  /** The same broken-off commit could be tried again right away only if it had written nothing. */
  lemma NothingWrittenYet(r: Rules, s: ChainState, b: Block)
    ensures BrokenAt(r, s, b, 0) == s
  {
    assert CommitPlan(r, s.ledger, s.tip, b).0[..0] == [];
  }

  /**
   A block whose commit was broken off can be committed at some later moment of the node's life, whatever
   blocks, store errors, crashes and restarts come in between, if and only if not one of its watermarks
   had been written. Otherwise its own first nonce counts as a replay for good.
   */
  lemma RetryAfterBreak(r: Rules, s: ChainState, b: Block, cut: nat)
    requires Commit(r, s, b).1 == Accepted && cut < |CommitPlan(r, s.ledger, s.tip, b).0|
    ensures Commit(r, BrokenAt(r, s, b, cut), b).1 == Accepted <==> cut == 0
    ensures (exists attempts :: Commit(r, Continue(r, BrokenAt(r, s, b, cut), attempts), b).1 == Accepted) <==> cut == 0
    ensures Good(r, s) ==> Boot(r.crypto, BrokenAt(r, s, b, cut).ledger) == BrokenAt(r, s, b, cut)
  {
    var s' := BrokenAt(r, s, b, cut);
    PartialCommitOnlyRaises(r, s, b, cut);
    if cut == 0 {
      NothingWrittenYet(r, s, b);
      assert Continue(r, s', []) == s;
    } else {
      FirstWatermarkStays(r, s, b, cut);
      FirstStale(r, s', b);
      forall attempts ensures Commit(r, Continue(r, s', attempts), b).1 != Accepted {
        ContinueRaises(r, s', attempts, b.transactions[0].from);
        FirstStale(r, Continue(r, s', attempts), b);
      }
    }
  }

  // ---------------------------------------------------------------- a relay that waits for it

  /** A prefix of the true chain whose next true block begins with a nonce below its watermark. */
  ghost predicate Stuck(r: Rules, s: ChainState, truth: ChainState) {
    && Good(r, truth) && s.tip < truth.tip < MAX_U64 && IsPrefix(s.ledger, s.tip, truth)
    && NextIsStale(s, truth.ledger.blocks[s.tip + 1])
  }

  predicate NextIsStale(s: ChainState, g: Block) {
    g.transactions != [] && g.transactions[0].nonce <= LastNonce(s.ledger, g.transactions[0].from)
  }

  /** Genuine or uncertified, no block is accepted or leaves a trace. */
  lemma StuckRefuses(r: Rules, s: ChainState, truth: ChainState, b: Block)
    requires Stuck(r, s, truth) && Harmless(r, truth, b)
    ensures CommitPlan(r, s.ledger, s.tip, b).0 == [] && CommitPlan(r, s.ledger, s.tip, b).1 != Accepted
  {
    if b.height == s.tip + 1 && QuorumMet(r.crypto, b, r.quorum, r.validators) {
      SameBodySameHash(r.crypto, b, truth.ledger.blocks[b.height]);
      FirstStale(r, s, b);
    }
  }

  lemma StuckTry(r: Rules, s: ChainState, truth: ChainState, x: Attempt)
    requires Stuck(r, s, truth) && Harmless(r, truth, x.block)
    ensures Try(r, s, x) == s
  {
    StuckRefuses(r, s, truth, x.block);
    hide CommitPlan, Harmless;
    assert ApplyAll(s.ledger, []) == s.ledger;
    assert BootPlan(r.crypto, s.ledger) == [];
  }

  ghost predicate AllHarmless(r: Rules, truth: ChainState, attempts: seq<Attempt>) {
    forall x :: x in attempts ==> Harmless(r, truth, x.block)
  }

  /** No harmless block, store error, crash or restart ever moves it. */
  lemma {:induction false} StuckForever(r: Rules, s: ChainState, truth: ChainState, attempts: seq<Attempt>)
    requires Stuck(r, s, truth) && AllHarmless(r, truth, attempts)
    ensures Continue(r, s, attempts) == s
    decreases |attempts|
  {
    if attempts != [] {
      hide Stuck, Harmless, Try;
      assert Harmless(r, truth, attempts[0].block);
      StuckTry(r, s, truth, attempts[0]);
      StuckForever(r, s, truth, attempts[1..]);
    }
  }

  /** Neither does any gossip of such blocks. */
  lemma {:induction false} GossipStaysStuck(r: Rules, s: ChainState, truth: ChainState, blocks: seq<Block>)
    requires Stuck(r, s, truth) && forall b :: b in blocks ==> Harmless(r, truth, b)
    ensures Gossip(r, s, blocks) == s
    decreases |blocks|
  {
    if blocks != [] {
      assert Harmless(r, truth, blocks[0]);
      StuckRefuses(r, s, truth, blocks[0]);
      assert Commit(r, s, blocks[0]).0 == s;
      hide Stuck, Harmless, Commit;
      GossipStaysStuck(r, s, truth, blocks[1..]);
    }
  }

  /** Nor any backfill: a gateway's reply is empty, or its first block is refused and the call ends. */
  lemma BackfillStaysStuck(r: Rules, s: ChainState, truth: ChainState, g: ChainState)
    requires Stuck(r, s, truth) && Serves(r, g, truth)
    ensures var blocks := Contiguous(g.ledger.blocks, s.tip + 1, BatchLimit(BACKFILL_BATCH));
      blocks == [] || (Commit(r, s, blocks[0]).0 == s && Commit(r, s, blocks[0]).1 != Accepted)
  {
    var blocks := Contiguous(g.ledger.blocks, s.tip + 1, BatchLimit(BACKFILL_BATCH));
    ReplyIsGenuineRun(r, g, truth, s.tip);
    hide Stuck, Serves, Contiguous, CommitPlan;
    if blocks != [] {
      assert Genuine(truth, blocks[0]);
      StuckRefuses(r, s, truth, blocks[0]);
      assert ApplyAll(s.ledger, []) == s.ledger;
    }
  }

  lemma BrokenIsStuck(r: Rules, s: ChainState, truth: ChainState, b: Block, cut: nat)
    requires InStep(r, s, truth) && Genuine(truth, b) && b.height == s.tip + 1 && Commit(r, s, b).1 == Accepted
    requires 0 < cut < |CommitPlan(r, s.ledger, s.tip, b).0|
    ensures Stuck(r, BrokenAt(r, s, b, cut), truth)
  {
    FirstWatermarkStays(r, s, b, cut);
    PartialCommitOnlyRaises(r, s, b, cut);
    SameBodySameHash(r.crypto, b, truth.ledger.blocks[b.height]);
    hide CommitPlan, Commit, Good, SameBody, ApplyAll;
  }

  /**
   A relay in step, whose commit of the next genuine block was broken off, can ever get past that height
   by genuine or uncertified blocks, through store errors, crashes and restarts, if and only if not one
   of the block's watermarks had been written.
   */
  lemma RelayAfterBreak(r: Rules, s: ChainState, truth: ChainState, b: Block, cut: nat)
    requires InStep(r, s, truth) && Genuine(truth, b) && b.height == s.tip + 1
    requires QuorumMet(r.crypto, b, r.quorum, r.validators) && cut < |CommitPlan(r, s.ledger, s.tip, b).0|
    ensures (exists attempts :: AllHarmless(r, truth, attempts) && Continue(r, BrokenAt(r, s, b, cut), attempts).tip > s.tip)
      <==> cut == 0
  {
    var s' := BrokenAt(r, s, b, cut);
    NextIsAccepted(r, s, truth, b);
    if cut == 0 {
      NothingWrittenYet(r, s, b);
      var x := Attempt(b, |CommitPlan(r, s.ledger, s.tip, b).0|, false);
      assert Harmless(r, truth, x.block);
      assert Try(r, s, x) == Commit(r, s, b).0;
      hide Try, Harmless, Commit, CommitPlan, InStep, Genuine, QuorumMet;
      assert [x][1..] == [];
      assert Continue(r, s, [x]) == Continue(r, Try(r, s, x), []);
      assert AllHarmless(r, truth, [x]);
    } else {
      BrokenIsStuck(r, s, truth, b, cut);
      hide Stuck, InStep, Commit, CommitPlan, AllHarmless, Continue, Genuine, QuorumMet;
      forall attempts | AllHarmless(r, truth, attempts) ensures Continue(r, s', attempts).tip == s.tip {
        StuckForever(r, s', truth, attempts);
      }
    }
  }
}
