/**
 From the pool to the chain and back: Add, Propose, CommitBlock and Remove as one node interleaves
 them. Propose, CommitBlock and Remove follow each other in the engine's one loop; Add may come in
 between anywhere.
 */
module Pipeline {
  import opened Base
  import opened Blocks
  import opened Ledgers
  import opened Chains
  import opened Mempools

  /** A transaction list this node proposed for a height. */
  datatype Draft = Draft(height: u64, txs: seq<Transaction>)

  /**
   The node's chain and pool, all the drafts it ever proposed, and the transactions of a block
   committed but not yet removed from the pool.
   */
  datatype Pipe = Pipe(chain: ChainState, pool: Pool, drafts: set<Draft>, removing: Option<seq<Transaction>>)

  datatype Event =
    | AddTx(tx: Transaction, now: i64, allowed: bool)
    | ProposeTxs(limit: nat, out: seq<Transaction>)
    | CommitBlock(block: Block)
    | RemoveTxs

  function Started(chain: ChainState): Pipe {
    Pipe(chain, EMPTY_POOL, {}, None)
  }

  /** An event that is not possible in `s` changes nothing. */
  ghost function Next(r: Rules, s: Pipe, e: Event): Pipe {
    match e
    case AddTx(tx, now, allowed) => s.(pool := AddTo(r.crypto, s.chain.ledger, s.pool, tx, now, allowed).0)
    case ProposeTxs(limit, out) =>
      if s.removing.None? && IsProposal(s.pool, limit, out) then s.(drafts := s.drafts + {Draft(NextHeight(s.chain.tip), out)}) else s
    case CommitBlock(b) => if s.removing.None? then Committed(r, s, b) else s
    case RemoveTxs =>
      if s.removing.Some? then s.(pool := RemoveFrom(r.crypto, s.pool, s.removing.value), removing := None) else s
  }

  ghost function Committed(r: Rules, s: Pipe, b: Block): Pipe {
    var (chain, verdict) := Commit(r, s.chain, b);
    s.(chain := chain, removing := if verdict == Accepted then Some(b.transactions) else None)
  }

  ghost function Run(r: Rules, s: Pipe, events: seq<Event>): Pipe
    decreases |events|
  {
    if events == [] then s else Next(r, Run(r, s, events[..|events| - 1]), events[|events| - 1])
  }

  /** The block carries a list this node proposed for the block's height. */
  predicate Own(s: Pipe, b: Block) {
    Draft(b.height, b.transactions) in s.drafts
  }

  /** Every block committed along the way was the node's own. */
  ghost predicate OwnRun(r: Rules, s: Pipe, events: seq<Event>) {
    forall k :: 0 <= k < |events| && events[k].CommitBlock? ==> Own(Run(r, s, events[..k]), events[k].block)
  }

  // ---------------------------------------------------------------- a well-numbered list

  /** Signed, and increasing nonces for each sender. */
  predicate WellNumbered(c: Crypto, txs: seq<Transaction>) {
    && (forall t :: t in txs ==> TxVerify(c, t))
    && forall i, j :: 0 <= i < j < |txs| && txs[i].from == txs[j].from ==> txs[i].nonce < txs[j].nonce
  }

  predicate AboveWatermarks(L: Ledger, txs: seq<Transaction>) {
    forall t :: t in txs ==> t.nonce > LastNonce(L, t.from)
  }

  /** The chain's nonce check accepts a well-numbered list exactly if every nonce is above its watermark. */
  lemma {:induction false} WellNumberedAccepted(c: Crypto, L: Ledger, txs: seq<Transaction>)
    requires WellNumbered(c, txs)
    ensures NoncePlan(c, L, txs).1 == Accepted <==> AboveWatermarks(L, txs)
    ensures NoncePlan(c, L, txs).1 in {Accepted, StaleNonce}
    decreases |txs|
  {
    hide TxVerify;
    if txs != [] {
      assert txs[0] in txs;
      if txs[0].nonce > LastNonce(L, txs[0].from) {
        var L1 := Apply(L, SetNonce(txs[0].from, txs[0].nonce));
        var rest := txs[1..];
        assert WellNumbered(c, rest) by {
          assert forall t :: t in rest ==> t in txs;
        }
        WellNumberedAccepted(c, L1, rest);
        FirstIsLowest(c, L, txs);
      }
    }
  }

  lemma FirstIsLowest(c: Crypto, L: Ledger, txs: seq<Transaction>)
    requires WellNumbered(c, txs) && txs != [] && txs[0].nonce > LastNonce(L, txs[0].from)
    ensures AboveWatermarks(Apply(L, SetNonce(txs[0].from, txs[0].nonce)), txs[1..]) <==> AboveWatermarks(L, txs)
  {
    hide TxVerify;
    var L1 := Apply(L, SetNonce(txs[0].from, txs[0].nonce));
    forall i | 0 < i < |txs|
      ensures txs[i] in txs[1..]
      ensures txs[i].nonce > LastNonce(L1, txs[i].from) <==> txs[i].nonce > LastNonce(L, txs[i].from)
    {
      assert txs[1..][i - 1] == txs[i];
    }
    if AboveWatermarks(L1, txs[1..]) {
      forall t | t in txs ensures t.nonce > LastNonce(L, t.from) {
        var i :| 0 <= i < |txs| && txs[i] == t;
      }
    }
    if AboveWatermarks(L, txs) {
      forall t | t in txs[1..] ensures t.nonce > LastNonce(L1, t.from) {
        var i :| 0 <= i < |txs[1..]| && txs[1..][i] == t;
        assert txs[i + 1] == t;
      }
    }
  }

  /** A watermark moves only to a nonce the block holds for that sender. */
  lemma {:induction false} WatermarkIsFromBlock(c: Crypto, L: Ledger, txs: seq<Transaction>, a: Bytes)
    ensures var L' := ApplyAll(L, NoncePlan(c, L, txs).0);
      LastNonce(L', a) != LastNonce(L, a) ==> exists u :: u in txs && u.from == a && u.nonce == LastNonce(L', a)
    decreases |txs|
  {
    hide TxVerify;
    var ws := NoncePlan(c, L, txs).0;
    if ws != [] {
      var t := txs[0];
      var L1 := Apply(L, SetNonce(t.from, t.nonce));
      assert ws[1..] == NoncePlan(c, L1, txs[1..]).0;
      WatermarkIsFromBlock(c, L1, txs[1..], a);
      var L' := ApplyAll(L, ws);
      if LastNonce(L', a) != LastNonce(L1, a) {
        var u :| u in txs[1..] && u.from == a && u.nonce == LastNonce(L', a);
        assert u in txs;
      } else if LastNonce(L', a) != LastNonce(L, a) {
        assert t in txs;
      }
    }
  }

  // ---------------------------------------------------------------- what every run keeps

  /** Every pooled transaction is in the draft or comes after all of the draft's from its sender. */
  ghost predicate CutsPool(p: Pool, txs: seq<Transaction>) {
    forall t, u: Transaction :: Pooled(p, t) && t !in txs && u in txs && u.from == t.from ==> u.nonce < t.nonce
  }

  /** A draft for the next height, whatever was committed meanwhile. */
  ghost predicate DraftFits(c: Crypto, p: Pool, txs: seq<Transaction>) {
    WellNumbered(c, txs) && CutsPool(p, txs) && forall t :: t in txs ==> Pending(p, t)
  }

  ghost predicate Sound(r: Rules, s: Pipe) {
    && GoodPool(r.crypto, s.pool)
    && (forall d :: d in s.drafts ==> d.height <= s.chain.tip + 1)
    && (forall d :: d in s.drafts && d.height == s.chain.tip + 1 ==> s.removing.None? && DraftFits(r.crypto, s.pool, d.txs))
  }

  lemma ListedAreGood(c: Crypto, p: Pool, t: Transaction)
    requires GoodPool(c, p) && Pooled(p, t)
    ensures TxVerify(c, t) && Pending(p, t)
  {
  }

  /** In the listing of a good pool, a sender's nonces increase. */
  lemma ListingIncreases(c: Crypto, p: Pool, all: seq<Transaction>, i: nat, j: nat)
    requires GoodPool(c, p) && ListsPool(p, all) && i < j < |all| && all[i].from == all[j].from
    ensures all[i].nonce < all[j].nonce
  {
    assert all[i] in all && all[j] in all;
    PooledApart(c, p, all[i], all[j]);
    hide GoodPool, Pooled;
  }

  /** Cutting the listing leaves only later transactions out. */
  lemma CutLeavesLater(c: Crypto, p: Pool, all: seq<Transaction>, n: nat, t: Transaction, u: Transaction)
    requires GoodPool(c, p) && ListsPool(p, all) && n <= |all|
    requires Pooled(p, t) && t !in all[..n] && u in all[..n] && u.from == t.from
    ensures u.nonce < t.nonce
  {
    hide GoodPool, Pooled;
    assert t in all;
    assert forall k :: 0 <= k < n ==> all[k] in all[..n];
    var j :| 0 <= j < |all| && all[j] == t;
    var i :| 0 <= i < n && all[..n][i] == u;
    ListingIncreases(c, p, all, i, j);
  }

  lemma ProposalFits(c: Crypto, p: Pool, limit: nat, out: seq<Transaction>)
    requires GoodPool(c, p) && IsProposal(p, limit, out)
    ensures DraftFits(c, p, out) && forall t :: t in out ==> Pooled(p, t)
  {
    var all: seq<Transaction> :| ListsPool(p, all) && out == Cut(all, limit);
    assert out == all[..|out|];
    hide GoodPool, Pooled, TxVerify, Pending, NoRepeats, Ordered;
    forall t | t in out ensures Pooled(p, t) && TxVerify(c, t) && Pending(p, t) {
      assert t in all;
      ListedAreGood(c, p, t);
    }
    forall i, j | 0 <= i < j < |out| && out[i].from == out[j].from ensures out[i].nonce < out[j].nonce {
      ListingIncreases(c, p, all, i, j);
    }
    forall t: Transaction, u: Transaction | Pooled(p, t) && t !in out && u in out && u.from == t.from ensures u.nonce < t.nonce {
      CutLeavesLater(c, p, all, |out|, t, u);
    }
  }

  lemma AddKeepsDraft(c: Crypto, L: Ledger, p: Pool, tx: Transaction, now: i64, allowed: bool, txs: seq<Transaction>)
    requires GoodPool(c, p) && DraftFits(c, p, txs)
    ensures DraftFits(c, AddTo(c, L, p, tx, now, allowed).0, txs)
  {
    AddKeepsGood(c, L, p, tx, now, allowed);
    hide TxHash, TxVerify, Pooled, AddTo, GoodPool, WellNumbered;
    var (p', result) := AddTo(c, L, p, tx, now, allowed);
    if result == Admitted {
      forall t | t in txs ensures Pending(p', t) {
        assert Pending(p, t);
      }
      forall t: Transaction, u: Transaction | Pooled(p', t) && t !in txs && u in txs && u.from == t.from ensures u.nonce < t.nonce {
        assert Pending(p, u);
      }
    }
  }

  lemma NextIsSound(r: Rules, s: Pipe, e: Event)
    requires Sound(r, s) && s.chain.tip < MAX_U64
    ensures Sound(r, Next(r, s, e)) && s.chain.tip <= Next(r, s, e).chain.tip <= s.chain.tip + 1
  {
    hide GoodPool, DraftFits, AddTo, RemoveFrom, IsProposal, Commit;
    match e
    case AddTx(tx, now, allowed) =>
      AddKeepsGood(r.crypto, s.chain.ledger, s.pool, tx, now, allowed);
      forall d | d in s.drafts && d.height == s.chain.tip + 1 ensures DraftFits(r.crypto, Next(r, s, e).pool, d.txs) {
        AddKeepsDraft(r.crypto, s.chain.ledger, s.pool, tx, now, allowed, d.txs);
      }
    case ProposeTxs(limit, out) =>
      if s.removing.None? && IsProposal(s.pool, limit, out) {
        ProposalFits(r.crypto, s.pool, limit, out);
      }
    case CommitBlock(b) =>
      CommitEffect(r, s.chain, b);
    case RemoveTxs =>
      if s.removing.Some? {
        RemoveKeepsGood(r.crypto, s.pool, s.removing.value);
      }
  }

  lemma {:induction false} RunsAreSound(r: Rules, chain: ChainState, events: seq<Event>)
    requires chain.tip + |events| < MAX_U64
    ensures Sound(r, Run(r, Started(chain), events)) && Run(r, Started(chain), events).chain.tip <= chain.tip + |events|
    decreases |events|
  {
    if events != [] {
      var before := events[..|events| - 1];
      RunsAreSound(r, chain, before);
      hide Sound, Next;
      NextIsSound(r, Run(r, Started(chain), before), events[|events| - 1]);
    }
  }

  /**
   In every run, whoever's blocks were committed: the chain's transaction loop never finds a bad
   signature in the node's own block, and finds a stale nonce exactly if some transaction of the
   block is not above its sender's watermark.
   */
  lemma OwnBlockRefusal(r: Rules, chain: ChainState, events: seq<Event>, b: Block)
    requires chain.tip + |events| < MAX_U64
    requires Own(Run(r, Started(chain), events), b)
    ensures var s := Run(r, Started(chain), events);
      && Commit(r, s.chain, b).1 != InvalidTx
      && (Commit(r, s.chain, b).1 == StaleNonce <==>
            Admission(r, s.chain.ledger, s.chain.tip, b) == Accepted && !AboveWatermarks(s.chain.ledger, b.transactions))
  {
    var s := Run(r, Started(chain), events);
    RunsAreSound(r, chain, events);
    if Admission(r, s.chain.ledger, s.chain.tip, b) == Accepted {
      WellNumberedAccepted(r.crypto, s.chain.ledger, b.transactions);
    }
  }

  // ---------------------------------------------------------------- one transaction all the way

  lemma OneListing(p: Pool, h: Bytes, tx: Transaction)
    requires p.byHash == map[h := tx]
    ensures IsProposal(p, 1, [tx])
  {
    assert p.byHash[h] == tx;
    assert ListsPool(p, [tx]);
    assert Cut([tx], 1) == [tx];
  }

  lemma OneNonce(c: Crypto, L: Ledger, tx: Transaction)
    requires TxVerify(c, tx) && tx.nonce > LastNonce(L, tx.from)
    ensures NoncePlan(c, L, [tx]) == ([SetNonce(tx.from, tx.nonce)], Accepted)
  {
    assert [tx][1..] == [];
    assert NoncePlan(c, Apply(L, SetNonce(tx.from, tx.nonce)), []) == ([], Accepted);
    assert [SetNonce(tx.from, tx.nonce)] + [] == [SetNonce(tx.from, tx.nonce)];
  }

  /** The four steps of one transaction. */
  function Journey(tx: Transaction, now: i64, b: Block): seq<Event> {
    [AddTx(tx, now, true), ProposeTxs(1, [tx]), CommitBlock(b), RemoveTxs]
  }

  lemma FourSteps(r: Rules, s: Pipe, a: Event, b: Event, c: Event, d: Event)
    ensures Run(r, s, [a, b, c, d]) == Next(r, Next(r, Next(r, Next(r, s, a), b), c), d)
  {
    hide Next;
    assert [a, b, c, d][..3] == [a, b, c] && [a, b, c][..2] == [a, b] && [a, b][..1] == [a] && [a][..0] == [];
    assert Run(r, s, []) == s;
    assert Run(r, s, [a]) == Next(r, s, a);
    assert Run(r, s, [a, b]) == Next(r, Run(r, s, [a]), b);
    assert Run(r, s, [a, b, c]) == Next(r, Run(r, s, [a, b]), c);
  }

  /**
   A signed and fresh transaction with a new nonce, added to an empty pool, can be proposed, is committed by a
   certified block that carries it, leaves the pool, and has raised its sender's watermark to its nonce.
   */
  lemma FromPoolToChain(r: Rules, chain: ChainState, tx: Transaction, now: i64, b: Block)
    requires TxVerify(r.crypto, tx) && Fresh(now, tx.timestamp) && tx.nonce > LastNonce(chain.ledger, tx.from)
    requires b.transactions == [tx] && Admission(r, chain.ledger, chain.tip, b) == Accepted && chain.tip < MAX_U64
    ensures var s := Run(r, Started(chain), Journey(tx, now, b));
      && OwnRun(r, Started(chain), Journey(tx, now, b))
      && s.chain.tip == chain.tip + 1 && s.chain.tip in s.chain.ledger.blocks && s.chain.ledger.blocks[s.chain.tip] == b
      && LastNonce(s.chain.ledger, tx.from) == tx.nonce && s.pool.byHash == map[]
  {
    hide TxHash, TxVerify, Fresh, Admission, Commit, IsProposal, Next, Run, OwnRun, LastNonce;
    var s0 := Started(chain);
    FirstAdded(r, chain, tx, now);
    ThenProposed(r, Next(r, s0, AddTx(tx, now, true)), tx);
    CertifiedIsCommitted(r, chain, tx, b);
    ThenCommitted(r, Next(r, Next(r, s0, AddTx(tx, now, true)), ProposeTxs(1, [tx])), tx, b);
    FourSteps(r, s0, AddTx(tx, now, true), ProposeTxs(1, [tx]), CommitBlock(b), RemoveTxs);
    RunsOnOwn(r, s0, tx, now, b);
  }

  lemma FirstAdded(r: Rules, chain: ChainState, tx: Transaction, now: i64)
    requires TxVerify(r.crypto, tx) && Fresh(now, tx.timestamp) && tx.nonce > LastNonce(chain.ledger, tx.from)
    ensures Next(r, Started(chain), AddTx(tx, now, true))
      == Pipe(chain, Pool(map[TxHash(r.crypto, tx) := tx], map[tx.from := tx.nonce]), {}, None)
  {
    hide TxHash, TxVerify, Fresh, LastNonce;
  }

  lemma ThenProposed(r: Rules, s: Pipe, tx: Transaction)
    requires s.pool.byHash == map[TxHash(r.crypto, tx) := tx] && s.removing.None?
    ensures Next(r, s, ProposeTxs(1, [tx])) == s.(drafts := s.drafts + {Draft(NextHeight(s.chain.tip), [tx])})
  {
    hide TxHash, IsProposal;
    OneListing(s.pool, TxHash(r.crypto, tx), tx);
  }

  lemma ThenCommitted(r: Rules, s: Pipe, tx: Transaction, b: Block)
    requires s.pool.byHash == map[TxHash(r.crypto, tx) := tx] && s.removing.None?
    requires b.transactions == [tx] && Commit(r, s.chain, b).1 == Accepted
    ensures var s' := Next(r, Next(r, s, CommitBlock(b)), RemoveTxs);
      s'.chain == Commit(r, s.chain, b).0 && s'.pool.byHash == map[]
  {
    hide TxHash, Commit;
    OneHash(r.crypto, tx);
  }

  lemma OneHash(c: Crypto, tx: Transaction)
    ensures Hashes(c, [tx]) == {TxHash(c, tx)}
  {
    hide TxHash;
    assert forall t :: t in [tx] <==> t == tx;
  }

  lemma CertifiedIsCommitted(r: Rules, chain: ChainState, tx: Transaction, b: Block)
    requires TxVerify(r.crypto, tx) && tx.nonce > LastNonce(chain.ledger, tx.from)
    requires b.transactions == [tx] && Admission(r, chain.ledger, chain.tip, b) == Accepted && chain.tip < MAX_U64
    ensures var (chain', verdict) := Commit(r, chain, b);
      && verdict == Accepted && b.height == chain.tip + 1 == chain'.tip
      && chain'.tip in chain'.ledger.blocks && chain'.ledger.blocks[chain'.tip] == b
      && LastNonce(chain'.ledger, tx.from) == tx.nonce
  {
    OneNonce(r.crypto, chain.ledger, tx);
    hide TxVerify, QuorumMet, NoncePlan;
    var w := SetNonce(tx.from, tx.nonce);
    assert ApplyAll(chain.ledger, [w] + [Write.PutBlock(b)]) == ApplyAll(Apply(chain.ledger, w), [Write.PutBlock(b)]) by {
      assert ([w] + [Write.PutBlock(b)])[1..] == [Write.PutBlock(b)];
    }
    assert [Write.PutBlock(b)][1..] == [];
    assert ApplyAll(Apply(chain.ledger, w), [Write.PutBlock(b)]) == Apply(Apply(chain.ledger, w), Write.PutBlock(b));
  }

  lemma RunsOnOwn(r: Rules, s: Pipe, tx: Transaction, now: i64, b: Block)
    requires var s2 := Next(r, Next(r, s, AddTx(tx, now, true)), ProposeTxs(1, [tx])); Own(s2, b)
    ensures OwnRun(r, s, Journey(tx, now, b))
  {
    hide Next;
    var events := Journey(tx, now, b);
    assert events[..2] == [events[0], events[1]] && events[..2][..1] == [events[0]] && events[..1][..0] == [];
    assert Run(r, s, []) == s;
    assert Run(r, s, [events[0]]) == Next(r, s, events[0]);
    assert Run(r, s, events[..2]) == Next(r, Run(r, s, [events[0]]), events[1]);
  }

  // ---------------------------------------------------------------- runs on the node's own blocks

  /** The pooled transactions not about to be removed, and the current drafts, are above the watermarks. */
  ghost predicate NothingStale(s: Pipe) {
    && (forall t :: Pooled(s.pool, t) ==> t.nonce > LastNonce(s.chain.ledger, t.from) || (s.removing.Some? && t in s.removing.value))
    && (forall d :: d in s.drafts && d.height == s.chain.tip + 1 ==> AboveWatermarks(s.chain.ledger, d.txs))
  }

  lemma OwnCommitStalesNothing(r: Rules, s: Pipe, b: Block)
    requires Sound(r, s) && NothingStale(s) && s.removing.None? && s.chain.tip < MAX_U64 && Own(s, b)
    ensures NothingStale(Committed(r, s, b))
  {
    var verdict := Commit(r, s.chain, b).1;
    var s' := Committed(r, s, b);
    if verdict == Accepted {
      AcceptedEffect(r, s.chain, b);
      var L1 := ApplyAll(s.chain.ledger, NoncePlan(r.crypto, s.chain.ledger, b.transactions).0);
      forall t | Pooled(s.pool, t) && t !in b.transactions ensures t.nonce > LastNonce(s'.chain.ledger, t.from) {
        assert LastNonce(s'.chain.ledger, t.from) == LastNonce(L1, t.from);
        WatermarkIsFromBlock(r.crypto, s.chain.ledger, b.transactions, t.from);
      }
    } else if Admission(r, s.chain.ledger, s.chain.tip, b) == Accepted {
      WellNumberedAccepted(r.crypto, s.chain.ledger, b.transactions);
      assert false;
    } else {
      CommitRefused(r, s.chain, b);
    }
  }

  lemma NextStalesNothing(r: Rules, s: Pipe, e: Event)
    requires Sound(r, s) && NothingStale(s) && s.chain.tip < MAX_U64
    requires e.CommitBlock? ==> Own(s, e.block)
    ensures NothingStale(Next(r, s, e))
  {
    hide AddTo, RemoveFrom, IsProposal, Commit, DraftFits, GoodPool, Pooled, TxHash;
    match e
    case AddTx(tx, now, allowed) =>
      AddKeepsGood(r.crypto, s.chain.ledger, s.pool, tx, now, allowed);
    case ProposeTxs(limit, out) =>
      if s.removing.None? && IsProposal(s.pool, limit, out) {
        ProposalFits(r.crypto, s.pool, limit, out);
      }
    case CommitBlock(b) =>
      if s.removing.None? {
        OwnCommitStalesNothing(r, s, b);
      }
    case RemoveTxs =>
      if s.removing.Some? {
        RemoveKeepsGood(r.crypto, s.pool, s.removing.value);
      }
  }

  lemma {:induction false} OwnRunStalesNothing(r: Rules, chain: ChainState, events: seq<Event>)
    requires chain.tip + |events| < MAX_U64 && OwnRun(r, Started(chain), events)
    ensures NothingStale(Run(r, Started(chain), events))
    decreases |events|
  {
    if events != [] {
      var before := events[..|events| - 1];
      assert forall k :: 0 <= k < |before| ==> events[..k] == before[..k];
      OwnRunStalesNothing(r, chain, before);
      RunsAreSound(r, chain, before);
      hide Sound, NothingStale, Next, Own;
      NextStalesNothing(r, Run(r, Started(chain), before), events[|events| - 1]);
    }
  }

  /**
   Pipeline safety: while every committed block is the node's own, every pooled transaction stays
   above its sender's watermark (but for those just committed, until they are removed), and
   CommitBlock never refuses an own block for a transaction.
   */
  lemma PipelineSafety(r: Rules, chain: ChainState, events: seq<Event>)
    requires chain.tip + |events| < MAX_U64 && OwnRun(r, Started(chain), events)
    ensures var s := Run(r, Started(chain), events);
      && (forall t :: Pooled(s.pool, t) && (s.removing.Some? ==> t !in s.removing.value) ==> t.nonce > LastNonce(s.chain.ledger, t.from))
      && forall b :: Own(s, b) ==> Commit(r, s.chain, b).1 !in {InvalidTx, StaleNonce}
  {
    OwnRunStalesNothing(r, chain, events);
    var s := Run(r, Started(chain), events);
    forall b | Own(s, b) ensures Commit(r, s.chain, b).1 !in {InvalidTx, StaleNonce} {
      OwnBlockRefusal(r, chain, events, b);
      RunsAreSound(r, chain, events);
      if Admission(r, s.chain.ledger, s.chain.tip, b) == Accepted {
        assert Draft(b.height, b.transactions).height == s.chain.tip + 1;
      }
    }
  }

  // ---------------------------------------------------------------- another proposer's block

  /** The transactions whose watermarks the nonce loop writes before it ends or stops. */
  function Passed(c: Crypto, L: Ledger, txs: seq<Transaction>): (passed: seq<Transaction>)
    ensures passed <= txs
    decreases |txs|
  {
    if txs == [] || !TxVerify(c, txs[0]) || txs[0].nonce <= LastNonce(L, txs[0].from) then []
    else [txs[0]] + Passed(c, Apply(L, SetNonce(txs[0].from, txs[0].nonce)), txs[1..])
  }

  /** Those of a block: none unless it is admitted, all of them if it is accepted. */
  function PassedOf(r: Rules, s: ChainState, b: Block): (passed: seq<Transaction>)
    ensures passed <= b.transactions
  {
    if Admission(r, s.ledger, s.tip, b) == Accepted then Passed(r.crypto, s.ledger, b.transactions) else []
  }

  /** A list holds an equal or higher nonce of the sender. */
  predicate Overtakes(txs: seq<Transaction>, a: Bytes, n: u64) {
    exists u :: u in txs && u.from == a && u.nonce >= n
  }

  lemma PlanRaises(c: Crypto, L: Ledger, txs: seq<Transaction>, a: Bytes)
    ensures LastNonce(L, a) <= LastNonce(ApplyAll(L, NoncePlan(c, L, txs).0), a)
  {
    var ns := NoncePlan(c, L, txs).0;
    assert ns[..|ns|] == ns;
    NoncePlanOnlyRaises(c, L, txs, |ns|);
  }

  lemma OvertakesCons(t: Transaction, txs: seq<Transaction>, a: Bytes, n: u64)
    ensures Overtakes([t] + txs, a, n) <==> (t.from == a && t.nonce >= n) || Overtakes(txs, a, n)
  {
    if t.from == a && t.nonce >= n {
      assert t in [t] + txs;
    }
    if Overtakes(txs, a, n) {
      var u :| u in txs && u.from == a && u.nonce >= n;
      assert u in [t] + txs;
    }
  }

  /** The loop lifts a watermark to a nonce or beyond exactly if it passed an equal or higher one. */
  lemma {:induction false} LoopReaches(c: Crypto, L: Ledger, txs: seq<Transaction>, a: Bytes, n: u64)
    requires n > LastNonce(L, a)
    ensures LastNonce(ApplyAll(L, NoncePlan(c, L, txs).0), a) >= n <==> Overtakes(Passed(c, L, txs), a, n)
    decreases |txs|
  {
    hide TxVerify;
    if Passed(c, L, txs) != [] {
      var t := txs[0];
      var L1 := Apply(L, SetNonce(t.from, t.nonce));
      var rest := NoncePlan(c, L1, txs[1..]).0;
      assert NoncePlan(c, L, txs).0[1..] == rest;
      assert ApplyAll(L, NoncePlan(c, L, txs).0) == ApplyAll(L1, rest);
      OvertakesCons(t, Passed(c, L1, txs[1..]), a, n);
      hide Overtakes, ApplyAll;
      if t.from == a && t.nonce >= n {
        PlanRaises(c, L1, txs[1..], a);
      } else {
        LoopReaches(c, L1, txs[1..], a, n);
      }
    }
  }

  lemma CommitReaches(r: Rules, s: ChainState, b: Block, a: Bytes, n: u64)
    requires n > LastNonce(s.ledger, a)
    ensures LastNonce(Commit(r, s, b).0.ledger, a) >= n <==> Overtakes(PassedOf(r, s, b), a, n)
  {
    if Admission(r, s.ledger, s.tip, b) != Accepted {
      CommitRefused(r, s, b);
    } else {
      LoopReaches(r.crypto, s.ledger, b.transactions, a, n);
      hide Passed, Admission, Commit, ApplyAll, NoncePlan;
      if NoncePlan(r.crypto, s.ledger, b.transactions).1 == Accepted {
        CommitCompleted(r, s, b);
      } else {
        CommitStopped(r, s, b);
      }
    }
  }

  lemma AfterRemoval(r: Rules, s: Pipe, b: Block)
    requires s.removing.None?
    ensures var s' := Next(r, Committed(r, s, b), RemoveTxs);
      && s'.chain == Commit(r, s.chain, b).0
      && s'.pool == if Commit(r, s.chain, b).1 == Accepted then RemoveFrom(r.crypto, s.pool, b.transactions) else s.pool
  {
    hide Commit, RemoveFrom;
  }

  /**
   Whatever block is committed or refused, its own or another proposer's: a pooled transaction leaves the
   pool exactly if the block was accepted and lists its hash. A fresh one is stale afterwards exactly if
   the nonce loop passed an equal or higher nonce of its sender before it ended or stopped; a refused
   block can thus stale its own leading transactions, which then stay pooled.
   */
  lemma ForeignBlockStales(r: Rules, s: Pipe, b: Block, t: Transaction)
    requires GoodPool(r.crypto, s.pool) && s.removing.None?
    requires Pooled(s.pool, t) && t.nonce > LastNonce(s.chain.ledger, t.from)
    ensures var s' := Next(r, Committed(r, s, b), RemoveTxs);
      && (Pooled(s'.pool, t) <==> (Commit(r, s.chain, b).1 == Accepted ==> TxHash(r.crypto, t) !in Hashes(r.crypto, b.transactions)))
      && (t.nonce <= LastNonce(s'.chain.ledger, t.from) <==> Overtakes(PassedOf(r, s.chain, b), t.from, t.nonce))
  {
    AfterRemoval(r, s, b);
    RemoveKeepsGood(r.crypto, s.pool, b.transactions);
    CommitReaches(r, s.chain, b, t.from, t.nonce);
    hide GoodPool, Pooled, TxHash, Hashes, RemoveFrom, Commit, Overtakes, PassedOf, Next, Committed;
  }

  /** A certified block refused for a stale nonce stales its own first transaction and leaves it pooled. */
  lemma RefusedBlockStalesItsFirst(r: Rules, s: Pipe, b: Block)
    requires GoodPool(r.crypto, s.pool) && s.removing.None? && b.transactions != []
    requires Commit(r, s.chain, b).1 in {StaleNonce, InvalidTx}
    requires Pooled(s.pool, b.transactions[0]) && b.transactions[0].nonce > LastNonce(s.chain.ledger, b.transactions[0].from)
    ensures var s' := Next(r, Committed(r, s, b), RemoveTxs);
      Pooled(s'.pool, b.transactions[0]) && b.transactions[0].nonce <= LastNonce(s'.chain.ledger, b.transactions[0].from)
  {
    var t := b.transactions[0];
    ForeignBlockStales(r, s, b, t);
    assert TxVerify(r.crypto, t);
    if Admission(r, s.chain.ledger, s.chain.tip, b) != Accepted {
      CommitRefused(r, s.chain, b);
    }
    assert t in PassedOf(r, s.chain, b);
  }

  lemma CommitRaises(r: Rules, s: ChainState, b: Block, a: Bytes)
    ensures LastNonce(s.ledger, a) <= LastNonce(Commit(r, s, b).0.ledger, a)
  {
    if Commit(r, s, b).1 == Accepted {
      AcceptedEffect(r, s, b);
      PlanRaises(r.crypto, s.ledger, b.transactions, a);
    } else {
      RejectionKeepsChain(r, s, b);
    }
  }

  lemma {:induction false} AcceptedIsAbove(c: Crypto, L: Ledger, txs: seq<Transaction>)
    requires NoncePlan(c, L, txs).1 == Accepted
    ensures AboveWatermarks(L, txs)
    decreases |txs|
  {
    hide TxVerify;
    if txs != [] {
      var t := txs[0];
      var L1 := Apply(L, SetNonce(t.from, t.nonce));
      AcceptedIsAbove(c, L1, txs[1..]);
      forall u | u in txs ensures u.nonce > LastNonce(L, u.from) {
        assert u == t || u in txs[1..];
      }
    }
  }

  /** What is stale stays stale whatever happens, and no block that carries it is ever accepted. */
  lemma {:induction false} StaleForever(r: Rules, s: Pipe, events: seq<Event>, t: Transaction)
    requires t.nonce <= LastNonce(s.chain.ledger, t.from)
    ensures t.nonce <= LastNonce(Run(r, s, events).chain.ledger, t.from)
    ensures forall b: Block :: t in b.transactions ==> Commit(r, Run(r, s, events).chain, b).1 != Accepted
    decreases |events|
  {
    if events != [] {
      var before, e := events[..|events| - 1], events[|events| - 1];
      StaleForever(r, s, before, t);
      if e.CommitBlock? {
        CommitRaises(r, Run(r, s, before).chain, e.block, t.from);
      }
      hide AddTo, RemoveFrom, IsProposal, Commit;
    }
    CarriersRefused(r, Run(r, s, events).chain, t);
  }

  lemma CarriersRefused(r: Rules, s: ChainState, t: Transaction)
    requires t.nonce <= LastNonce(s.ledger, t.from)
    ensures forall b: Block :: t in b.transactions ==> Commit(r, s, b).1 != Accepted
  {
    forall b: Block | t in b.transactions ensures Commit(r, s, b).1 != Accepted {
      if Commit(r, s, b).1 == Accepted {
        AcceptedEffect(r, s, b);
        AcceptedIsAbove(r.crypto, s.ledger, b.transactions);
      }
    }
  }
}
