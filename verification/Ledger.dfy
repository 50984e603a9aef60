/**
 The ledger as three maps (blocks, nonce watermarks, head), and Chain.CommitBlock and NewChain as the
 exact list of individual store writes they make. The classes in Storage.dfy and Chain.dfy are
 proved against these functions.
 */
module Ledgers {
  import opened Base
  import opened Blocks
  import Merkle

  datatype Ledger = Ledger(blocks: map<u64, Block>, nonces: map<Bytes, u64>, head: Option<u64>)

  const FRESH := Ledger(map[], map[], None)

  /** One store transaction: SetLastNonce or PutBlock. */
  datatype Write = SetNonce(address: Bytes, nonce: u64) | PutBlock(block: Block)

  /** Store.Head: 0 on a fresh store. */
  function Head(L: Ledger): u64 {
    if L.head.Some? then L.head.value else 0
  }

  function LastNonce(L: Ledger, address: Bytes): u64 {
    if address in L.nonces then L.nonces[address] else 0
  }

  function Apply(L: Ledger, w: Write): Ledger {
    match w
    case SetNonce(a, n) => L.(nonces := L.nonces[a := n])
    case PutBlock(b) =>
      L.(blocks := L.blocks[b.height := b], head := if b.height >= Head(L) then Some(b.height) else L.head)
  }

  /** A stored block replaces the one of its height and no other, and the head never falls. */
  lemma HeadIsHighest(L: Ledger, b: Block, h: u64)
    ensures var L' := Apply(L, PutBlock(b));
      && Head(L') == (if b.height > Head(L) then b.height else Head(L)) && L'.head.Some? && L'.nonces == L.nonces
      && b.height in L'.blocks && L'.blocks[b.height] == b
      && (h != b.height ==> (h in L'.blocks <==> h in L.blocks) && (h in L.blocks ==> L'.blocks[h] == L.blocks[h]))
  {
  }

  function ApplyAll(L: Ledger, ws: seq<Write>): Ledger
    decreases |ws|
  {
    if ws == [] then L else ApplyAll(Apply(L, ws[0]), ws[1..])
  }

  // ---------------------------------------------------------------- CommitBlock as a plan of writes

  datatype Verdict = Accepted | TipMissing | OutOfOrder | PrevHashMismatch | NoQuorum | InvalidTx | StaleNonce

  /** tip + 1 in 64 bits. */
  function NextHeight(tip: u64): (h: u64)
    ensures h == (tip + 1) % 0x1_0000_0000_0000_0000
  {
    if tip == MAX_U64 then 0 else tip + 1
  }

  /** The per-transaction loop of CommitBlock: watermarks are written before the block is known good. */
  function NoncePlan(c: Crypto, L: Ledger, txs: seq<Transaction>): (seq<Write>, Verdict)
    decreases |txs|
  {
    if txs == [] then ([], Accepted)
    else if !TxVerify(c, txs[0]) then ([], InvalidTx)
    else if txs[0].nonce <= LastNonce(L, txs[0].from) then ([], StaleNonce)
    else
      var w := SetNonce(txs[0].from, txs[0].nonce);
      var (ws, verdict) := NoncePlan(c, Apply(L, w), txs[1..]);
      ([w] + ws, verdict)
  }

  datatype Rules = Rules(crypto: Crypto, quorum: int, validators: set<Bytes>)

  /** Every check before the transaction loop. */
  function Admission(r: Rules, L: Ledger, tip: u64, b: Block): Verdict {
    if tip !in L.blocks then TipMissing
    else if b.height != NextHeight(tip) then OutOfOrder
    else if b.prevHash != BlockHash(r.crypto, L.blocks[tip]) then PrevHashMismatch
    else if !QuorumMet(r.crypto, b, r.quorum, r.validators) then NoQuorum
    else Accepted
  }

  function CommitPlan(r: Rules, L: Ledger, tip: u64, b: Block): (seq<Write>, Verdict) {
    var admission := Admission(r, L, tip, b);
    if admission != Accepted then ([], admission)
    else
      var (ws, verdict) := NoncePlan(r.crypto, L, b.transactions);
      if verdict == Accepted then (ws + [PutBlock(b)], Accepted) else (ws, verdict)
  }

  /** A chain object over its store. */
  datatype ChainState = ChainState(ledger: Ledger, tip: u64)

  /** CommitBlock without store errors. */
  function Commit(r: Rules, s: ChainState, b: Block): (ChainState, Verdict) {
    var (ws, verdict) := CommitPlan(r, s.ledger, s.tip, b);
    (ChainState(ApplyAll(s.ledger, ws), if verdict == Accepted then b.height else s.tip), verdict)
  }

  function GenesisBlock(c: Crypto): Block {
    Block(0, [], 0, GENESIS_PROPOSER, [], Merkle.MerkleRoot(c, []), [])
  }

  const GENESIS_PROPOSER: Bytes := [103, 101, 110, 101, 115, 105, 115] // "genesis"

  function BootPlan(c: Crypto, L: Ledger): seq<Write> {
    if Head(L) == 0 && 0 !in L.blocks then [PutBlock(GenesisBlock(c))] else []
  }

  /** NewChain. */
  function Boot(c: Crypto, L: Ledger): ChainState {
    ChainState(ApplyAll(L, BootPlan(c, L)), Head(L))
  }

  // ---------------------------------------------------------------- what a good ledger is

  /** The transactions of blocks 1..h, in chain order. */
  function History(blocks: map<u64, Block>, h: u64): seq<Transaction>
    requires forall k: u64 :: k <= h ==> k in blocks
    decreases h
  {
    if h == 0 then [] else History(blocks, h - 1) + blocks[h].transactions
  }

  /** Nonces are positive and strictly increase along the list for each sender. */
  predicate NoncesIncrease(txs: seq<Transaction>) {
    && (forall i :: 0 <= i < |txs| ==> txs[i].nonce > 0)
    && (forall i, j :: 0 <= i < j < |txs| && txs[i].from == txs[j].from ==> txs[i].nonce < txs[j].nonce)
  }

  /** No committed nonce lies above its sender's watermark. */
  predicate Covers(L: Ledger, txs: seq<Transaction>) {
    forall i :: 0 <= i < |txs| ==> txs[i].nonce <= LastNonce(L, txs[i].from)
  }

  ghost predicate GapFree(L: Ledger, tip: u64) {
    && (forall k: u64 :: k <= tip <==> k in L.blocks)
    && L.head == Some(tip)
  }

  ghost predicate BlockFits(r: Rules, blocks: map<u64, Block>, k: u64)
    requires k > 0 && k in blocks && (k - 1) in blocks
  {
    && blocks[k].height == k
    && blocks[k].prevHash == BlockHash(r.crypto, blocks[k - 1])
    && QuorumMet(r.crypto, blocks[k], r.quorum, r.validators)
    && forall t :: t in blocks[k].transactions ==> TxVerify(r.crypto, t)
  }

  /** Blocks 0..tip, hash-linked from genesis, each certified and each transaction signed. */
  ghost predicate Linked(r: Rules, L: Ledger, tip: u64) {
    && GapFree(L, tip)
    && L.blocks[0] == GenesisBlock(r.crypto)
    && forall k: u64 :: 0 < k <= tip ==> BlockFits(r, L.blocks, k)
  }

  ghost predicate Good(r: Rules, s: ChainState) {
    && Linked(r, s.ledger, s.tip)
    && NoncesIncrease(History(s.ledger.blocks, s.tip))
    && Covers(s.ledger, History(s.ledger.blocks, s.tip))
  }

  // ---------------------------------------------------------------- the transaction loop

  /** Watermarks only rise, and only for the senders of `txs`; nothing else changes. */
  ghost predicate OnlyRaises(L: Ledger, L': Ledger, txs: seq<Transaction>) {
    && L'.blocks == L.blocks && L'.head == L.head
    && (forall a :: LastNonce(L, a) <= LastNonce(L', a))
    && (forall a :: LastNonce(L, a) != LastNonce(L', a) ==> exists i :: 0 <= i < |txs| && txs[i].from == a)
  }

  lemma {:induction false} NoncePlanOnlyRaises(c: Crypto, L: Ledger, txs: seq<Transaction>, cut: nat)
    requires cut <= |NoncePlan(c, L, txs).0|
    ensures OnlyRaises(L, ApplyAll(L, NoncePlan(c, L, txs).0[..cut]), txs)
    decreases |txs|
  {
    if cut > 0 {
      var ws, w := NoncePlan(c, L, txs).0, SetNonce(txs[0].from, txs[0].nonce);
      assert ws == [w] + NoncePlan(c, Apply(L, w), txs[1..]).0;
      assert ws[..cut] == [w] + NoncePlan(c, Apply(L, w), txs[1..]).0[..cut - 1];
      NoncePlanOnlyRaises(c, Apply(L, w), txs[1..], cut - 1);
      assert ws[..cut][1..] == NoncePlan(c, Apply(L, w), txs[1..]).0[..cut - 1];
      OneMoreRaise(L, txs, ApplyAll(L, ws[..cut]));
    }
  }

  lemma OneMoreRaise(L: Ledger, txs: seq<Transaction>, L2: Ledger)
    requires txs != [] && txs[0].nonce > LastNonce(L, txs[0].from)
    requires OnlyRaises(Apply(L, SetNonce(txs[0].from, txs[0].nonce)), L2, txs[1..])
    ensures OnlyRaises(L, L2, txs)
  {
    var L1 := Apply(L, SetNonce(txs[0].from, txs[0].nonce));
    forall a | LastNonce(L, a) != LastNonce(L2, a) ensures exists i :: 0 <= i < |txs| && txs[i].from == a {
      if LastNonce(L1, a) != LastNonce(L2, a) {
        var i :| 0 <= i < |txs[1..]| && txs[1..][i].from == a;
        assert txs[i + 1].from == a;
      } else {
        assert txs[0].from == a;
      }
    }
  }

  /** An accepted list extends a well-numbered history and is covered by the new watermarks. */
  lemma {:induction false} NoncePlanAccepts(c: Crypto, L: Ledger, past: seq<Transaction>, txs: seq<Transaction>)
    requires NoncesIncrease(past) && Covers(L, past) && NoncePlan(c, L, txs).1 == Accepted
    ensures NoncesIncrease(past + txs) && Covers(ApplyAll(L, NoncePlan(c, L, txs).0), past + txs)
    ensures forall t :: t in txs ==> TxVerify(c, t)
    decreases |txs|
  {
    if txs == [] {
      assert past + txs == past;
    } else {
      var t := txs[0];
      var L1 := Apply(L, SetNonce(t.from, t.nonce));
      assert past + txs == (past + [t]) + txs[1..];
      NoncePlanAccepts(c, L1, past + [t], txs[1..]);
      assert NoncePlan(c, L, txs).0[1..] == NoncePlan(c, L1, txs[1..]).0;
      forall t' | t' in txs ensures TxVerify(c, t') {
        assert t' == t || t' in txs[1..];
      }
    }
  }

  lemma {:induction false} ApplyAllAppend(L: Ledger, a: seq<Write>, b: seq<Write>)
    ensures ApplyAll(L, a + b) == ApplyAll(ApplyAll(L, a), b)
    decreases |a|
  {
    if a == [] {
      assert a + b == b;
    } else {
      assert (a + b)[1..] == a[1..] + b;
      ApplyAllAppend(Apply(L, a[0]), a[1..], b);
    }
  }

  // ---------------------------------------------------------------- CommitBlock

  /**
   Cut anywhere before its last write, or rejected, CommitBlock has changed no block and not the
   head, and has only raised watermarks of senders in the block.
   */
  lemma PartialCommitOnlyRaises(r: Rules, s: ChainState, b: Block, cut: nat)
    requires var (ws, verdict) := CommitPlan(r, s.ledger, s.tip, b);
      cut <= |ws| && (verdict == Accepted ==> cut < |ws|)
    ensures OnlyRaises(s.ledger, ApplyAll(s.ledger, CommitPlan(r, s.ledger, s.tip, b).0[..cut]), b.transactions)
  {
    var (ws, verdict) := CommitPlan(r, s.ledger, s.tip, b);
    if Admission(r, s.ledger, s.tip, b) == Accepted {
      var ns := NoncePlan(r.crypto, s.ledger, b.transactions).0;
      assert ws[..cut] == ns[..cut];
      NoncePlanOnlyRaises(r.crypto, s.ledger, b.transactions, cut);
    }
  }

  /** A rejected block leaves the tip and every block where they were. */
  lemma RejectionKeepsChain(r: Rules, s: ChainState, b: Block)
    requires Commit(r, s, b).1 != Accepted
    ensures Commit(r, s, b).0.tip == s.tip
    ensures OnlyRaises(s.ledger, Commit(r, s, b).0.ledger, b.transactions)
  {
    var ws := CommitPlan(r, s.ledger, s.tip, b).0;
    assert ws[..|ws|] == ws;
    PartialCommitOnlyRaises(r, s, b, |ws|);
  }

  lemma AcceptedEffect(r: Rules, s: ChainState, b: Block)
    requires Commit(r, s, b).1 == Accepted
    ensures Admission(r, s.ledger, s.tip, b) == Accepted
    ensures NoncePlan(r.crypto, s.ledger, b.transactions).1 == Accepted
    ensures var L1 := ApplyAll(s.ledger, NoncePlan(r.crypto, s.ledger, b.transactions).0);
      && L1.blocks == s.ledger.blocks && L1.head == s.ledger.head
      && Commit(r, s, b).0 == ChainState(Apply(L1, PutBlock(b)), b.height)
  {
    var ns := NoncePlan(r.crypto, s.ledger, b.transactions).0;
    ApplyAllAppend(s.ledger, ns, [PutBlock(b)]);
    assert ns[..|ns|] == ns;
    NoncePlanOnlyRaises(r.crypto, s.ledger, b.transactions, |ns|);
  }

  /** What a commit does to the blocks, and nothing more. */
  lemma CommitEffect(r: Rules, s: ChainState, b: Block)
    ensures var (s', verdict) := Commit(r, s, b);
      if verdict == Accepted then
        && b.height == NextHeight(s.tip) && s'.tip == b.height
        && s'.ledger.blocks == s.ledger.blocks[b.height := b]
      else
        && s'.tip == s.tip && s'.ledger.blocks == s.ledger.blocks
  {
    if Commit(r, s, b).1 == Accepted {
      AcceptedEffect(r, s, b);
    } else {
      RejectionKeepsChain(r, s, b);
    }
  }

  lemma {:induction false} HistoryFrame(blocks: map<u64, Block>, blocks': map<u64, Block>, h: u64)
    requires forall k: u64 :: k <= h ==> k in blocks && k in blocks' && blocks[k] == blocks'[k]
    ensures History(blocks, h) == History(blocks', h)
    decreases h
  {
    if h > 0 {
      HistoryFrame(blocks, blocks', h - 1);
    }
  }

  lemma {:induction false} HistoryPrefix(blocks: map<u64, Block>, h: u64, k: u64)
    requires (forall i: u64 :: i <= h ==> i in blocks) && k <= h
    ensures History(blocks, k) <= History(blocks, h)
    decreases h
  {
    if k < h {
      HistoryPrefix(blocks, h - 1, k);
    }
  }

  /** A stretch in the middle of a well-numbered list is well-numbered. */
  lemma StretchIncreases(past: seq<Transaction>, txs: seq<Transaction>, all: seq<Transaction>)
    requires NoncesIncrease(all) && past + txs <= all
    ensures NoncesIncrease(txs)
  {
    assert forall i :: 0 <= i < |txs| ==> txs[i] == (past + txs)[|past| + i] == all[|past| + i];
  }

  /** Each block of a good chain holds a list that the nonce loop accepts. */
  lemma BlockIsAcceptable(r: Rules, s: ChainState, k: u64)
    requires Good(r, s) && 0 < k <= s.tip
    ensures k in s.ledger.blocks && NoncesIncrease(s.ledger.blocks[k].transactions)
    ensures forall t :: t in s.ledger.blocks[k].transactions ==> TxVerify(r.crypto, t)
  {
    assert BlockFits(r, s.ledger.blocks, k);
    hide QuorumMet, TxVerify, BlockHash, NoncesIncrease, Covers;
    HistoryPrefix(s.ledger.blocks, s.tip, k);
    StretchIncreases(History(s.ledger.blocks, k - 1), s.ledger.blocks[k].transactions, History(s.ledger.blocks, s.tip));
  }

  lemma CoversMore(L: Ledger, L': Ledger, txs: seq<Transaction>)
    requires Covers(L, txs) && forall a :: LastNonce(L, a) <= LastNonce(L', a)
    ensures Covers(L', txs)
  {
  }

  lemma LinkedExtends(r: Rules, s: ChainState, L1: Ledger, b: Block)
    requires Linked(r, s.ledger, s.tip) && s.tip < MAX_U64 && Admission(r, s.ledger, s.tip, b) == Accepted
    requires L1.blocks == s.ledger.blocks && L1.head == s.ledger.head && forall t :: t in b.transactions ==> TxVerify(r.crypto, t)
    ensures b.height == s.tip + 1 && Linked(r, Apply(L1, PutBlock(b)), b.height)
  {
    hide QuorumMet, TxVerify, BlockHash;
    var L' := Apply(L1, PutBlock(b));
    forall k: u64 | 0 < k <= b.height ensures BlockFits(r, L'.blocks, k) {
      if k <= s.tip {
        assert BlockFits(r, s.ledger.blocks, k);
      }
    }
  }

  /** An accepted block keeps the ledger good. */
  lemma AcceptedKeepsGood(r: Rules, s: ChainState, b: Block)
    requires Good(r, s) && s.tip < MAX_U64 && Commit(r, s, b).1 == Accepted
    ensures Good(r, Commit(r, s, b).0)
    ensures Commit(r, s, b).0.tip == s.tip + 1
  {
    AcceptedEffect(r, s, b);
    hide NoncePlan, ApplyAll, Commit, Admission, QuorumMet, TxVerify;
    var past := History(s.ledger.blocks, s.tip);
    NoncePlanAccepts(r.crypto, s.ledger, past, b.transactions);
    var L1 := ApplyAll(s.ledger, NoncePlan(r.crypto, s.ledger, b.transactions).0);
    LinkedExtends(r, s, L1, b);
    var s' := ChainState(Apply(L1, PutBlock(b)), b.height);
    HistoryFrame(s.ledger.blocks, s'.ledger.blocks, s.tip);
    assert History(s'.ledger.blocks, s'.tip) == past + b.transactions;
    hide Linked, NoncesIncrease;
    assert forall a :: LastNonce(L1, a) == LastNonce(s'.ledger, a);
  }

  lemma RaisingKeepsGood(r: Rules, s: ChainState, L': Ledger, txs: seq<Transaction>)
    requires Good(r, s) && OnlyRaises(s.ledger, L', txs)
    ensures Good(r, ChainState(L', s.tip))
  {
    CoversMore(s.ledger, L', History(s.ledger.blocks, s.tip));
  }

  // ---------------------------------------------------------------- store errors

  /** What a store error during a commit leaves: some but not all of its writes. */
  ghost predicate BrokenOff(r: Rules, s: ChainState, b: Block, L: Ledger) {
    var (ws, verdict) := CommitPlan(r, s.ledger, s.tip, b);
    exists k :: 0 <= k <= |ws| && (verdict == Accepted ==> k < |ws|) && L == ApplyAll(s.ledger, ws[..k])
  }

  lemma NothingWritten(r: Rules, s: ChainState, b: Block)
    ensures BrokenOff(r, s, b, s.ledger)
  {
    var ws := CommitPlan(r, s.ledger, s.tip, b).0;
    assert ws[..0] == [] && ApplyAll(s.ledger, ws[..0]) == s.ledger;
  }

  lemma BrokenOffKeepsBlocks(r: Rules, s: ChainState, b: Block, L: Ledger)
    requires BrokenOff(r, s, b, L)
    ensures OnlyRaises(s.ledger, L, b.transactions)
  {
    var (ws, verdict) := CommitPlan(r, s.ledger, s.tip, b);
    var k :| 0 <= k <= |ws| && (verdict == Accepted ==> k < |ws|) && L == ApplyAll(s.ledger, ws[..k]);
    PartialCommitOnlyRaises(r, s, b, k);
  }

  /** A commit broken off by the store leaves the same chain, and it is still good. */
  lemma BrokenOffKeepsGood(r: Rules, s: ChainState, b: Block, L: Ledger)
    requires Good(r, s) && BrokenOff(r, s, b, L)
    ensures Good(r, ChainState(L, s.tip)) && OnlyRaises(s.ledger, L, b.transactions)
  {
    BrokenOffKeepsBlocks(r, s, b, L);
    RaisingKeepsGood(r, s, L, b.transactions);
  }

  // ---------------------------------------------------------------- crashes and restarts

  /**
   From the store as it stands after any number of CommitBlock's writes, NewChain recovers a good
   chain: the old one until the block itself is written, the longer one after.
   */
  lemma CrashConsistency(r: Rules, s: ChainState, b: Block, cut: nat)
    requires Good(r, s) && s.tip < MAX_U64 && cut <= |CommitPlan(r, s.ledger, s.tip, b).0|
    ensures var (ws, verdict) := CommitPlan(r, s.ledger, s.tip, b);
      var L' := ApplyAll(s.ledger, ws[..cut]);
      var s' := Boot(r.crypto, L');
      && Good(r, s') && s'.ledger == L'
      && s'.tip == if verdict == Accepted && cut == |ws| then s.tip + 1 else s.tip
  {
    var (ws, verdict) := CommitPlan(r, s.ledger, s.tip, b);
    if verdict == Accepted && cut == |ws| {
      assert ws[..cut] == ws;
      AcceptedKeepsGood(r, s, b);
    } else {
      PartialCommitOnlyRaises(r, s, b, cut);
      RaisingKeepsGood(r, s, ApplyAll(s.ledger, ws[..cut]), b.transactions);
    }
  }

  /** A fresh store, or one that crashed before genesis was written, boots to the genesis chain. */
  lemma FreshBootIsGood(r: Rules)
    ensures Good(r, Boot(r.crypto, FRESH)) && Boot(r.crypto, FRESH).tip == 0
  {
    assert ApplyAll(FRESH, [PutBlock(GenesisBlock(r.crypto))]) == Apply(FRESH, PutBlock(GenesisBlock(r.crypto)));
  }

  /**
   One CommitBlock call in the life of a node. Only the first `cut` of its writes reach the store:
   a store error ends the call there, or, with `crash`, the process stops there and restarts.
   */
  datatype Attempt = Attempt(block: Block, cut: nat, crash: bool)

  function Try(r: Rules, s: ChainState, a: Attempt): ChainState {
    var (ws, verdict) := CommitPlan(r, s.ledger, s.tip, a.block);
    var done := if a.cut < |ws| then ws[..a.cut] else ws;
    var L' := ApplyAll(s.ledger, done);
    if a.crash then Boot(r.crypto, L')
    else ChainState(L', if verdict == Accepted && done == ws then a.block.height else s.tip)
  }

  /** Uncut, an attempt is the commit itself; cut short, it leaves the same whether the store failed or the process crashed and restarted. */
  lemma TryExactly(r: Rules, s: ChainState, a: Attempt)
    requires Good(r, s) && s.tip < MAX_U64
    ensures var ws := CommitPlan(r, s.ledger, s.tip, a.block).0;
      Try(r, s, a) == if a.cut < |ws| then ChainState(ApplyAll(s.ledger, ws[..a.cut]), s.tip) else Commit(r, s, a.block).0
  {
    hide Good, NoncePlan, Admission;
    var (ws, verdict) := CommitPlan(r, s.ledger, s.tip, a.block);
    var cut := if a.cut < |ws| then a.cut else |ws|;
    assert ws[..|ws|] == ws;
    CrashConsistency(r, s, a.block, cut);
    CommitEffect(r, s, a.block);
  }

  function Live(r: Rules, attempts: seq<Attempt>): ChainState {
    if attempts == [] then Boot(r.crypto, FRESH)
    else Try(r, Live(r, attempts[..|attempts| - 1]), attempts[|attempts| - 1])
  }

  ghost predicate Extends(s: ChainState, s': ChainState) {
    && s.tip <= s'.tip
    && forall k: u64 :: k <= s.tip ==> k in s.ledger.blocks && k in s'.ledger.blocks && s'.ledger.blocks[k] == s.ledger.blocks[k]
  }

  lemma TryKeepsGood(r: Rules, s: ChainState, a: Attempt)
    requires Good(r, s) && s.tip < MAX_U64
    ensures Good(r, Try(r, s, a)) && Try(r, s, a).tip <= s.tip + 1 && Extends(s, Try(r, s, a))
  {
    var (ws, verdict) := CommitPlan(r, s.ledger, s.tip, a.block);
    var cut := if a.cut < |ws| then a.cut else |ws|;
    assert (if a.cut < |ws| then ws[..a.cut] else ws) == ws[..cut];
    CrashConsistency(r, s, a.block, cut);
    if verdict == Accepted && cut == |ws| {
      assert ws[..cut] == ws;
      AcceptedEffect(r, s, a.block);
    } else {
      PartialCommitOnlyRaises(r, s, a.block, cut);
    }
  }

  /**
   Over every life of a node, through accepted and rejected blocks, store errors and crashes
   between any two writes, the chain stays gap-free, linked, certified and well-numbered.
   */
  lemma {:induction false} EveryLifeIsGood(r: Rules, attempts: seq<Attempt>)
    requires |attempts| < MAX_U64
    ensures Good(r, Live(r, attempts)) && Live(r, attempts).tip <= |attempts|
  {
    if attempts == [] {
      FreshBootIsGood(r);
    } else {
      var before := attempts[..|attempts| - 1];
      EveryLifeIsGood(r, before);
      TryKeepsGood(r, Live(r, before), attempts[|attempts| - 1]);
    }
  }

  lemma ExtendsOnwards(s1: ChainState, s2: ChainState, s3: ChainState)
    requires Extends(s1, s2) && Extends(s2, s3)
    ensures Extends(s1, s3)
  {
  }

  lemma GoodExtendsItself(r: Rules, s: ChainState)
    requires Good(r, s)
    ensures Extends(s, s)
  {
  }

  /** The chain is append-only: what an earlier moment of a life committed, every later one holds. */
  lemma {:induction false} LivesOnlyAppend(r: Rules, attempts: seq<Attempt>, early: nat)
    requires early <= |attempts| < MAX_U64
    ensures Extends(Live(r, attempts[..early]), Live(r, attempts))
    decreases |attempts|
  {
    hide Try, Good, Extends;
    if early == |attempts| {
      assert attempts[..early] == attempts;
      EveryLifeIsGood(r, attempts);
      GoodExtendsItself(r, Live(r, attempts));
    } else {
      var before := attempts[..|attempts| - 1];
      EveryLifeIsGood(r, before);
      assert before[..early] == attempts[..early];
      LivesOnlyAppend(r, before, early);
      TryKeepsGood(r, Live(r, before), attempts[|attempts| - 1]);
      ExtendsOnwards(Live(r, attempts[..early]), Live(r, before), Live(r, attempts));
    }
  }
}
