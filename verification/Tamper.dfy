/**
 Validators vote on header hashes. A proposal whose transactions were exchanged under the same header
 passes every check, so engines that agree on all hashes can hold different transactions. What would
 rule that out is recomputing the Merkle root.
 */
module Tamper {
  import opened Base
  import opened Blocks
  import opened Bodies
  import opened Quorums
  import opened Votes
  import opened Ledgers
  import opened EngineModel
  import opened Protocol
  import opened Safety
  import opened Rounds

  // ---------------------------------------------------------------- the run

  /** The leader's empty proposal with `txs` put under its header. */
  function Filled(cfg: Config, timestamp: i64, txs: seq<Transaction>): Proposal {
    TheProposal(cfg, 0, timestamp).(block := TheProposal(cfg, 0, timestamp).block.(transactions := txs))
  }

  /** Engine `i` is shown the exchanged transactions, everyone else the proposal itself. */
  function ShownTo(cfg: Config, timestamp: i64, txs: seq<Transaction>, i: Bytes): Bytes -> Proposal {
    (k: Bytes) => if k == i then Filled(cfg, timestamp, txs) else TheProposal(cfg, 0, timestamp)
  }

  lemma ShownAreVariants(cfg: Config, timestamp: i64, txs: seq<Transaction>, i: Bytes, k: Bytes)
    requires forall t :: t in txs ==> TxVerify(cfg.crypto, t)
    ensures Variant(cfg, 0, timestamp, ShownTo(cfg, timestamp, txs, i)(k))
  {
    TheProposalIsVariant(cfg, 0, timestamp);
    hide TheProposal, TxVerify;
  }

  lemma ShownHash(cfg: Config, timestamp: i64, txs: seq<Transaction>)
    ensures BlockHash(cfg.crypto, Filled(cfg, timestamp, txs).block) == RoundHash(cfg, 0, timestamp)
  {
    hide TheProposal;
    assert HeaderBytes(Filled(cfg, timestamp, txs).block) == HeaderBytes(TheProposal(cfg, 0, timestamp).block);
  }

  lemma AcceptedAreSigned(c: Crypto, L: Ledger, txs: seq<Transaction>)
    requires NoncePlan(c, L, txs).1 == Accepted && L.nonces == map[]
    ensures forall t :: t in txs ==> TxVerify(c, t)
  {
    NoncePlanAccepts(c, L, [], txs);
  }

  /** Both engines stand at height 1 under one hash, with the given transactions. */
  predicate Diverged(net: Net, w: World, i: Bytes, j: Bytes, txs: seq<Transaction>) {
    && i in w.nodes && j in w.nodes && w.nodes[i].chain.tip == w.nodes[j].chain.tip == 1
    && SameAt(net, w.nodes[i], w.nodes[j], 1)
    && w.nodes[i].chain.ledger.blocks[1].transactions == txs
    && w.nodes[j].chain.ledger.blocks[1].transactions == []
  }

  /**
   With two or more honest validators and any transactions that the chain would accept: there is a run
   after which two engines have committed one header hash at height 1, one of them over these
   transactions and the other over none.
   */
  lemma TamperRun(net: Net, timestamp: i64, txs: seq<Transaction>) returns (run: seq<Event>, i: Bytes, j: Bytes)
    requires HonestNet(net) && |net.cfg.validators| >= 2
    requires NoncePlan(net.cfg.crypto, Genesis(net.cfg).ledger, txs).1 == Accepted
    ensures i in net.honest && j in net.honest && Diverged(net, Exec(net, run), i, j, txs)
  {
    var V := net.cfg.validators;
    i, j := V[0], V[1];
    var pick := ShownTo(net.cfg, timestamp, txs, i);
    GenesisShape(net.cfg);
    AcceptedAreSigned(net.cfg.crypto, Genesis(net.cfg).ledger, txs);
    forall k | k in V ensures Variant(net.cfg, 0, timestamp, pick(k)) {
      ShownAreVariants(net.cfg, timestamp, txs, i, k);
    }
    UnanimityIsForThree(|V|);
    var first := PlayFirstRound(net, timestamp, pick);
    RoundMakesReady(net, timestamp, txs, Exec(net, first));
    hide Exec, BothReady, ShownTo, Filled, TheProposal, RoundPrecommitted, Diverged;
    run := BothCommit(net, first, i, Filled(net.cfg, timestamp, txs).block, j, TheProposal(net.cfg, 0, timestamp).block);
  }

  /** Engines i and j have precommitted the two blocks, and everyone has signed their common hash. */
  ghost predicate BothReady(net: Net, w: World, i: Bytes, P: Block, j: Bytes, Q: Block) {
    && Precommitted(net, w, i, 0, P) && Precommitted(net, w, j, 0, Q)
    && BlockHash(net.cfg.crypto, P) == BlockHash(net.cfg.crypto, Q)
    && AllSigned(w.ballots, net.cfg.validators, Precommit, 0, BlockHash(net.cfg.crypto, Q))
    && GenesisChild(net.cfg, P) && GenesisChild(net.cfg, Q) && Q.transactions == []
  }

  lemma RoundMakesReady(net: Net, timestamp: i64, txs: seq<Transaction>, w: World)
    requires HonestNet(net) && |net.cfg.validators| >= 2
    requires NoncePlan(net.cfg.crypto, Genesis(net.cfg).ledger, txs).1 == Accepted
    requires RoundPrecommitted(net, w, net.cfg.validators, 0,
                               ShownTo(net.cfg, timestamp, txs, net.cfg.validators[0]), RoundHash(net.cfg, 0, timestamp))
    ensures BothReady(net, w, net.cfg.validators[0], Filled(net.cfg, timestamp, txs).block,
                      net.cfg.validators[1], TheProposal(net.cfg, 0, timestamp).block)
    ensures Filled(net.cfg, timestamp, txs).block.transactions == txs
  {
    var i, j := net.cfg.validators[0], net.cfg.validators[1];
    ProposalIsGenesisChild(net.cfg, 0, timestamp, txs);
    ProposalIsGenesisChild(net.cfg, 0, timestamp, []);
    EmptyProposal(net.cfg, timestamp);
    ShownHash(net.cfg, timestamp, txs);
    var pick := ShownTo(net.cfg, timestamp, txs, i);
    assert i != j;
    hide TheProposal, GenesisChild, Precommitted, AllSigned, NoncePlan, BlockHash, HonestNet;
    assert Precommitted(net, w, i, 0, pick(i).block) && Precommitted(net, w, j, 0, pick(j).block);
  }

  lemma EmptyProposal(cfg: Config, timestamp: i64)
    ensures var Q := TheProposal(cfg, 0, timestamp).block; Q.transactions == [] && Q == Q.(transactions := [])
  {
    GenesisShape(cfg);
  }

  lemma BothCommit(net: Net, first: seq<Event>, i: Bytes, P: Block, j: Bytes, Q: Block) returns (run: seq<Event>)
    requires HonestNet(net) && i in net.cfg.validators && j in net.cfg.validators && i != j
    requires |net.cfg.validators| >= net.cfg.QuorumSize() && BothReady(net, Exec(net, first), i, P, j, Q)
    ensures Diverged(net, Exec(net, run), i, j, P.transactions)
  {
    hide Exec, GenesisChild, Precommitted, AllSigned, BlockHash, Commits, Diverged;
    var V := net.cfg.validators;
    var commit := PlayCommit(net, first, i, V, 0, P);
    var middle := first + commit;
    StillPrecommitted(net, Exec(net, first), Exec(net, middle), i, P, j, 0, Q);
    var more := PlayCommit(net, middle, j, V, 0, Q);
    run := middle + more;
    AreDiverged(net, Exec(net, first), Exec(net, middle), Exec(net, run), i, j, P, Q);
  }

  lemma StillPrecommitted(net: Net, w: World, w': World, i: Bytes, P: Block, j: Bytes, r: u32, Q: Block)
    requires i != j && Commits(net, w, w', i, P) && Precommitted(net, w, j, r, Q)
    ensures Precommitted(net, w', j, r, Q) && w'.ballots == w.ballots
  {
    hide RoundKey, SameBody;
  }

  lemma AreDiverged(net: Net, w0: World, w1: World, w2: World, i: Bytes, j: Bytes, P: Block, Q: Block)
    requires i != j && Commits(net, w0, w1, i, P) && Commits(net, w1, w2, j, Q)
    requires BlockHash(net.cfg.crypto, P) == BlockHash(net.cfg.crypto, Q) && Q.transactions == []
    ensures Diverged(net, w2, i, j, P.transactions)
  {
    SameBodySameHash(net.cfg.crypto, w2.nodes[i].chain.ledger.blocks[1], P);
    SameBodySameHash(net.cfg.crypto, w2.nodes[j].chain.ledger.blocks[1], Q);
    hide BlockHash, SameBody;
  }

  /** If both engines have committed one header hash at height h, they hold the same transactions there. */
  predicate FixedAt(net: Net, w: World, i: Bytes, j: Bytes, h: u64) {
    && i in w.nodes && j in w.nodes
    && (SameAt(net, w.nodes[i], w.nodes[j], h) ==>
          w.nodes[i].chain.ledger.blocks[h].transactions == w.nodes[j].chain.ledger.blocks[h].transactions)
  }

  /** Wherever two engines have committed one header hash, they hold the same transactions. */
  ghost predicate HashesFixTransactions(net: Net) {
    forall run: seq<Event>, i, j, h: u64 :: i in net.honest && j in net.honest ==> FixedAt(net, Exec(net, run), i, j, h)
  }

  /** A first message that validator `v` sends to itself. */
  function FirstMessage(c: Crypto, v: Bytes): Transaction {
    var unsigned := Transaction(v, v, [], seq(12, _ => 0), seq(32, _ => 0), 1, 0, []);
    unsigned.(signature := c.sign(v, TxSigningBytes(unsigned)))
  }

  lemma FirstMessageAccepted(cfg: Config, v: Bytes)
    requires SignaturesVerify(cfg.crypto) && DecodeAddress(v).Some?
    ensures NoncePlan(cfg.crypto, Genesis(cfg).ledger, [FirstMessage(cfg.crypto, v)]).1 == Accepted
  {
    var t := FirstMessage(cfg.crypto, v);
    var unsigned := t.(signature := []);
    assert TxSigningBytes(t) == TxSigningBytes(unsigned);
    GenesisShape(cfg);
    assert TxVerify(cfg.crypto, t);
    hide TxSigningBytes, TxVerify, Genesis, GenesisBlock;
    assert [t][1..] == [];
  }

  lemma TwoCanDiffer(net: Net, timestamp: i64)
    requires HonestNet(net) && |net.cfg.validators| >= 2
    ensures !HashesFixTransactions(net)
  {
    var v := net.cfg.validators[0];
    FirstMessageAccepted(net.cfg, v);
    hide Exec, SameAt, Genesis, NoncePlan, FirstMessage;
    var run, i, j := TamperRun(net, timestamp, [FirstMessage(net.cfg.crypto, v)]);
    assert !FixedAt(net, Exec(net, run), i, j, 1);
  }

  lemma OneAgreesWithItself(net: Net)
    requires HonestNet(net) && |net.cfg.validators| == 1
    ensures HashesFixTransactions(net)
  {
    forall run: seq<Event>, i, j, h: u64 | i in net.honest && j in net.honest ensures FixedAt(net, Exec(net, run), i, j, h) {
      RunsKeepInv(net, run);
      assert i == net.cfg.validators[0] && j == net.cfg.validators[0];
      hide Exec, NodeInv;
    }
  }

  /** Header hashes fix the transactions, over all runs of honest validators, only for a validator alone. */
  lemma HashesFixTransactionsOnlyAlone(net: Net, timestamp: i64)
    requires HonestNet(net)
    ensures HashesFixTransactions(net) <==> |net.cfg.validators| == 1
  {
    hide HashesFixTransactions;
    if |net.cfg.validators| >= 2 {
      TwoCanDiffer(net, timestamp);
    } else {
      OneAgreesWithItself(net);
    }
  }

  // ---------------------------------------------------------------- the guard

  lemma CommittedHas64(net: Net, n: Node, h: u64)
    requires DigestsHave32Bytes(net.cfg.crypto) && Good(net.cfg.Rules(), n.chain) && 0 < h <= n.chain.tip
    ensures h in n.chain.ledger.blocks && |n.chain.ledger.blocks[h].prevHash| == 64
  {
    assert BlockFits(net.cfg.Rules(), n.chain.ledger.blocks, h);
    var prev := n.chain.ledger.blocks[h - 1];
    assert |net.cfg.crypto.sha(HeaderBytes(prev))| == 32;
  }

  /**
   In every run: where two engines have committed one header hash and one of the blocks passes the root
   check, the other holds the same transaction hashes under the same root if and only if it passes
   the check too.
   */
  lemma RootCheckFixesHashes(net: Net, run: seq<Event>, i: Bytes, j: Bytes, h: u64)
    requires i in net.honest && j in net.honest && i in Exec(net, run).nodes && j in Exec(net, run).nodes
    requires SignaturesHave64Bytes(net.cfg.crypto)
    requires var a, b := Exec(net, run).nodes[i], Exec(net, run).nodes[j];
      && 0 < h <= a.chain.tip && h <= b.chain.tip && SameAt(net, a, b, h)
      && Collisionless(net.cfg.crypto, a.chain.ledger.blocks[h], b.chain.ledger.blocks[h])
      && Unmixed(net.cfg.crypto, a.chain.ledger.blocks[h], b.chain.ledger.blocks[h])
      && RootMatches(net.cfg.crypto, a.chain.ledger.blocks[h])
    ensures var x, y := Exec(net, run).nodes[i].chain.ledger.blocks[h], Exec(net, run).nodes[j].chain.ledger.blocks[h];
      x.merkleRoot == y.merkleRoot && SameHashes(net.cfg.crypto, x.transactions, y.transactions)
      <==> RootMatches(net.cfg.crypto, y)
  {
    var a, b := Exec(net, run).nodes[i], Exec(net, run).nodes[j];
    RunsKeepGood(net, run, i);
    RunsKeepGood(net, run, j);
    CommittedHas64(net, a, h);
    CommittedHas64(net, b, h);
    BlockIsAcceptable(net.cfg.Rules(), a.chain, h);
    BlockIsAcceptable(net.cfg.Rules(), b.chain, h);
    var x, y := a.chain.ledger.blocks[h], b.chain.ledger.blocks[h];
    hide Exec, Good, Collisionless, Unmixed, RootMatches, SameHashes, BlockHash, NoncesIncrease, TxVerify;
    AcceptedGuardDecides(net.cfg.crypto, x, y);
  }
}
