/**
 Engines do not lock on a block across rounds. With four or more validators, even all honest, there
 is a run in which two of them commit different blocks at height 1: one validator sees the round-0
 precommits, the others time out and decide round 1 without it. Agreement over all runs therefore
 holds exactly up to three validators.
 */
module Fork {
  import opened Base
  import opened Blocks
  import opened Quorums
  import opened Votes
  import opened EngineModel
  import opened Protocol
  import opened Safety
  import opened Rounds

  /** Engine k sits in round 0 of height 1 and has filed nothing for round 1. */
  predicate LeftBehind(net: Net, w: World, k: Bytes) {
    && k in w.nodes && AtHeightOne(net.cfg, k, w.nodes[k], 0) && !w.nodes[k].phase.Start?
    && RoundKey(1, 1) !in w.nodes[k].proposals && RoundKey(1, 1) !in w.nodes[k].prevotes
    && RoundKey(1, 1) !in w.nodes[k].precommits
  }

  /** Every engine is shown the leader's own proposal. */
  function AsProposed(cfg: Config, r: u32, timestamp: i64): Bytes -> Proposal {
    (i: Bytes) => TheProposal(cfg, r, timestamp)
  }

  /** Those left behind give round 0 up and precommit in round 1. */
  lemma PlaySecondRound(net: Net, w: World, S: seq<Bytes>, timestamp: i64) returns (es: seq<Event>)
    requires HonestNet(net) && Distinct(S) && S != [] && (forall v :: v in S ==> v in net.cfg.validators)
    requires |S| >= net.cfg.QuorumSize() && Leader(net.cfg, 1) in S
    requires forall k :: k in S ==> LeftBehind(net, w, k)
    ensures RoundPrecommitted(net, Play(net, w, es), S, 1, AsProposed(net.cfg, 1, timestamp), RoundHash(net.cfg, 1, timestamp))
    ensures Play(net, w, es).nodes.Keys == w.nodes.Keys
    ensures forall i :: i in w.nodes && i !in S ==> Play(net, w, es).nodes[i] == w.nodes[i]
  {
    var first := ReenterSweep(net, w, S, timestamp);
    var w1 := Play(net, w, first);
    SecondRoundOpen(net, w, w1, S, timestamp);
    TheProposalIsVariant(net.cfg, 1, timestamp);
    hide Play, RoundOpen, RoundPrecommitted, LeftBehind, HonestNet, TheProposal, RoundKey, Variant;
    var second := PlayRound(net, w1, S, 1, timestamp, AsProposed(net.cfg, 1, timestamp));
    es := first + second;
    PlayAppend(net, w, first, second);
  }

  lemma SecondRoundOpen(net: Net, w: World, w1: World, S: seq<Bytes>, timestamp: i64)
    requires Leader(net.cfg, 1) in S && forall k :: k in S ==> LeftBehind(net, w, k)
    requires Swept(w, w1, S, EntersNext(), SignsNothing(), Publishes(net.cfg, 1, timestamp))
    ensures RoundOpen(net, w1, S, 1) && TheProposal(net.cfg, 1, timestamp) in w1.proposed
  {
    assert Publishes(net.cfg, 1, timestamp)(Leader(net.cfg, 1)) <= w1.proposed;
    hide RoundKey, Genesis, TheProposal, Leader;
    forall k | k in S ensures LeftBehind(net, w, k) {
    }
  }

  lemma SecondLeader(net: Net)
    requires HonestNet(net) && |net.cfg.validators| >= 4
    ensures Leader(net.cfg, 1) in net.cfg.validators[1..]
  {
    var V := net.cfg.validators;
    assert Leader(net.cfg, 1) == V[2];
    assert V[1..][1] == V[2];
  }

  /** After round 0, everyone but V[0] can be left behind. */
  lemma OthersLeftBehind(net: Net, w: World, w': World, pick: Bytes -> Proposal, x: Bytes, block: Block)
    requires HonestNet(net) && RoundPrecommitted(net, w, net.cfg.validators, 0, pick, x) && NothingButRound0(net, w)
    requires Commits(net, w, w', net.cfg.validators[0], block)
    ensures forall k :: k in net.cfg.validators[1..] ==> LeftBehind(net, w', k)
  {
    var V := net.cfg.validators;
    RoundsDiffer();
    hide RoundKey, AllSigned, Genesis;
    forall k | k in V[1..] ensures LeftBehind(net, w', k) {
      var m :| 0 <= m < |V[1..]| && V[1..][m] == k;
      assert V[m + 1] == k && k != V[0];
      assert Precommitted(net, w, k, 0, pick(k).block) && Unfiled(w.nodes[k], RoundKey(1, 1));
    }
  }

  lemma ForkedChains(net: Net, w0: World, w1: World, w2: World, w3: World, i: Bytes, j: Bytes, b0: Block, b1: Block)
    requires i != j && Commits(net, w0, w1, i, b0) && Commits(net, w2, w3, j, b1)
    requires i in w2.nodes && w2.nodes[i] == w1.nodes[i]
    requires BlockHash(net.cfg.crypto, b0) != BlockHash(net.cfg.crypto, b1)
    ensures i in w3.nodes && j in w3.nodes && !SameChain(net, w3.nodes[i], w3.nodes[j])
  {
    SameBodySameHash(net.cfg.crypto, w1.nodes[i].chain.ledger.blocks[1], b0);
    SameBodySameHash(net.cfg.crypto, w3.nodes[j].chain.ledger.blocks[1], b1);
    hide BlockHash, SameBody;
    assert !SameAt(net, w3.nodes[i], w3.nodes[j], 1);
  }

  /**
   With four or more honest validators there is a run after which two of them hold different blocks
   at height 1. (The two timestamps only keep the hash from hiding the difference.)
   */
  lemma ForkRun(net: Net, t0: i64, t1: i64) returns (run: seq<Event>, i: Bytes, j: Bytes)
    requires HonestNet(net) && |net.cfg.validators| >= 4 && RoundHash(net.cfg, 0, t0) != RoundHash(net.cfg, 1, t1)
    ensures i in net.honest && j in net.honest && i in Exec(net, run).nodes && j in Exec(net, run).nodes
    ensures !SameChain(net, Exec(net, run).nodes[i], Exec(net, run).nodes[j])
  {
    var V := net.cfg.validators;
    i, j := V[0], V[1];
    var first, run0 := FirstHalf(net, t0);
    var before;
    before, run := SecondHalf(net, run0, t1);
    hide Commits, LeftBehind, Exec, TheProposal, BlockHash, SameChain;
    ForkedChains(net, Exec(net, first), Exec(net, run0), Exec(net, before), Exec(net, run), i, j,
                 TheProposal(net.cfg, 0, t0).block, TheProposal(net.cfg, 1, t1).block);
  }

  /** The block an engine of the fork commits passes. */
  lemma EmptyIsGenesisChild(cfg: Config, r: u32, timestamp: i64)
    ensures GenesisChild(cfg, TheProposal(cfg, r, timestamp).block)
  {
    ProposalIsGenesisChild(cfg, r, timestamp, []);
    TheProposalIsVariant(cfg, r, timestamp);
  }

  /** Round 0 is precommitted by all, and V[0] alone sees it through. */
  lemma FirstHalf(net: Net, t0: i64) returns (first: seq<Event>, run: seq<Event>)
    requires HonestNet(net) && |net.cfg.validators| >= 4
    ensures Commits(net, Exec(net, first), Exec(net, run), net.cfg.validators[0], TheProposal(net.cfg, 0, t0).block)
    ensures forall k :: k in net.cfg.validators[1..] ==> LeftBehind(net, Exec(net, run), k)
  {
    var V, pick, x := net.cfg.validators, AsProposed(net.cfg, 0, t0), RoundHash(net.cfg, 0, t0);
    var b0 := TheProposal(net.cfg, 0, t0).block;
    UnanimityIsForThree(|V|);
    EmptyIsGenesisChild(net.cfg, 0, t0);
    TheProposalIsVariant(net.cfg, 0, t0);
    hide Variant, TheProposal, Exec, Commits, LeftBehind, GenesisChild, Precommitted, AllSigned, NothingButRound0;
    first := PlayFirstRound(net, t0, pick);
    assert Precommitted(net, Exec(net, first), V[0], 0, pick(V[0]).block);
    var commit0 := PlayCommit(net, first, V[0], V, 0, b0);
    run := first + commit0;
    OthersLeftBehind(net, Exec(net, first), Exec(net, run), pick, x, b0);
  }

  /** The others decide round 1 without V[0]: V[1] commits its block, and V[0] stays where it was. */
  lemma SecondHalf(net: Net, run0: seq<Event>, t1: i64) returns (before: seq<Event>, run: seq<Event>)
    requires HonestNet(net) && |net.cfg.validators| >= 4 && net.cfg.validators[0] in Exec(net, run0).nodes
    requires forall k :: k in net.cfg.validators[1..] ==> LeftBehind(net, Exec(net, run0), k)
    ensures Commits(net, Exec(net, before), Exec(net, run), net.cfg.validators[1], TheProposal(net.cfg, 1, t1).block)
    ensures net.cfg.validators[0] in Exec(net, before).nodes
    ensures Exec(net, before).nodes[net.cfg.validators[0]] == Exec(net, run0).nodes[net.cfg.validators[0]]
  {
    var V, b1 := net.cfg.validators, TheProposal(net.cfg, 1, t1).block;
    var S := V[1..];
    assert V[1] == S[0] && V[0] !in S;
    UnanimityIsForThree(|V|);
    SecondLeader(net);
    EmptyIsGenesisChild(net.cfg, 1, t1);
    hide TheProposal, Exec, Play, Commits, LeftBehind, GenesisChild, Precommitted, AllSigned, Leader;
    var second := PlaySecondRound(net, Exec(net, run0), S, t1);
    before := run0 + second;
    ExecExtends(net, run0, second);
    assert Precommitted(net, Exec(net, before), V[1], 1, AsProposed(net.cfg, 1, t1)(V[1]).block);
    var commit1 := PlayCommit(net, before, V[1], S, 1, b1);
    run := before + commit1;
  }

  lemma RoundsDiffer()
    ensures RoundKey(1, 1) != RoundKey(1, 0)
  {
    if RoundKey(1, 1) == RoundKey(1, 0) {
      RoundKeyInjective(1, 1, 1, 0);
    }
  }

  /** Every two honest validators always agree. */
  ghost predicate AlwaysAgrees(net: Net) {
    forall run: seq<Event>, i, j :: i in net.honest && j in net.honest ==>
      var w := Exec(net, run); i in w.nodes && j in w.nodes && SameChain(net, w.nodes[i], w.nodes[j])
  }

  /**
   Agreement over all asynchronous runs of honest validators holds exactly for one to three of them:
   precisely where n - f is n.
   */
  lemma AgreementExactlyWhenUnanimous(net: Net, t0: i64, t1: i64)
    requires HonestNet(net)
    requires RoundHash(net.cfg, 0, t0) != RoundHash(net.cfg, 1, t1)
    ensures AlwaysAgrees(net) <==> |net.cfg.validators| <= 3
    ensures |net.cfg.validators| <= 3 <==> net.cfg.QuorumSize() == |net.cfg.validators|
  {
    UnanimityIsForThree(|net.cfg.validators|);
    if |net.cfg.validators| <= 3 {
      QuorumIsTwoFPlusOne(|net.cfg.validators|);
      assert net.cfg.Members() - net.honest == {};
      forall run: seq<Event>, i, j | i in net.honest && j in net.honest
        ensures var w := Exec(net, run); i in w.nodes && j in w.nodes && SameChain(net, w.nodes[i], w.nodes[j])
      {
        UnanimousAgreement(net, run, i, j);
      }
    } else {
      var run, i, j := ForkRun(net, t0, t1);
    }
  }
}
