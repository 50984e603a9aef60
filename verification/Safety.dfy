/**
 What every run of the protocol guarantees: agreement within a round, closure of a round that
 enough validators decided, and one chain when quorums are unanimous.
 */
module Safety {
  import opened Base
  import opened Blocks
  import opened Quorums
  import opened Votes
  import opened Ledgers
  import opened EngineModel
  import opened Protocol

  lemma MembersBounded(net: Net)
    ensures |net.cfg.Members()| <= |net.cfg.validators|
  {
    ListBoundsSet(net.cfg.Members(), net.cfg.validators);
  }

  // ---------------------------------------------------------------- one round

  /** Two precommit quorums of one round, real or possible, are for one block hash. */
  lemma ReachableAgree(net: Net, w: World, h: u64, r: u32, x: Bytes, y: Bytes)
    requires Tolerable(net) && Inv(net, w)
    requires Reachable(net, w.ballots, Precommit, h, r, x) && Reachable(net, w.ballots, Precommit, h, r, y)
    ensures x == y
  {
    MembersBounded(net);
    var n, all := |net.cfg.validators|, net.cfg.Members();
    QuorumHasHonest(n, all, net.honest, Backers(net, w.ballots, Precommit, h, r, x));
    QuorumHasHonest(n, all, net.honest, Backers(net, w.ballots, Precommit, h, r, y));
    var u :| u in Backers(net, w.ballots, Precommit, h, r, x) && u in net.honest;
    var v :| v in Backers(net, w.ballots, Precommit, h, r, y) && v in net.honest;
    PrecommitsAgree(net, w, Ballot(u, Precommit, h, r, x), Ballot(v, Precommit, h, r, y));
  }

  lemma PrecommitsAgree(net: Net, w: World, a: Ballot, b: Ballot)
    requires Tolerable(net) && Inv(net, w)
    requires a in w.ballots && b in w.ballots && a.kind == b.kind == Precommit
    requires a.height == b.height && a.round == b.round
    ensures a.hash == b.hash
  {
    MembersBounded(net);
    var h, r := a.height, a.round;
    var pa, pb := Backers(net, w.ballots, Prevote, h, r, a.hash), Backers(net, w.ballots, Prevote, h, r, b.hash);
    QuorumsShareHonest(|net.cfg.validators|, net.cfg.Members(), net.honest, pa, pb);
    var v :| v in pa && v in pb && v in net.honest;
    assert SameSlot(Ballot(v, Prevote, h, r, a.hash), Ballot(v, Prevote, h, r, b.hash));
  }

  /**
   With at most f faulty validators, all honest precommits of one height and round name one hash,
   in every run and whatever votes are injected.
   */
  lemma RoundAgreement(net: Net, run: seq<Event>, a: Ballot, b: Ballot)
    requires Tolerable(net)
    requires a in Exec(net, run).ballots && b in Exec(net, run).ballots && a.kind == b.kind == Precommit
    requires a.height == b.height && a.round == b.round
    ensures a.hash == b.hash
  {
    RunsKeepInv(net, run);
    PrecommitsAgree(net, Exec(net, run), a, b);
  }

  /** An entry of round `r` that is not a forged signature of an honest validator. */
  ghost predicate GenuineEntry(net: Net, w: World, b: Block, r: u32, cs: ValidatorSig) {
    && cs.round == r
    && (cs.validator in net.honest && ValidCommitSig(net.cfg.crypto, b, cs) ==>
          exists a :: a in w.ballots && a.voter == cs.validator
                      && BallotBytes(a) == PrecommitSigningBytes(b.height, r, BlockHash(net.cfg.crypto, b)))
  }

  /** A commit certificate of one round that passes the quorum check. */
  ghost predicate RoundCertificate(net: Net, w: World, b: Block, r: u32) {
    && QuorumMet(net.cfg.crypto, b, net.cfg.QuorumSize(), net.cfg.Members())
    && forall cs :: cs in b.commitSigs ==> GenuineEntry(net, w, b, r, cs)
  }

  lemma CertificateIsReachable(net: Net, w: World, b: Block, r: u32)
    requires RoundCertificate(net, w, b, r)
    ensures Reachable(net, w.ballots, Precommit, b.height, r, BlockHash(net.cfg.crypto, b))
  {
    var hash := BlockHash(net.cfg.crypto, b);
    var signers := CommitSigners(net.cfg.crypto, b, b.commitSigs, net.cfg.Members());
    var backers := Backers(net, w.ballots, Precommit, b.height, r, hash);
    forall v | v in signers ensures v in backers {
      var k :| 0 <= k < |b.commitSigs| && b.commitSigs[k].validator == v && ValidCommitSig(net.cfg.crypto, b, b.commitSigs[k]);
      assert GenuineEntry(net, w, b, r, b.commitSigs[k]);
      if v in net.honest {
        var a :| a in w.ballots && a.voter == v && BallotBytes(a) == PrecommitSigningBytes(b.height, r, hash);
        SigningBytesInjective(a.kind, a.height, a.round, a.hash, Precommit, b.height, r, hash);
        assert a == Ballot(v, Precommit, b.height, r, hash);
      }
    }
    SubsetSize(signers, backers);
  }

  /** Any two certificates of one height and round certify the same header hash. */
  lemma CertificatesAgree(net: Net, run: seq<Event>, a: Block, b: Block, r: u32)
    requires Tolerable(net) && a.height == b.height
    requires RoundCertificate(net, Exec(net, run), a, r) && RoundCertificate(net, Exec(net, run), b, r)
    ensures BlockHash(net.cfg.crypto, a) == BlockHash(net.cfg.crypto, b)
  {
    RunsKeepInv(net, run);
    CertificateIsReachable(net, Exec(net, run), a, r);
    CertificateIsReachable(net, Exec(net, run), b, r);
    ReachableAgree(net, Exec(net, run), a.height, r, BlockHash(net.cfg.crypto, a), BlockHash(net.cfg.crypto, b));
  }

  /**
   In every run, whatever votes were delivered before, a certificate that an engine assembles passes
   VerifyCommitQuorum.
   */
  lemma AssembledCertificatesPass(net: Net, run: seq<Event>, i: Bytes, sigs: seq<ValidatorSig>)
    requires i in net.honest && i in Exec(net, run).nodes && IsCertificate(net.cfg, Exec(net, run).nodes[i], sigs)
    ensures var block := Exec(net, run).nodes[i].phase.block.(commitSigs := sigs);
      QuorumMet(net.cfg.crypto, block, net.cfg.QuorumSize(), net.cfg.Members())
  {
    RunsKeepInv(net, run);
    var w := Exec(net, run);
    NodeFacts(net, w, i);
    hide Inv, NodeInv, Exec, IsCertificate;
    CertificateIsValid(net.cfg, w.nodes[i], sigs);
  }

  // ---------------------------------------------------------------- later rounds

  /** The honest validators that committed height `h` in a round up to `r`. */
  function DecidedBy(w: World, h: u64, r: u32): (s: set<Bytes>)
    ensures s <= w.nodes.Keys
  {
    set i | i in w.nodes && h <= w.nodes[i].chain.tip && h in w.nodes[i].decided && w.nodes[i].decided[h] <= r
  }

  lemma BallotFits(net: Net, w: World, b: Ballot)
    requires Inv(net, w) && b in w.ballots
    ensures b.voter in w.nodes && Fits(net.cfg, w.nodes[b.voter], b)
  {
  }

  lemma ClosedRounds(net: Net, w: World, h: u64, r: u32, later: u32, x: Bytes)
    requires Tolerable(net) && Inv(net, w) && h > 0
    requires |DecidedBy(w, h, r)| > MaxFaulty(|net.cfg.validators|) && later > r
    ensures !Reachable(net, w.ballots, Precommit, h, later, x)
  {
    MembersBounded(net);
    var decided, backers := DecidedBy(w, h, r), Backers(net, w.ballots, Precommit, h, later, x);
    forall i | i in decided ensures i !in backers {
      if Ballot(i, Precommit, h, later, x) in w.ballots {
        BallotFits(net, w, Ballot(i, Precommit, h, later, x));
      }
    }
    TooFewRemain(|net.cfg.validators|, net.cfg.Members(), decided, backers);
  }

  /** What an engine has committed, and in which round, never changes. */
  predicate Keeps(n: Node, n': Node) {
    && n.chain.tip <= n'.chain.tip
    && forall h: u64 :: 0 < h <= n.chain.tip && h in n.decided && h in n.chain.ledger.blocks ==>
         && h in n'.decided && n'.decided[h] == n.decided[h]
         && h in n'.chain.ledger.blocks && n'.chain.ledger.blocks[h] == n.chain.ledger.blocks[h]
  }

  lemma CommitKeeps(net: Net, ballots: set<Ballot>, n: Node, sigs: seq<ValidatorSig>)
    requires PhaseInv(n) && IsCertificate(net.cfg, n, sigs) && n.round < MAX_U32
    ensures Keeps(n, DoCommit(net.cfg, n, sigs))
  {
    hide Commit, ListsVotes, CountVotes, DropPrefixed;
    var block := n.phase.block.(commitSigs := sigs);
    CommitEffect(net.cfg.Rules(), n.chain, block);
  }

  /** What one step can do to an engine's chain: nothing, a commit, or a commit that the store breaks off. */
  ghost predicate ChainMoves(net: Net, n: Node, n': Node, a: Action) {
    || (n'.chain == n.chain && n'.decided == n.decided)
    || (a.StoreFails? && CommitBreaks(net.cfg, n, a.sigs, a.partial) && n' == FailCommit(n, a.partial))
    || (a.SeePrecommits? && IsCertificate(net.cfg, n, a.sigs) && n.round < MAX_U32 && n' == DoCommit(net.cfg, n, a.sigs))
  }

  lemma HandlersKeepChain(cfg: Config, n: Node, p: Proposal, want: VoteType, v: Vote)
    ensures var m := EngineModel.HandleProposal(n, p); m.chain == n.chain && m.decided == n.decided
    ensures var m := EngineModel.HandleVote(cfg, n, want, v); m.chain == n.chain && m.decided == n.decided
  {
    hide File, Admissible, RoundKey;
  }

  lemma OthersStay(net: Net, w: World, e: Event, i: Bytes)
    requires i in w.nodes && i != e.node
    ensures i in Next(net, w, e).nodes && Next(net, w, e).nodes[i] == w.nodes[i]
  {
    hide CanPrevote, MustRefuse, CanPrecommit, IsCertificate, DoCommit, DoPrevote, DoPrecommit, CommitBreaks, FailCommit,
      AuthenticVote, AuthenticProposal, Published, BallotOf, HandleProposal, HandleVote, NextRound;
  }

  /** Nothing but a commit, whole or broken off, touches an engine's chain or decisions. */
  lemma OnlyCommitsMoveChains(net: Net, w: World, e: Event, i: Bytes)
    requires i in w.nodes
    ensures i in Next(net, w, e).nodes && ChainMoves(net, w.nodes[i], Next(net, w, e).nodes[i], e.action)
  {
    hide CanPrevote, MustRefuse, CanPrecommit, IsCertificate, DoCommit, CommitBreaks, FailCommit, AuthenticVote,
      AuthenticProposal, Published, BallotOf, EngineModel.HandleProposal, EngineModel.HandleVote;
    if i != e.node {
      OthersStay(net, w, e, i);
    } else {
      match e.action
      case ReceiveProposal(p) => HandlersKeepChain(net.cfg, w.nodes[i], p, Prevote, Vote(Prevote, 0, 0, [], [], []));
      case ReceiveVote(want, v) => HandlersKeepChain(net.cfg, w.nodes[i], Proposal(GenesisBlock(net.cfg.crypto), 0, []), want, v);
      case EnterRound(_, _) =>
      case ReadProposal =>
      case SeePrevotes =>
      case SeePrecommits(_) =>
      case StoreFails(_, _) =>
      case GiveUp =>
    }
  }

  lemma BreakKeeps(net: Net, n: Node, sigs: seq<ValidatorSig>, partial: Ledger)
    requires CommitBreaks(net.cfg, n, sigs, partial)
    ensures Keeps(n, FailCommit(n, partial))
  {
    BreakKeepsBlocks(net.cfg, n, sigs, partial);
    hide CommitBreaks;
  }

  lemma StepKeeps(net: Net, w: World, e: Event, i: Bytes)
    requires Inv(net, w) && i in w.nodes
    ensures i in Next(net, w, e).nodes && Keeps(w.nodes[i], Next(net, w, e).nodes[i])
  {
    NodeFacts(net, w, i);
    OnlyCommitsMoveChains(net, w, e, i);
    hide Inv, NodeInv, Next, IsCertificate, DoCommit, FailCommit, CommitBreaks, PhaseInv;
    var n := w.nodes[i];
    if e.action.SeePrecommits? && IsCertificate(net.cfg, n, e.action.sigs) && n.round < MAX_U32 {
      CommitKeeps(net, w.ballots, n, e.action.sigs);
    }
    if e.action.StoreFails? && CommitBreaks(net.cfg, n, e.action.sigs, e.action.partial) {
      BreakKeeps(net, n, e.action.sigs, e.action.partial);
    }
  }

  // ---------------------------------------------------------------- every engine's chain is good

  lemma CommitKeepsGood(cfg: Config, n: Node, sigs: seq<ValidatorSig>)
    requires Good(cfg.Rules(), n.chain) && n.chain.tip < MAX_U64 && IsCertificate(cfg, n, sigs)
    ensures Good(cfg.Rules(), DoCommit(cfg, n, sigs).chain)
  {
    var block := n.phase.block.(commitSigs := sigs);
    if Commit(cfg.Rules(), n.chain, block).1 == Accepted {
      AcceptedKeepsGood(cfg.Rules(), n.chain, block);
    } else {
      RejectionKeepsChain(cfg.Rules(), n.chain, block);
      RaisingKeepsGood(cfg.Rules(), n.chain, Commit(cfg.Rules(), n.chain, block).0.ledger, block.transactions);
    }
    hide Commit, Good, IsCertificate, DropPrefixed, OnlyRaises;
  }

  lemma StepKeepsGood(net: Net, w: World, e: Event, i: Bytes)
    requires Inv(net, w) && i in w.nodes && Good(net.cfg.Rules(), w.nodes[i].chain)
    ensures i in Next(net, w, e).nodes && Good(net.cfg.Rules(), Next(net, w, e).nodes[i].chain)
  {
    NodeFacts(net, w, i);
    OnlyCommitsMoveChains(net, w, e, i);
    hide Inv, NodeInv, Next, DoCommit, Good, BrokenOff;
    var n := w.nodes[i];
    if e.action.SeePrecommits? && IsCertificate(net.cfg, n, e.action.sigs) && n.round < MAX_U32 {
      CommitKeepsGood(net.cfg, n, e.action.sigs);
    }
    if e.action.StoreFails? && CommitBreaks(net.cfg, n, e.action.sigs, e.action.partial) {
      BrokenOffKeepsGood(net.cfg.Rules(), n.chain, n.phase.block.(commitSigs := e.action.sigs), e.action.partial);
    }
  }

  /** In every run every honest engine's chain is gap-free, linked, certified, signed and well-numbered. */
  lemma {:induction false} RunsKeepGood(net: Net, run: seq<Event>, i: Bytes)
    requires i in net.honest
    ensures i in Exec(net, run).nodes && Good(net.cfg.Rules(), Exec(net, run).nodes[i].chain)
    decreases |run|
  {
    if run == [] {
      FreshBootIsGood(net.cfg.Rules());
    } else {
      var before := run[..|run| - 1];
      RunsKeepGood(net, before, i);
      RunsKeepInv(net, before);
      hide Inv, Good, Next;
      StepKeepsGood(net, Exec(net, before), run[|run| - 1], i);
    }
  }

  /** `a` knows a decision and a block for every height up to its tip. */
  predicate KnowsHeights(a: Node) {
    forall h: u64 :: 0 < h <= a.chain.tip ==> h in a.decided && h in a.chain.ledger.blocks
  }

  lemma KeepsTransitive(a: Node, b: Node, c: Node)
    requires KnowsHeights(b) && Keeps(a, b) && Keeps(b, c)
    ensures Keeps(a, c)
  {
  }

  lemma HeightsKnown(net: Net, w: World, i: Bytes)
    requires Inv(net, w) && i in w.nodes
    ensures KnowsHeights(w.nodes[i])
  {
    var n := w.nodes[i];
    forall h: u64 | 0 < h <= n.chain.tip ensures h in n.decided && h in n.chain.ledger.blocks {
      assert DecidedAt(net, w.ballots, n.chain, n.decided, h);
    }
  }

  lemma OneMoreEvent(net: Net, run: seq<Event>, more: seq<Event>)
    requires more != []
    ensures Exec(net, run + more) == Next(net, Exec(net, run + more[..|more| - 1]), more[|more| - 1])
  {
    hide Next;
    assert (run + more)[..|run + more| - 1] == run + more[..|more| - 1];
  }

  lemma {:induction false} RunKeeps(net: Net, run: seq<Event>, more: seq<Event>, i: Bytes)
    requires i in net.honest
    ensures i in Exec(net, run).nodes && i in Exec(net, run + more).nodes
    ensures Keeps(Exec(net, run).nodes[i], Exec(net, run + more).nodes[i])
    decreases |more|
  {
    RunsKeepInv(net, run);
    hide NodeInv, NoEquivocation, PrecommitsBacked, Next, Exec, KnowsHeights;
    if more == [] {
      assert run + more == run;
    } else {
      var before, e := more[..|more| - 1], more[|more| - 1];
      RunKeeps(net, run, before, i);
      RunsKeepInv(net, run + before);
      OneMoreEvent(net, run, more);
      StepKeeps(net, Exec(net, run + before), e, i);
      HeightsKnown(net, Exec(net, run + before), i);
      hide Inv, Keeps;
      KeepsTransitive(Exec(net, run).nodes[i], Exec(net, run + before).nodes[i], Exec(net, run + more).nodes[i]);
    }
  }

  /**
   Closure: once more than f honest validators have committed a height in rounds up to r, no quorum
   of precommits for that height can exist in any later round, now or at any later time.
   */
  lemma Closure(net: Net, run: seq<Event>, more: seq<Event>, h: u64, r: u32, later: u32, x: Bytes)
    requires Tolerable(net) && h > 0 && later > r
    requires |DecidedBy(Exec(net, run), h, r)| > MaxFaulty(|net.cfg.validators|)
    ensures !Reachable(net, Exec(net, run + more).ballots, Precommit, h, later, x)
  {
    RunsKeepInv(net, run);
    RunsKeepInv(net, run + more);
    var now, then' := Exec(net, run), Exec(net, run + more);
    forall i | i in DecidedBy(now, h, r) ensures i in DecidedBy(then', h, r) {
      RunKeeps(net, run, more, i);
      assert DecidedAt(net, now.ballots, now.nodes[i].chain, now.nodes[i].decided, h);
    }
    SubsetSize(DecidedBy(now, h, r), DecidedBy(then', h, r));
    ClosedRounds(net, then', h, r, later, x);
  }

  // ---------------------------------------------------------------- whole chains

  /** The header hash an engine committed at height `h`. */
  function CommittedHash(net: Net, n: Node, h: u64): Bytes
    requires h in n.chain.ledger.blocks
  {
    BlockHash(net.cfg.crypto, n.chain.ledger.blocks[h])
  }

  predicate SameAt(net: Net, a: Node, b: Node, h: u64) {
    && h in a.chain.ledger.blocks && h in b.chain.ledger.blocks
    && CommittedHash(net, a, h) == CommittedHash(net, b, h)
  }

  /**
   Where both engines have a block, it has the same header hash: their chains of hashes are prefix-ordered.
   What this says about the transactions is in Tamper.dfy.
   */
  ghost predicate SameChain(net: Net, a: Node, b: Node) {
    forall h: u64 :: h <= a.chain.tip && h <= b.chain.tip ==> SameAt(net, a, b, h)
  }

  lemma SameRoundIn(net: Net, w: World, i: Bytes, j: Bytes, h: u64)
    requires Tolerable(net) && Inv(net, w) && i in w.nodes && j in w.nodes
    requires 0 < h <= w.nodes[i].chain.tip && h <= w.nodes[j].chain.tip
    ensures h in w.nodes[i].decided && h in w.nodes[j].decided
    ensures w.nodes[i].decided[h] == w.nodes[j].decided[h] ==> SameAt(net, w.nodes[i], w.nodes[j], h)
  {
    var a, b := w.nodes[i], w.nodes[j];
    assert DecidedAt(net, w.ballots, a.chain, a.decided, h) && DecidedAt(net, w.ballots, b.chain, b.decided, h);
    if a.decided[h] == b.decided[h] {
      ReachableAgree(net, w, h, a.decided[h], CommittedHash(net, a, h), CommittedHash(net, b, h));
    }
  }

  /** In every run, engines that decided a height in the same round committed the same header hash. */
  lemma SameRoundSameBlock(net: Net, run: seq<Event>, i: Bytes, j: Bytes, h: u64)
    requires Tolerable(net) && i in net.honest && j in net.honest && h > 0
    ensures var w := Exec(net, run);
      i in w.nodes && j in w.nodes &&
      (h <= w.nodes[i].chain.tip && h <= w.nodes[j].chain.tip ==>
        && h in w.nodes[i].decided && h in w.nodes[j].decided
        && (w.nodes[i].decided[h] == w.nodes[j].decided[h] ==> SameAt(net, w.nodes[i], w.nodes[j], h)))
  {
    RunsKeepInv(net, run);
    var w := Exec(net, run);
    if h <= w.nodes[i].chain.tip && h <= w.nodes[j].chain.tip {
      SameRoundIn(net, w, i, j, h);
    }
  }

  lemma NoLaterDecision(net: Net, w: World, i: Bytes, j: Bytes, h: u64)
    requires Tolerable(net) && MaxFaulty(|net.cfg.validators|) == 0 && Inv(net, w)
    requires i in w.nodes && j in w.nodes && 0 < h <= w.nodes[i].chain.tip && h <= w.nodes[j].chain.tip
    requires h in w.nodes[i].decided && h in w.nodes[j].decided
    ensures w.nodes[i].decided[h] >= w.nodes[j].decided[h]
  {
    var r, later := w.nodes[i].decided[h], w.nodes[j].decided[h];
    if r < later {
      assert i in DecidedBy(w, h, r);
      SubsetSize({i}, DecidedBy(w, h, r));
      assert DecidedAt(net, w.ballots, w.nodes[j].chain, w.nodes[j].decided, h);
      ClosedRounds(net, w, h, r, later, CommittedHash(net, w.nodes[j], h));
    }
  }

  lemma UnanimousAt(net: Net, w: World, i: Bytes, j: Bytes, h: u64)
    requires Tolerable(net) && |net.cfg.validators| <= 3 && Inv(net, w) && i in w.nodes && j in w.nodes
    requires h <= w.nodes[i].chain.tip && h <= w.nodes[j].chain.tip
    ensures SameAt(net, w.nodes[i], w.nodes[j], h)
  {
    UnanimityIsForThree(|net.cfg.validators|);
    if h > 0 {
      hide Inv, Tolerable;
      SameRoundIn(net, w, i, j, h);
      NoLaterDecision(net, w, i, j, h);
      NoLaterDecision(net, w, j, i, h);
    }
  }

  /**
   With one to three validators, all honest, the quorum is everybody, and in every run the chains of
   any two validators are prefix-ordered even when they commit in different rounds.
   */
  lemma UnanimousAgreement(net: Net, run: seq<Event>, i: Bytes, j: Bytes)
    requires Tolerable(net) && |net.cfg.validators| <= 3 && i in net.honest && j in net.honest
    ensures var w := Exec(net, run); i in w.nodes && j in w.nodes && SameChain(net, w.nodes[i], w.nodes[j])
  {
    RunsKeepInv(net, run);
    var w := Exec(net, run);
    assert i in w.nodes && j in w.nodes;
    hide Inv, SameAt, Exec, Tolerable;
    forall h: u64 | h <= w.nodes[i].chain.tip && h <= w.nodes[j].chain.tip ensures SameAt(net, w.nodes[i], w.nodes[j], h) {
      UnanimousAt(net, w, i, j, h);
    }
  }
}
