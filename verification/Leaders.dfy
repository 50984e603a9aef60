/**
 What leaders propose and followers vote for, over every run (pbft.go, propose, validateProposal and the votes
 in runRound).
 */
module Leaders {
  import opened Base
  import opened Blocks
  import opened Votes
  import opened Ledgers
  import opened EngineModel
  import opened Protocol

  // ---------------------------------------------------------------- what is checked before a vote

  /** The leader of the round has signed the block for this height and round, and all of its transactions are signed. */
  ghost predicate Checked(cfg: Config, height: u64, round: u32, b: Block) {
    && b.height == height && b.proposer == ProposerFor(cfg.validators, height, round)
    && (forall t :: t in b.transactions ==> TxVerify(cfg.crypto, t))
    && exists sig :: SignedBy(cfg.crypto, b.proposer, ProposalBytes(Proposal(b, round, sig)), sig)
  }

  /** If the block's leader is honest, it has published a proposal of this round under the block's header. */
  ghost predicate FromHonest(net: Net, proposed: set<Proposal>, round: u32, b: Block) {
    b.proposer in net.honest ==>
      exists q :: q in proposed && q.block.proposer == b.proposer && q.round == round && HeaderBytes(q.block) == HeaderBytes(b)
  }

  ghost predicate Led(net: Net, proposed: set<Proposal>, height: u64, round: u32, b: Block) {
    Checked(net.cfg, height, round, b) && FromHonest(net, proposed, round, b)
  }

  ghost predicate FiledRight(net: Net, proposed: set<Proposal>, proposals: map<Bytes, Proposal>) {
    forall key :: key in proposals ==>
      && key == RoundKey(proposals[key].block.height, proposals[key].round)
      && Attributed(net, proposed, proposals[key])
  }

  /** AuthenticProposal, with the proposals published so far. */
  ghost predicate Attributed(net: Net, proposed: set<Proposal>, p: Proposal) {
    SignedBy(net.cfg.crypto, p.block.proposer, ProposalBytes(p), p.proposerSig) && p.block.proposer in net.honest ==>
      exists q :: q in proposed && q.block.proposer == p.block.proposer && ProposalBytes(q) == ProposalBytes(p)
  }

  ghost predicate VotingOnLed(net: Net, proposed: set<Proposal>, n: Node) {
    n.phase.AwaitPrevotes? || n.phase.AwaitPrecommits? ==> Led(net, proposed, HeightOf(n), n.round, n.phase.block)
  }

  ghost predicate ChainLed(net: Net, proposed: set<Proposal>, chain: ChainState, decided: map<u64, u32>) {
    forall h: u64 :: 0 < h <= chain.tip ==>
      h in chain.ledger.blocks && h in decided && Led(net, proposed, h, decided[h], chain.ledger.blocks[h])
  }

  ghost predicate NodeLed(net: Net, proposed: set<Proposal>, n: Node) {
    FiledRight(net, proposed, n.proposals) && VotingOnLed(net, proposed, n) && ChainLed(net, proposed, n.chain, n.decided)
  }

  /** The vote is for the hash of a block that was led in its height and round. */
  ghost predicate BallotLed(net: Net, proposed: set<Proposal>, b: Ballot) {
    exists x :: Led(net, proposed, b.height, b.round, x) && BlockHash(net.cfg.crypto, x) == b.hash
  }

  ghost predicate WorldLed(net: Net, w: World) {
    && (forall i :: i in w.nodes ==> NodeLed(net, w.proposed, w.nodes[i]))
    && forall b :: b in w.ballots ==> BallotLed(net, w.proposed, b)
  }

  // ---------------------------------------------------------------- more proposals do no harm

  lemma LedGrows(net: Net, proposed: set<Proposal>, more: set<Proposal>, height: u64, round: u32, b: Block)
    requires Led(net, proposed, height, round, b) && proposed <= more
    ensures Led(net, more, height, round, b)
  {
    hide Checked, HeaderBytes;
  }

  lemma NodeLedGrows(net: Net, proposed: set<Proposal>, more: set<Proposal>, n: Node)
    requires NodeLed(net, proposed, n) && proposed <= more
    ensures NodeLed(net, more, n)
  {
    hide Led, SignedBy, ProposalBytes, RoundKey;
    if n.phase.AwaitPrevotes? || n.phase.AwaitPrecommits? {
      LedGrows(net, proposed, more, HeightOf(n), n.round, n.phase.block);
    }
    forall h: u64 | 0 < h <= n.chain.tip ensures Led(net, more, h, n.decided[h], n.chain.ledger.blocks[h]) {
      LedGrows(net, proposed, more, h, n.decided[h], n.chain.ledger.blocks[h]);
    }
  }

  lemma WorldLedGrows(net: Net, w: World, more: set<Proposal>)
    requires WorldLed(net, w) && w.proposed <= more
    ensures WorldLed(net, w.(proposed := more))
  {
    hide Led, NodeLed;
    forall i | i in w.nodes ensures NodeLed(net, more, w.nodes[i]) {
      NodeLedGrows(net, w.proposed, more, w.nodes[i]);
    }
    forall b | b in w.ballots ensures BallotLed(net, more, b) {
      var x :| Led(net, w.proposed, b.height, b.round, x) && BlockHash(net.cfg.crypto, x) == b.hash;
      LedGrows(net, w.proposed, more, b.height, b.round, x);
    }
  }

  // ---------------------------------------------------------------- each step

  lemma SameProposalBytes(p: Proposal, q: Proposal)
    requires ProposalBytes(p) == ProposalBytes(q)
    ensures HeaderBytes(p.block) == HeaderBytes(q.block) && p.round == q.round
  {
    hide HeaderBytes, BigEndian;
    var a, b := BigEndian(p.round, 4), BigEndian(q.round, 4);
    assert |HeaderBytes(p.block)| == |ProposalBytes(p)| - 4 == |HeaderBytes(q.block)|;
    PrefixCancels(HeaderBytes(p.block), HeaderBytes(q.block), a, b);
    Be32RoundTrip(p.round);
    Be32RoundTrip(q.round);
  }

  /** A valid proposal under the round's key. */
  lemma PrevotedIsLed(net: Net, proposed: set<Proposal>, n: Node)
    requires FiledRight(net, proposed, n.proposals) && CanPrevote(net.cfg, n)
    ensures Led(net, proposed, HeightOf(n), n.round, n.proposals[KeyOf(n)].block)
  {
    hide SignedBy, ProposalBytes, HeaderBytes, RoundKey, TxVerify;
    var p := n.proposals[KeyOf(n)];
    RoundKeyInjective(p.block.height, p.round, HeightOf(n), n.round);
    assert p == Proposal(p.block, n.round, p.proposerSig);
    if p.block.proposer in net.honest {
      var q :| q in proposed && q.block.proposer == p.block.proposer && ProposalBytes(q) == ProposalBytes(p);
      SameProposalBytes(q, p);
    }
  }

  /** A block is led whatever its certificate. */
  lemma LedIgnoresSigs(net: Net, proposed: set<Proposal>, height: u64, round: u32, b: Block, sigs: seq<ValidatorSig>)
    requires Led(net, proposed, height, round, b)
    ensures Led(net, proposed, height, round, b.(commitSigs := sigs))
  {
    hide SignedBy, TxVerify;
    var b' := b.(commitSigs := sigs);
    assert HeaderBytes(b') == HeaderBytes(b);
    var sig :| SignedBy(net.cfg.crypto, b.proposer, ProposalBytes(Proposal(b, round, sig)), sig);
    assert ProposalBytes(Proposal(b', round, sig)) == ProposalBytes(Proposal(b, round, sig));
  }

  lemma FiledStaysRight(net: Net, proposed: set<Proposal>, n: Node, p: Proposal)
    requires NodeLed(net, proposed, n) && Attributed(net, proposed, p)
    ensures NodeLed(net, proposed, HandleProposal(n, p))
  {
    hide Led, Attributed, RoundKey;
  }

  lemma DroppedStaysRight(net: Net, proposed: set<Proposal>, proposals: map<Bytes, Proposal>, p: Bytes)
    requires FiledRight(net, proposed, proposals)
    ensures FiledRight(net, proposed, DropPrefixed(proposals, p))
  {
    hide Attributed, RoundKey, HasPrefix;
  }

  lemma ChainLedExtends(net: Net, proposed: set<Proposal>, n: Node, chain': ChainState)
    requires ChainLed(net, proposed, n.chain, n.decided) && n.chain.tip < MAX_U64
    requires chain'.tip == HeightOf(n) && HeightOf(n) in chain'.ledger.blocks
    requires chain'.ledger.blocks == n.chain.ledger.blocks[HeightOf(n) := chain'.ledger.blocks[HeightOf(n)]]
    requires Led(net, proposed, HeightOf(n), n.round, chain'.ledger.blocks[HeightOf(n)])
    ensures ChainLed(net, proposed, chain', n.decided[HeightOf(n) := n.round])
  {
    hide Led;
  }

  lemma CommitKeepsLed(net: Net, proposed: set<Proposal>, n: Node, sigs: seq<ValidatorSig>)
    requires NodeLed(net, proposed, n) && PhaseInv(n) && IsCertificate(net.cfg, n, sigs) && n.round < MAX_U32
    ensures NodeLed(net, proposed, DoCommit(net.cfg, n, sigs))
  {
    hide Commit, ListsVotes, CountVotes, Led, FiledRight, ChainLed, DropPrefixed;
    var block := n.phase.block.(commitSigs := sigs);
    CommitEffect(net.cfg.Rules(), n.chain, block);
    var (chain', verdict) := Commit(net.cfg.Rules(), n.chain, block);
    if verdict == Accepted {
      LedIgnoresSigs(net, proposed, HeightOf(n), n.round, n.phase.block, sigs);
      ChainLedExtends(net, proposed, n, chain');
      DroppedStaysRight(net, proposed, n.proposals, HeightPrefix(HeightOf(n)));
    } else {
      SameBlocksLed(net, proposed, n.chain, chain', n.decided);
    }
  }

  lemma SameBlocksLed(net: Net, proposed: set<Proposal>, chain: ChainState, chain': ChainState, decided: map<u64, u32>)
    requires ChainLed(net, proposed, chain, decided) && chain'.tip == chain.tip && chain'.ledger.blocks == chain.ledger.blocks
    ensures ChainLed(net, proposed, chain', decided)
  {
    hide Led;
  }

  lemma FailKeepsLed(net: Net, proposed: set<Proposal>, n: Node, sigs: seq<ValidatorSig>, partial: Ledger)
    requires NodeLed(net, proposed, n) && CommitBreaks(net.cfg, n, sigs, partial) && n.round < MAX_U32
    ensures NodeLed(net, proposed, FailCommit(n, partial))
  {
    hide CommitBreaks, Led, FiledRight, ChainLed;
    BreakKeepsBlocks(net.cfg, n, sigs, partial);
    SameBlocksLed(net, proposed, n.chain, ChainState(partial, n.chain.tip), n.decided);
  }

  /** A step that keeps files and chain and votes on nothing new. */
  lemma QuietKeepsLed(net: Net, proposed: set<Proposal>, n: Node, n': Node)
    requires NodeLed(net, proposed, n)
    requires n'.proposals == n.proposals && n'.chain == n.chain && n'.decided == n.decided
    requires VotingOnLed(net, proposed, n')
    ensures NodeLed(net, proposed, n')
  {
    hide Led, FiledRight;
  }

  lemma SetKeepsLed(net: Net, w: World, i: Bytes, n': Node, ballots: set<Ballot>)
    requires WorldLed(net, w) && NodeLed(net, w.proposed, n')
    requires forall b :: b in ballots ==> b in w.ballots || BallotLed(net, w.proposed, b)
    ensures WorldLed(net, SetNode(w, i, n').(ballots := ballots))
  {
    hide NodeLed, BallotLed;
  }

  lemma VotesKeepLed(net: Net, w: World, i: Bytes)
    requires WorldLed(net, w) && i in w.nodes
    ensures WorldLed(net, Next(net, w, Event(i, ReadProposal))) && WorldLed(net, Next(net, w, Event(i, SeePrevotes)))
  {
    hide CanPrecommit, Led, FiledRight, ChainLed, BlockHash, ValidProposal, KeyOf;
    var n, cfg := w.nodes[i], net.cfg;
    if CanPrevote(cfg, n) {
      PrevotedIsLed(net, w.proposed, n);
      var n' := DoPrevote(cfg, n);
      var b := BallotOf(cfg, n, Prevote, n'.phase.block);
      assert BallotLed(net, w.proposed, b);
      SetKeepsLed(net, w, i, n', w.ballots + {b});
    } else {
      SetKeepsLed(net, w, i, NextRound(n), w.ballots);
    }
    if CanPrecommit(cfg, n) {
      PrecommitsLed(net, w, i);
    }
  }

  lemma PrecommitsLed(net: Net, w: World, i: Bytes)
    requires WorldLed(net, w) && i in w.nodes && CanPrecommit(net.cfg, w.nodes[i])
    ensures WorldLed(net, Next(net, w, Event(i, SeePrevotes)))
  {
    hide CountVotes, Led, FiledRight, ChainLed, BlockHash;
    var n := w.nodes[i];
    var b := BallotOf(net.cfg, n, Precommit, n.phase.block);
    assert NodeLed(net, w.proposed, n);
    assert BallotLed(net, w.proposed, b);
    SetKeepsLed(net, w, i, DoPrecommit(net.cfg, n), w.ballots + {b});
  }

  lemma EnteringKeepsLed(net: Net, w: World, i: Bytes, txs: seq<Transaction>, timestamp: i64)
    requires WorldLed(net, w) && i in w.nodes
    ensures WorldLed(net, Next(net, w, Event(i, EnterRound(txs, timestamp))))
  {
    hide Led, FiledRight, ChainLed, BallotLed, Published;
    var n := w.nodes[i];
    var w1 := SetNode(w, i, n.(phase := AwaitProposal));
    QuietKeepsLed(net, w.proposed, n, n.(phase := AwaitProposal));
    SetKeepsLed(net, w, i, n.(phase := AwaitProposal), w.ballots);
    WorldLedGrows(net, w1, w.proposed + Published(net.cfg, n, txs, timestamp));
  }

  lemma HandlingKeepsLed(net: Net, w: World, e: Event)
    requires WorldLed(net, w) && e.node in w.nodes && (e.action.ReceiveProposal? || e.action.ReceiveVote?)
    ensures WorldLed(net, Next(net, w, e))
  {
    hide Led, FiledRight, ChainLed, BallotLed, HandleProposal, Admissible, File, SignedBy;
    var n := w.nodes[e.node];
    if e.action.ReceiveProposal? {
      if AuthenticProposal(net, w, e.action.p) {
        FiledStaysRight(net, w.proposed, n, e.action.p);
        SetKeepsLed(net, w, e.node, HandleProposal(n, e.action.p), w.ballots);
      }
    } else {
      SetKeepsLed(net, w, e.node, HandleVote(net.cfg, n, e.action.want, e.action.v), w.ballots);
    }
  }

  lemma StepKeepsLed(net: Net, w: World, e: Event)
    requires Inv(net, w) && WorldLed(net, w)
    ensures WorldLed(net, Next(net, w, e))
  {
    hide Inv, WorldLed, NodeLed, CanPrevote, MustRefuse, CanPrecommit, IsCertificate, DoCommit, CommitBreaks, FailCommit,
      AuthenticVote, AuthenticProposal, HandleProposal, HandleVote, Published, BallotOf, NextRound, BallotLed;
    if e.node in w.nodes {
      var n := w.nodes[e.node];
      NodeFacts(net, w, e.node);
      NodeIsLed(net, w, e.node);
      match e.action
      case ReceiveProposal(_) => HandlingKeepsLed(net, w, e);
      case ReceiveVote(_, _) => HandlingKeepsLed(net, w, e);
      case EnterRound(txs, timestamp) => EnteringKeepsLed(net, w, e.node, txs, timestamp);
      case ReadProposal => VotesKeepLed(net, w, e.node);
      case SeePrevotes => VotesKeepLed(net, w, e.node);
      case SeePrecommits(sigs) =>
        if IsCertificate(net.cfg, n, sigs) && n.round < MAX_U32 {
          CommitKeepsLed(net, w.proposed, n, sigs);
          SetKeepsLed(net, w, e.node, DoCommit(net.cfg, n, sigs), w.ballots);
        }
      case StoreFails(sigs, partial) =>
        if CommitBreaks(net.cfg, n, sigs, partial) && n.round < MAX_U32 {
          FailKeepsLed(net, w.proposed, n, sigs, partial);
          SetKeepsLed(net, w, e.node, FailCommit(n, partial), w.ballots);
        }
      case GiveUp =>
        NextRoundIsQuiet(net, w.proposed, n);
        SetKeepsLed(net, w, e.node, NextRound(n), w.ballots);
    }
  }

  lemma NodeIsLed(net: Net, w: World, i: Bytes)
    requires WorldLed(net, w) && i in w.nodes
    ensures NodeLed(net, w.proposed, w.nodes[i])
  {
  }

  lemma NextRoundIsQuiet(net: Net, proposed: set<Proposal>, n: Node)
    requires NodeLed(net, proposed, n)
    ensures NodeLed(net, proposed, NextRound(n))
  {
    QuietKeepsLed(net, proposed, n, NextRound(n));
  }

  lemma {:induction false} RunsAreLed(net: Net, run: seq<Event>)
    ensures WorldLed(net, Exec(net, run))
    decreases |run|
  {
    if run != [] {
      var before := run[..|run| - 1];
      RunsAreLed(net, before);
      RunsKeepInv(net, before);
      hide Inv, WorldLed, Next;
      StepKeepsLed(net, Exec(net, before), run[|run| - 1]);
    }
  }
}
