/**
 How an honest engine conducts itself, over every run: in which rounds it works, which messages it keeps,
 when it drops them (pbft.go, runHeight, the handlers and gc).
 */
module Conducts {
  import opened Base
  import opened Blocks
  import opened Votes
  import opened Ledgers
  import opened EngineModel
  import opened Protocol

  // ---------------------------------------------------------------- one step

  /** No filed proposal or vote of height `h`. */
  predicate NothingFiled(n: Node, h: u64) {
    forall r: u32 :: RoundKey(h, r) !in n.proposals && RoundKey(h, r) !in n.prevotes && RoundKey(h, r) !in n.precommits
  }

  predicate ProposalStays(n: Node, n': Node, key: Bytes) {
    key in n.proposals ==> key in n'.proposals && n'.proposals[key] == n.proposals[key]
  }

  predicate VotesStay(bucket: Bucket, bucket': Bucket, key: Bytes) {
    key in bucket ==> key in bucket' && forall v :: v in bucket[key] ==> v in bucket'[key] && bucket'[key][v] == bucket[key][v]
  }

  predicate FilesStay(n: Node, n': Node, key: Bytes) {
    ProposalStays(n, n', key) && VotesStay(n.prevotes, n'.prevotes, key) && VotesStay(n.precommits, n'.precommits, key)
  }

  /** The same height: the same round, or the beginning of the next one, and whatever was filed first stays. */
  ghost predicate StaysAtHeight(n: Node, n': Node) {
    && (if n'.round == n.round then n'.phase == Start ==> n.phase == Start else n'.round == n.round + 1 && n'.phase == Start)
    && forall key :: FilesStay(n, n', key)
  }

  /** The next height: the beginning of round 0, nothing of the height left behind, everything of the others kept. */
  ghost predicate LeavesHeight(n: Node, n': Node) {
    && n'.chain.tip == n.chain.tip + 1 && n'.round == 0 && n'.phase == Start
    && NothingFiled(n', n'.chain.tip)
    && forall h: u64, r: u32 :: h != n'.chain.tip ==> FilesStay(n, n', RoundKey(h, r))
  }

  ghost predicate Moves(n: Node, n': Node) {
    if n'.chain.tip == n.chain.tip then StaysAtHeight(n, n') else LeavesHeight(n, n')
  }

  lemma SameFilesStay(n: Node, n': Node)
    requires n'.proposals == n.proposals && n'.prevotes == n.prevotes && n'.precommits == n.precommits
    ensures forall key :: FilesStay(n, n', key)
  {
  }

  lemma ProposalMoves(n: Node, p: Proposal)
    ensures Moves(n, HandleProposal(n, p)) && HandleProposal(n, p).chain == n.chain
  {
    hide RoundKey;
  }

  lemma VoteMoves(cfg: Config, n: Node, want: VoteType, v: Vote)
    ensures Moves(n, HandleVote(cfg, n, want, v)) && HandleVote(cfg, n, want, v).chain == n.chain
  {
    hide RoundKey, Admissible;
  }

  lemma GcMoves(n: Node, n': Node)
    requires n.chain.tip < MAX_U64 && n'.chain.tip == n.chain.tip + 1
    requires n'.proposals == n.proposals && n'.prevotes == n.prevotes && n'.precommits == n.precommits
    requires n'.round == 0 && n'.phase == Start
    ensures LeavesHeight(n, Gc(n', n'.chain.tip))
  {
    var h := n'.chain.tip;
    forall k: u64, r: u32 ensures HasPrefix(RoundKey(k, r), HeightPrefix(h)) <==> k == h {
      PrefixSelectsHeight(h, k, r);
    }
    hide RoundKey, HeightPrefix, HasPrefix;
  }

  lemma CommitMoves(cfg: Config, n: Node, sigs: seq<ValidatorSig>)
    requires PhaseInv(n) && IsCertificate(cfg, n, sigs) && n.round < MAX_U32
    ensures Moves(n, DoCommit(cfg, n, sigs))
  {
    hide Commit, ListsVotes, CountVotes, Gc, LeavesHeight, RoundKey;
    var block := n.phase.block.(commitSigs := sigs);
    CommitEffect(cfg.Rules(), n.chain, block);
    var (chain, verdict) := Commit(cfg.Rules(), n.chain, block);
    if verdict == Accepted {
      var n' := n.(chain := chain, round := 0, phase := Start, decided := n.decided[HeightOf(n) := n.round]);
      GcMoves(n, n');
      GcKeepsChain(n', HeightOf(n));
    } else {
      SameFilesStay(n, NextRound(n.(chain := chain)));
    }
  }

  lemma GcKeepsChain(n: Node, height: u64)
    ensures Gc(n, height).chain == n.chain
  {
  }

  lemma SilentMoves(n: Node, n': Node)
    requires n'.chain.tip == n.chain.tip
    requires if n'.round == n.round then n'.phase == Start ==> n.phase == Start else n'.round == n.round + 1 && n'.phase == Start
    requires n'.proposals == n.proposals && n'.prevotes == n.prevotes && n'.precommits == n.precommits
    ensures Moves(n, n')
  {
    SameFilesStay(n, n');
  }

  lemma StepMoves(net: Net, w: World, e: Event, i: Bytes)
    requires Inv(net, w) && i in w.nodes
    ensures i in Next(net, w, e).nodes && Moves(w.nodes[i], Next(net, w, e).nodes[i])
  {
    hide Inv, Moves, CanPrevote, MustRefuse, CanPrecommit, IsCertificate, DoCommit, CommitBreaks, AuthenticVote, AuthenticProposal,
      HandleProposal, HandleVote, Published, BallotOf, CanCommit, RoundKey;
    NodeFacts(net, w, i);
    var n := w.nodes[i];
    SilentMoves(n, n);
    if e.node == i {
      match e.action
      case ReceiveProposal(p) => ProposalMoves(n, p);
      case ReceiveVote(want, v) => VoteMoves(net.cfg, n, want, v);
      case EnterRound(txs, timestamp) => SilentMoves(n, n.(phase := AwaitProposal));
      case ReadProposal =>
        if CanPrevote(net.cfg, n) {
          SilentMoves(n, DoPrevote(net.cfg, n));
        } else if n.round < MAX_U32 {
          SilentMoves(n, NextRound(n));
        }
      case SeePrevotes =>
        if CanPrecommit(net.cfg, n) {
          SilentMoves(n, DoPrecommit(net.cfg, n));
        }
      case SeePrecommits(sigs) =>
        if IsCertificate(net.cfg, n, sigs) && n.round < MAX_U32 {
          CommitMoves(net.cfg, n, sigs);
        }
      case StoreFails(sigs, partial) =>
        if n.round < MAX_U32 {
          SilentMoves(n, FailCommit(n, partial));
        }
      case GiveUp =>
        if n.round < MAX_U32 {
          SilentMoves(n, NextRound(n));
        }
    }
  }

  // ---------------------------------------------------------------- every run

  /**
   After any run, whatever happens next: an engine's tip rises by one or not at all. If it rises, the engine is
   at the beginning of round 0 and holds no proposal and no vote of the committed height, but all it held of
   other heights. If not, it is in the same round or at the beginning of the next one, and of every proposal
   and vote filed the first one stays.
   */
  lemma EveryStepMoves(net: Net, run: seq<Event>, e: Event, i: Bytes)
    requires i in net.honest
    ensures i in Exec(net, run).nodes && i in Next(net, Exec(net, run), e).nodes
    ensures Moves(Exec(net, run).nodes[i], Next(net, Exec(net, run), e).nodes[i])
  {
    hide Next, Moves, NodeInv, Exec, NoEquivocation, PrecommitsBacked;
    RunsKeepInv(net, run);
    StepMoves(net, Exec(net, run), e, i);
  }

  /** After `k` events of the run the engine stood at the beginning of round `r` above this tip. */
  ghost predicate StoodAt(net: Net, run: seq<Event>, k: nat, i: Bytes, tip: u64, r: u32) {
    k <= |run| && i in Exec(net, run[..k]).nodes &&
    var n := Exec(net, run[..k]).nodes[i]; n.chain.tip == tip && n.round == r && n.phase == Start
  }

  lemma StoodAtMore(net: Net, run: seq<Event>, e: Event, k: nat, i: Bytes, tip: u64, r: u32)
    requires StoodAt(net, run, k, i, tip, r)
    ensures StoodAt(net, run + [e], k, i, tip, r)
  {
    assert (run + [e])[..k] == run[..k];
  }

  lemma StandsNow(net: Net, run: seq<Event>, i: Bytes)
    requires i in Exec(net, run).nodes && Exec(net, run).nodes[i].phase == Start
    ensures StoodAt(net, run, |run|, i, Exec(net, run).nodes[i].chain.tip, Exec(net, run).nodes[i].round)
  {
    assert run[..|run|] == run;
  }

  /** No round is skipped: at every height an engine began every round up to the one it is in. */
  lemma {:induction false} NoRoundSkipped(net: Net, run: seq<Event>, i: Bytes, r: u32)
    requires i in net.honest
    ensures i in Exec(net, run).nodes
    ensures r <= Exec(net, run).nodes[i].round ==> exists k :: StoodAt(net, run, k, i, Exec(net, run).nodes[i].chain.tip, r)
    decreases |run|
  {
    hide Next, FreshNode, StoodAt, NothingFiled, FilesStay;
    if run == [] {
      FreshStart(net, i);
      StandsNow(net, run, i);
    } else {
      var before, e := run[..|run| - 1], run[|run| - 1];
      assert run == before + [e];
      NoRoundSkipped(net, before, i, r);
      EveryStepMoves(net, before, e, i);
      var n, n' := Exec(net, before).nodes[i], Exec(net, run).nodes[i];
      if r <= n'.round {
        if n'.chain.tip == n.chain.tip && r <= n.round {
          var k :| StoodAt(net, before, k, i, n.chain.tip, r);
          StoodAtMore(net, before, e, k, i, n.chain.tip, r);
        } else {
          StandsNow(net, run, i);
        }
      }
    }
  }

  lemma FreshStart(net: Net, i: Bytes)
    requires i in net.honest
    ensures i in Exec(net, []).nodes && Exec(net, []).nodes[i].round == 0 && Exec(net, []).nodes[i].phase == Start
  {
  }

  // ---------------------------------------------------------------- messages

  /** A proposal that reaches an engine is filed unless one is filed for its height and round already. */
  lemma FirstProposalIsFiled(net: Net, run: seq<Event>, i: Bytes, p: Proposal)
    requires i in net.honest && i in Exec(net, run).nodes && AuthenticProposal(net, Exec(net, run), p)
    ensures var key := RoundKey(p.block.height, p.round);
      var before, after := Exec(net, run).nodes[i].proposals, Next(net, Exec(net, run), Event(i, ReceiveProposal(p))).nodes[i].proposals;
      after == if key in before then before else before[key := p]
  {
    hide RoundKey, Exec, AuthenticProposal;
  }

  /** A position in an engine's work that lies after the beginning of round `r` above `tip`. */
  predicate Beyond(n: Node, tip: u64, r: u32) {
    n.chain.tip > tip || (n.chain.tip == tip && (n.round > r || (n.round == r && n.phase != Start)))
  }

  /** There is no way back: a round once begun is never begun again. */
  lemma {:induction false} NoRoundTwice(net: Net, run: seq<Event>, more: seq<Event>, i: Bytes, tip: u64, r: u32)
    requires i in net.honest && i in Exec(net, run).nodes && Beyond(Exec(net, run).nodes[i], tip, r)
    ensures i in Exec(net, run + more).nodes && Beyond(Exec(net, run + more).nodes[i], tip, r)
    decreases |more|
  {
    hide Next, Exec, FilesStay, NothingFiled;
    if more == [] {
      assert run + more == run;
    } else {
      var init, e := more[..|more| - 1], more[|more| - 1];
      NoRoundTwice(net, run, init, i, tip, r);
      EveryStepMoves(net, run + init, e, i);
      OneMoreEvent(net, run + init, e);
      assert run + more == run + init + [e];
    }
  }

  lemma OneMoreEvent(net: Net, run: seq<Event>, e: Event)
    ensures Exec(net, run + [e]) == Next(net, Exec(net, run), e)
  {
    hide Next;
    assert (run + [e])[..|run|] == run;
  }
}
