/**
 What an honest leader proposes, over every run (pbft.go, propose).
 */
module Proposals {
  import opened Base
  import opened Blocks
  import opened Bodies
  import opened Votes
  import opened Ledgers
  import opened EngineModel
  import opened Protocol
  import opened Conducts
  import opened Leaders

  /**
   Event `k` of the run is the entry of the proposal's leader into the proposal's round, at its beginning and
   with these transactions. The block is on the leader's own tip, carries the root of its own transactions and
   no certificate, and the proposal is signed by the leader.
   */
  ghost predicate PublishedBy(net: Net, run: seq<Event>, p: Proposal, k: nat) {
    k < |run| && p.block.proposer in Exec(net, run[..k]).nodes &&
    var c, i, n := net.cfg.crypto, p.block.proposer, Exec(net, run[..k]).nodes[p.block.proposer];
    && run[k] == Event(i, EnterRound(p.block.transactions, p.block.timestamp))
    && n.phase == Start && p.block.height == n.chain.tip + 1 && p.round == n.round
    && i == ProposerFor(net.cfg.validators, p.block.height, p.round)
    && n.chain.tip in n.chain.ledger.blocks && p.block.prevHash == BlockHash(c, n.chain.ledger.blocks[n.chain.tip])
    && RootMatches(c, p.block) && p.block.commitSigs == []
    && p.proposerSig == c.sign(i, ProposalBytes(p))
  }

  lemma PublishedShift(net: Net, run: seq<Event>, e: Event, p: Proposal, k: nat)
    requires k < |run|
    ensures PublishedBy(net, run, p, k) <==> PublishedBy(net, run + [e], p, k)
  {
    assert (run + [e])[..k] == run[..k];
  }

  /** The proposal that an engine builds has exactly these properties. */
  lemma BuiltExactly(cfg: Config, n: Node, txs: seq<Transaction>, timestamp: i64, p: Proposal)
    requires n.chain.tip < MAX_U64 && n.chain.tip in n.chain.ledger.blocks
    ensures p == BuildProposal(cfg, n, txs, timestamp) <==>
      && p.block.height == n.chain.tip + 1 && p.block.proposer == n.self && p.round == n.round
      && p.block.transactions == txs && p.block.timestamp == timestamp
      && p.block.prevHash == BlockHash(cfg.crypto, n.chain.ledger.blocks[n.chain.tip])
      && RootMatches(cfg.crypto, p.block) && p.block.commitSigs == []
      && p.proposerSig == cfg.crypto.sign(n.self, ProposalBytes(p))
  {
    hide BlockHash, HeaderBytes;
    var built := BuildProposal(cfg, n, txs, timestamp);
    assert ProposalBytes(built) == ProposalBytes(built.(proposerSig := []));
    if p.block == built.block && p.round == built.round {
      assert ProposalBytes(p) == ProposalBytes(built);
    }
  }

  lemma PublishedNow(net: Net, run: seq<Event>, e: Event, p: Proposal)
    requires Inv(net, Exec(net, run))
    ensures PublishedBy(net, run + [e], p, |run|) <==>
      && e.node in Exec(net, run).nodes && e.action.EnterRound?
      && var n := Exec(net, run).nodes[e.node];
         n.phase.Start? && n.chain.tip < MAX_U64 && p in Published(net.cfg, n, e.action.txs, e.action.timestamp)
  {
    hide Exec, Next, NodeInv, NoEquivocation, PrecommitsBacked, RootMatches, ProposerFor, BuildProposal, ProposalBytes, BlockHash;
    assert (run + [e])[..|run|] == run;
    if e.node in Exec(net, run).nodes && e.action.EnterRound? {
      var n := Exec(net, run).nodes[e.node];
      if n.chain.tip < MAX_U64 && n.chain.tip in n.chain.ledger.blocks {
        BuiltExactly(net.cfg, n, e.action.txs, e.action.timestamp, p);
      }
    }
  }

  lemma ProposedGrows(net: Net, w: World, e: Event, p: Proposal)
    ensures p in Next(net, w, e).proposed <==>
      || p in w.proposed
      || (&& e.node in w.nodes && e.action.EnterRound? && w.nodes[e.node].phase.Start? && w.nodes[e.node].chain.tip < MAX_U64
          && p in Published(net.cfg, w.nodes[e.node], e.action.txs, e.action.timestamp))
  {
    hide Published, CanPrevote, MustRefuse, CanPrecommit, IsCertificate, DoCommit, CommitBreaks, FailCommit, AuthenticVote,
      AuthenticProposal, HandleProposal, HandleVote, BallotOf, NextRound;
  }

  lemma InRange(net: Net, run: seq<Event>, p: Proposal, k: nat)
    requires PublishedBy(net, run, p, k)
    ensures k < |run|
  {
  }

  ghost predicate IsPublished(net: Net, run: seq<Event>, p: Proposal) {
    exists k: nat :: PublishedBy(net, run, p, k)
  }

  lemma PublishedMore(net: Net, run: seq<Event>, e: Event, p: Proposal)
    ensures IsPublished(net, run + [e], p) <==> IsPublished(net, run, p) || PublishedBy(net, run + [e], p, |run|)
  {
    hide PublishedBy;
    if k: nat :| PublishedBy(net, run, p, k) {
      InRange(net, run, p, k);
      PublishedShift(net, run, e, p, k);
    }
    if k: nat :| PublishedBy(net, run + [e], p, k) {
      InRange(net, run + [e], p, k);
      if k < |run| {
        PublishedShift(net, run, e, p, k);
      }
    }
  }

  /**
   In every run, the honest leaders' proposals are exactly those that some entry of a leader into its round
   publishes: on the leader's own tip, with the root of its own transactions, and those the ones it was given.
   */
  lemma {:induction false} ProposedExactly(net: Net, run: seq<Event>, p: Proposal)
    ensures p in Exec(net, run).proposed <==> exists k: nat :: PublishedBy(net, run, p, k)
    decreases |run|
  {
    hide Exec, Inv, Next, PublishedBy, Published;
    if run == [] {
      NoneAtFirst(net, p);
    } else {
      var before, e := run[..|run| - 1], run[|run| - 1];
      assert run == before + [e];
      ProposedExactly(net, before, p);
      RunsKeepInv(net, before);
      OneMoreEvent(net, before, e);
      ProposedGrows(net, Exec(net, before), e, p);
      PublishedNow(net, before, e, p);
      PublishedMore(net, before, e, p);
      assert IsPublished(net, before, p) <==> p in Exec(net, before).proposed;
    }
  }

  lemma NoneAtFirst(net: Net, p: Proposal)
    ensures p !in Exec(net, []).proposed && forall k: nat :: !PublishedBy(net, [], p, k)
  {
  }

  /** In each of its rounds an honest leader proposes at most once. */
  lemma OneProposalARound(net: Net, run: seq<Event>, p: Proposal, q: Proposal)
    requires p in Exec(net, run).proposed && q in Exec(net, run).proposed
    requires p.block.proposer == q.block.proposer && p.block.height == q.block.height && p.round == q.round
    ensures p == q
  {
    hide Exec, PublishedBy;
    ProposedExactly(net, run, p);
    ProposedExactly(net, run, q);
    var k: nat :| PublishedBy(net, run, p, k);
    var j: nat :| PublishedBy(net, run, q, j);
    NotLater(net, run, p, q, k, j);
    NotLater(net, run, q, p, j, k);
    SameEventSameProposal(net, run, p, q, k);
  }

  lemma SameEventSameProposal(net: Net, run: seq<Event>, p: Proposal, q: Proposal, k: nat)
    requires PublishedBy(net, run, p, k) && PublishedBy(net, run, q, k)
    ensures p == q
  {
    hide Exec, Next, ProposerFor, HeaderBytes;
    assert p.block == q.block && p.round == q.round;
    assert ProposalBytes(p) == ProposalBytes(q);
  }

  /** Having entered the round at event `k`, the leader is beyond its beginning at any later event. */
  lemma NotLater(net: Net, run: seq<Event>, p: Proposal, q: Proposal, k: nat, j: nat)
    requires PublishedBy(net, run, p, k) && PublishedBy(net, run, q, j)
    requires p.block.proposer == q.block.proposer && p.block.height == q.block.height && p.round == q.round
    ensures j <= k
  {
    hide Exec, Next, RootMatches, ProposerFor, ProposalBytes, BlockHash, NodeInv;
    if k < j {
      var i := p.block.proposer;
      EnteredIsBeyond(net, run, p, k);
      assert run[..j] == run[..k + 1] + run[k + 1..j];
      NoRoundTwice(net, run[..k + 1], run[k + 1..j], i, p.block.height - 1, p.round);
    }
  }

  lemma EnteredIsBeyond(net: Net, run: seq<Event>, p: Proposal, k: nat)
    requires PublishedBy(net, run, p, k)
    ensures p.block.height > 0 && p.block.proposer in net.honest && p.block.proposer in Exec(net, run[..k + 1]).nodes
    ensures Beyond(Exec(net, run[..k + 1]).nodes[p.block.proposer], p.block.height - 1, p.round)
  {
    hide Exec, RootMatches, ProposerFor, ProposalBytes, BlockHash, NodeInv, NoEquivocation, PrecommitsBacked, Published;
    RunsKeepInv(net, run[..k]);
    assert run[..k + 1] == run[..k] + [run[k]];
    OneMoreEvent(net, run[..k], run[k]);
  }

  // ---------------------------------------------------------------- what is read

  /** Where a proposal is acceptable to an engine in round `round` of height `height`. */
  predicate Acceptable(cfg: Config, height: u64, round: u32, p: Proposal) {
    && p.block.height == height && p.block.proposer == ProposerFor(cfg.validators, height, round)
    && SignedBy(cfg.crypto, p.block.proposer, ProposalBytes(p), p.proposerSig)
    && forall t :: t in p.block.transactions ==> TxVerify(cfg.crypto, t)
  }

  lemma AcceptableIsValid(cfg: Config, n: Node)
    requires n.phase.AwaitProposal? && KeyOf(n) in n.proposals && n.chain.tip < MAX_U64
    ensures CanPrevote(cfg, n) <==> Acceptable(cfg, n.chain.tip + 1, n.round, n.proposals[KeyOf(n)])
    ensures MustRefuse(cfg, n) <==> !CanPrevote(cfg, n)
  {
    hide SignedBy, ProposalBytes, TxVerify, ProposerFor, RoundKey;
  }

  lemma Reads(net: Net, w: World, i: Bytes)
    requires i in w.nodes && w.nodes[i].chain.tip < MAX_U64 && w.nodes[i].self == i
    requires w.nodes[i].phase.AwaitProposal? && KeyOf(w.nodes[i]) in w.nodes[i].proposals && w.nodes[i].round < MAX_U32
    ensures var n, w' := w.nodes[i], Next(net, w, Event(i, ReadProposal));
      var p := n.proposals[KeyOf(n)];
      if CanPrevote(net.cfg, n) then
        && w' == SetNode(w, i, n.(phase := AwaitPrevotes(p.block)))
                   .(ballots := w.ballots + {Ballot(i, Prevote, n.chain.tip + 1, n.round, BlockHash(net.cfg.crypto, p.block))})
      else
        w' == SetNode(w, i, n.(phase := Start, round := n.round + 1))
  {
    hide ValidProposal, BlockHash, RoundKey;
    AcceptableIsValid(net.cfg, w.nodes[i]);
  }

  /**
   In every run, an engine that waits for a proposal and finds one votes for it if and only if the round's
   leader signed it for this height and every transaction is signed; otherwise it casts no vote and goes to
   the next round.
   */
  lemma ReadsExactly(net: Net, run: seq<Event>, i: Bytes)
    requires i in net.honest && i in Exec(net, run).nodes
    requires var n := Exec(net, run).nodes[i]; n.phase.AwaitProposal? && KeyOf(n) in n.proposals && n.round < MAX_U32
    ensures Exec(net, run).nodes[i].chain.tip < MAX_U64
    ensures var w, w' := Exec(net, run), Next(net, Exec(net, run), Event(i, ReadProposal));
      var n, p := w.nodes[i], w.nodes[i].proposals[KeyOf(w.nodes[i])];
      if Acceptable(net.cfg, n.chain.tip + 1, n.round, p) then
        && w'.nodes == w.nodes[i := n.(phase := AwaitPrevotes(p.block))]
        && w'.ballots == w.ballots + {Ballot(i, Prevote, n.chain.tip + 1, n.round, BlockHash(net.cfg.crypto, p.block))}
      else
        w'.nodes == w.nodes[i := n.(phase := Start, round := n.round + 1)] && w'.ballots == w.ballots
  {
    hide Exec, Next, Acceptable, CanPrevote, MustRefuse, BlockHash, RoundKey, Inv, NodeInv;
    RunsKeepInv(net, run);
    NodeFacts(net, Exec(net, run), i);
    AcceptableIsValid(net.cfg, Exec(net, run).nodes[i]);
    Reads(net, Exec(net, run), i);
  }

  /** What an honest leader published, with signed transactions, is acceptable in its round to every engine at its height. */
  lemma HonestProposalIsAcceptable(net: Net, run: seq<Event>, p: Proposal)
    requires SignaturesVerify(net.cfg.crypto) && DecodeAddress(p.block.proposer).Some?
    requires p in Exec(net, run).proposed
    ensures Acceptable(net.cfg, p.block.height, p.round, p) <==> forall t :: t in p.block.transactions ==> TxVerify(net.cfg.crypto, t)
  {
    ProposedExactly(net, run, p);
    hide Exec, ProposalBytes, TxVerify, ProposerFor, BlockHash, RootMatches;
  }

  /**
   In every run, an engine that holds a certificate commits the block under it: its chain becomes what
   CommitBlock makes of it, watermarks of a refused block included, and it goes to the next height if the block
   was accepted and else to the next round. If the store breaks the commit off, the chain is what was written,
   and the round has failed as well.
   */
  lemma CommitsExactly(net: Net, run: seq<Event>, i: Bytes, sigs: seq<ValidatorSig>, partial: Ledger)
    requires i in net.honest && i in Exec(net, run).nodes
    requires var n := Exec(net, run).nodes[i]; IsCertificate(net.cfg, n, sigs) && n.round < MAX_U32
    ensures var w, n := Exec(net, run), Exec(net, run).nodes[i];
      var (chain, verdict) := Commit(net.cfg.Rules(), n.chain, n.phase.block.(commitSigs := sigs));
      var n' := Next(net, w, Event(i, SeePrecommits(sigs))).nodes[i];
      n'.chain == chain && n'.phase == Start && n'.round == if verdict == Accepted then 0 else n.round + 1
    ensures var w, n := Exec(net, run), Exec(net, run).nodes[i];
      var n' := Next(net, w, Event(i, StoreFails(sigs, partial))).nodes[i];
      BrokenOff(net.cfg.Rules(), n.chain, n.phase.block.(commitSigs := sigs), partial) ==>
        n'.chain == ChainState(partial, n.chain.tip) && n'.phase == Start && n'.round == n.round + 1
  {
    hide Exec, Commit, BrokenOff, ListsVotes, CountVotes, DropPrefixed;
  }

  // ---------------------------------------------------------------- what is voted for and committed

  /** In every run, whoever votes for a block or waits to commit one has had it checked. */
  lemma VotedIsLed(net: Net, run: seq<Event>, i: Bytes)
    requires i in net.honest && i in Exec(net, run).nodes
    ensures var n := Exec(net, run).nodes[i];
      n.phase.AwaitPrevotes? || n.phase.AwaitPrecommits? ==>
        n.chain.tip < MAX_U64 && Led(net, Exec(net, run).proposed, n.chain.tip + 1, n.round, n.phase.block)
  {
    hide Exec, Led, FiledRight, ChainLed, Inv, NodeInv, WorldLed;
    RunsAreLed(net, run);
    RunsKeepInv(net, run);
    NodeFacts(net, Exec(net, run), i);
    NodeIsLed(net, Exec(net, run), i);
  }

  /**
   In every run, each honest vote is for the hash of a block that the round's leader signed for that height and
   round and whose transactions are all signed; if that leader is honest, for the hash of one it published.
   */
  lemma BallotsAreLed(net: Net, run: seq<Event>, b: Ballot)
    requires b in Exec(net, run).ballots
    ensures exists x :: Checked(net.cfg, b.height, b.round, x) && BlockHash(net.cfg.crypto, x) == b.hash
    ensures ProposerFor(net.cfg.validators, b.height, b.round) in net.honest ==>
      exists q :: q in Exec(net, run).proposed && LedBy(net.cfg, b.height, b.round, b.hash, q)
  {
    RunsAreLed(net, run);
    hide Exec, Checked, HeaderBytes, NodeLed;
    assert BallotLed(net, Exec(net, run).proposed, b);
    var x :| Led(net, Exec(net, run).proposed, b.height, b.round, x) && BlockHash(net.cfg.crypto, x) == b.hash;
    LeaderOf(net.cfg, b.height, b.round, x);
    if x.proposer in net.honest {
      var q :| q in Exec(net, run).proposed && q.block.proposer == x.proposer && q.round == b.round && HeaderBytes(q.block) == HeaderBytes(x);
      SameHeaderSameHeight(q.block, x);
      assert LedBy(net.cfg, b.height, b.round, b.hash, q);
    }
  }

  /** The leader's proposal for this height and round, with this hash. */
  predicate LedBy(cfg: Config, height: u64, round: u32, hash: Bytes, q: Proposal) {
    && q.block.proposer == ProposerFor(cfg.validators, height, round)
    && q.block.height == height && q.round == round && BlockHash(cfg.crypto, q.block) == hash
  }

  lemma LeaderOf(cfg: Config, height: u64, round: u32, b: Block)
    requires Checked(cfg, height, round, b)
    ensures b.proposer == ProposerFor(cfg.validators, height, round) && b.height == height
  {
  }

  lemma SameHeaderSameHeight(a: Block, b: Block)
    requires HeaderBytes(a) == HeaderBytes(b)
    ensures a.height == b.height
  {
    hide BigEndian;
    var ha, hb := BigEndian(a.height, 8), BigEndian(b.height, 8);
    assert HeaderBytes(a) == ha + (a.prevHash + BigEndian(U64OfI64(a.timestamp), 8) + a.proposer + a.merkleRoot);
    assert HeaderBytes(b) == hb + (b.prevHash + BigEndian(U64OfI64(b.timestamp), 8) + b.proposer + b.merkleRoot);
    PrefixCancels(ha, hb, a.prevHash + BigEndian(U64OfI64(a.timestamp), 8) + a.proposer + a.merkleRoot,
                  b.prevHash + BigEndian(U64OfI64(b.timestamp), 8) + b.proposer + b.merkleRoot);
    Be64RoundTrip(a.height);
    Be64RoundTrip(b.height);
  }

  /** In every run, each committed block was led in the round it was decided in. */
  lemma CommittedIsLed(net: Net, run: seq<Event>, i: Bytes, h: u64)
    requires i in net.honest && i in Exec(net, run).nodes && 0 < h <= Exec(net, run).nodes[i].chain.tip
    ensures var n := Exec(net, run).nodes[i];
      && h in n.chain.ledger.blocks && h in n.decided
      && Led(net, Exec(net, run).proposed, h, n.decided[h], n.chain.ledger.blocks[h])
  {
    RunsAreLed(net, run);
    hide Exec, Led, FiledRight;
    assert NodeLed(net, Exec(net, run).proposed, Exec(net, run).nodes[i]);
  }
}
