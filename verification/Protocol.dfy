/**
 The consensus protocol: honest engines over an asynchronous network that may delay, drop,
 duplicate, reorder and inject messages. What it guarantees over every run.
 */
module Protocol {
  import opened Base
  import opened Blocks
  import opened Quorums
  import opened Votes
  import opened Ledgers
  import opened EngineModel

  /** What an honest voter has signed. */
  datatype Ballot = Ballot(voter: Bytes, kind: VoteType, height: u64, round: u32, hash: Bytes)

  /** The configuration shared by all honest engines, and which validators are honest. */
  datatype Net = Net(cfg: Config, honest: set<Bytes>)

  /** At most f validators are not honest. */
  ghost predicate Tolerable(net: Net) {
    && |net.cfg.validators| > 0
    && net.honest <= net.cfg.Members()
    && |net.cfg.Members() - net.honest| <= MaxFaulty(|net.cfg.validators|)
  }

  /** The honest engines, and everything their keys have signed so far. */
  datatype World = World(nodes: map<Bytes, Node>, ballots: set<Ballot>, proposed: set<Proposal>)

  function Init(net: Net): World {
    World(map i | i in net.honest :: FreshNode(net.cfg, i), {}, {})
  }

  // ---------------------------------------------------------------- steps

  datatype Action =
    | ReceiveProposal(p: Proposal)
    | ReceiveVote(want: VoteType, v: Vote)
    | EnterRound(txs: seq<Transaction>, timestamp: i64)
    | ReadProposal
    | SeePrevotes
    | SeePrecommits(sigs: seq<ValidatorSig>)
    | StoreFails(sigs: seq<ValidatorSig>, partial: Ledger)
    | GiveUp

  datatype Event = Event(node: Bytes, action: Action)

  function VoteBytes(v: Vote): Bytes {
    SigningBytes(v.kind, v.height, v.round, v.blockHash)
  }

  function BallotBytes(b: Ballot): Bytes {
    SigningBytes(b.kind, b.height, b.round, b.hash)
  }

  /** Unforgeability: a vote that verifies under an honest key carries bytes that key has signed. */
  ghost predicate AuthenticVote(net: Net, w: World, v: Vote) {
    VoteVerify(net.cfg.crypto, v) && v.voter in net.honest ==>
      exists b :: b in w.ballots && b.voter == v.voter && BallotBytes(b) == VoteBytes(v)
  }

  ghost predicate AuthenticProposal(net: Net, w: World, p: Proposal) {
    SignedBy(net.cfg.crypto, p.block.proposer, ProposalBytes(p), p.proposerSig) && p.block.proposer in net.honest ==>
      exists q :: q in w.proposed && q.block.proposer == p.block.proposer && ProposalBytes(q) == ProposalBytes(p)
  }

  function BallotOf(cfg: Config, n: Node, kind: VoteType, block: Block): Ballot {
    Ballot(n.self, kind, HeightOf(n), n.round, BlockHash(cfg.crypto, block))
  }

  /**
   The vote an engine sends carries its ballot: signed over the ballot's bytes, authentic once the ballot is
   cast, and admitted by every engine.
   */
  lemma OwnVoteCarriesBallot(net: Net, w: World, n: Node, kind: VoteType, block: Block)
    requires SignaturesVerify(net.cfg.crypto) && DecodeAddress(n.self).Some? && n.self in net.cfg.Members()
    ensures var v, b := OwnVote(net.cfg, n, kind, BlockHash(net.cfg.crypto, block)), BallotOf(net.cfg, n, kind, block);
      && v.voter == b.voter && VoteBytes(v) == BallotBytes(b) && v.signature == net.cfg.crypto.sign(b.voter, BallotBytes(b))
      && AuthenticVote(net, w.(ballots := w.ballots + {b}), v) && Admissible(net.cfg, kind, v)
  {
    hide BlockHash, SigningBytes, DecodeAddress;
    var v, b := OwnVote(net.cfg, n, kind, BlockHash(net.cfg.crypto, block)), BallotOf(net.cfg, n, kind, block);
    assert b in w.ballots + {b} && BallotBytes(b) == VoteBytes(v);
  }

  /** The proposal an engine publishes as it enters a round, if the round is its own. */
  function Published(cfg: Config, n: Node, txs: seq<Transaction>, timestamp: i64): set<Proposal> {
    if IsProposer(cfg, n) && n.chain.tip in n.chain.ledger.blocks then {BuildProposal(cfg, n, txs, timestamp)} else {}
  }

  function SetNode(w: World, i: Bytes, n: Node): World {
    w.(nodes := w.nodes[i := n])
  }

  /** One step of engine `e.node`. A step that is not enabled changes nothing. */
  ghost function Next(net: Net, w: World, e: Event): World {
    if e.node !in w.nodes then w else
      var n, i, cfg := w.nodes[e.node], e.node, net.cfg;
      match e.action
      case ReceiveProposal(p) =>
        if AuthenticProposal(net, w, p) then SetNode(w, i, HandleProposal(n, p)) else w
      case ReceiveVote(want, v) =>
        if AuthenticVote(net, w, v) then SetNode(w, i, HandleVote(cfg, n, want, v)) else w
      case EnterRound(txs, timestamp) =>
        if n.phase.Start? && n.chain.tip < MAX_U64 then
          SetNode(w, i, n.(phase := AwaitProposal)).(proposed := w.proposed + Published(cfg, n, txs, timestamp))
        else w
      case ReadProposal =>
        if CanPrevote(cfg, n) then
          var n' := DoPrevote(cfg, n);
          SetNode(w, i, n').(ballots := w.ballots + {BallotOf(cfg, n, Prevote, n'.phase.block)})
        else if MustRefuse(cfg, n) && n.round < MAX_U32 then SetNode(w, i, NextRound(n))
        else w
      case SeePrevotes =>
        if CanPrecommit(cfg, n) then
          SetNode(w, i, DoPrecommit(cfg, n)).(ballots := w.ballots + {BallotOf(cfg, n, Precommit, n.phase.block)})
        else w
      case SeePrecommits(sigs) =>
        if IsCertificate(cfg, n, sigs) && n.round < MAX_U32 then SetNode(w, i, DoCommit(cfg, n, sigs)) else w
      case StoreFails(sigs, partial) =>
        if CommitBreaks(cfg, n, sigs, partial) && n.round < MAX_U32 then
          SetNode(w, i, FailCommit(n, partial))
        else w
      case GiveUp =>
        if n.round < MAX_U32 then SetNode(w, i, NextRound(n)) else w
  }

  /** The world after a run: any sequence of events from the initial world. */
  ghost function Exec(net: Net, run: seq<Event>): World {
    if run == [] then Init(net) else Next(net, Exec(net, run[..|run| - 1]), run[|run| - 1])
  }

  // ---------------------------------------------------------------- the invariant

  /** The validators that signed, or being faulty may have signed, a given vote. */
  function Backers(net: Net, ballots: set<Ballot>, kind: VoteType, h: u64, r: u32, x: Bytes): (s: set<Bytes>)
    ensures s <= net.cfg.Members()
  {
    set v | v in net.cfg.Members() && (v !in net.honest || Ballot(v, kind, h, r, x) in ballots)
  }

  /** A single-round quorum for `x` can exist. */
  predicate Reachable(net: Net, ballots: set<Ballot>, kind: VoteType, h: u64, r: u32, x: Bytes) {
    |Backers(net, ballots, kind, h, r, x)| >= net.cfg.QuorumSize()
  }

  /** `b` is the vote that brought its signer's engine into its present phase. */
  predicate InPhase(cfg: Config, n: Node, b: Ballot) {
    && (b.kind == Prevote ==> n.phase.AwaitPrevotes? || n.phase.AwaitPrecommits?)
    && (b.kind == Precommit ==> n.phase.AwaitPrecommits?)
    && (n.phase.AwaitPrevotes? || n.phase.AwaitPrecommits? ==> b.hash == BlockHash(cfg.crypto, n.phase.block))
  }

  /** An engine has voted only in rounds it has been in. */
  predicate Fits(cfg: Config, n: Node, b: Ballot) {
    if b.height <= n.chain.tip then
      b.height in n.decided && b.round <= n.decided[b.height]
    else
      && b.height == n.chain.tip + 1
      && (b.round < n.round || (b.round == n.round && InPhase(cfg, n, b)))
  }

  predicate Backed(net: Net, ballots: set<Ballot>, v: Vote) {
    v.voter in net.honest ==> Ballot(v.voter, v.kind, v.height, v.round, v.blockHash) in ballots
  }

  predicate BucketBacked(net: Net, ballots: set<Ballot>, bucket: Bucket) {
    forall key, voter :: key in bucket && voter in bucket[key] ==> Backed(net, ballots, bucket[key][voter])
  }

  /** Height `h` was decided in one round, whose precommit quorum backs the committed block. */
  predicate DecidedAt(net: Net, ballots: set<Ballot>, chain: ChainState, decided: map<u64, u32>, h: u64) {
    && h in chain.ledger.blocks && h in decided
    && Reachable(net, ballots, Precommit, h, decided[h], BlockHash(net.cfg.crypto, chain.ledger.blocks[h]))
  }

  ghost predicate AllDecided(net: Net, ballots: set<Ballot>, chain: ChainState, decided: map<u64, u32>) {
    && 0 in chain.ledger.blocks && chain.ledger.blocks[0] == GenesisBlock(net.cfg.crypto)
    && forall h: u64 :: 0 < h <= chain.tip ==> DecidedAt(net, ballots, chain, decided, h)
  }

  ghost predicate BallotsFit(cfg: Config, ballots: set<Ballot>, n: Node) {
    forall b :: b in ballots && b.voter == n.self ==> Fits(cfg, n, b)
  }

  ghost predicate BucketInv(net: Net, ballots: set<Ballot>, bucket: Bucket, kind: VoteType) {
    WellFiled(net.cfg, bucket, kind) && BucketBacked(net, ballots, bucket)
  }

  predicate PhaseInv(n: Node) {
    && (!n.phase.Start? ==> n.chain.tip < MAX_U64)
    && (n.phase.AwaitPrevotes? || n.phase.AwaitPrecommits? ==> n.phase.block.height == HeightOf(n))
  }

  ghost predicate NodeInv(net: Net, ballots: set<Ballot>, n: Node) {
    && AllDecided(net, ballots, n.chain, n.decided)
    && BallotsFit(net.cfg, ballots, n)
    && BucketInv(net, ballots, n.prevotes, Prevote)
    && BucketInv(net, ballots, n.precommits, Precommit)
    && PhaseInv(n)
  }

  /** No honest key signs two votes of one kind in one round. */
  predicate NoEquivocation(ballots: set<Ballot>) {
    forall a, b :: a in ballots && b in ballots && SameSlot(a, b) ==> a.hash == b.hash
  }

  /** Every honest precommit was preceded by a prevote quorum for the same block. */
  predicate PrecommitsBacked(net: Net, ballots: set<Ballot>) {
    forall b :: b in ballots && b.kind == Precommit ==> Reachable(net, ballots, Prevote, b.height, b.round, b.hash)
  }

  ghost predicate Inv(net: Net, w: World) {
    && w.nodes.Keys == net.honest
    && (forall i :: i in w.nodes ==> w.nodes[i].self == i && NodeInv(net, w.ballots, w.nodes[i]))
    && (forall b :: b in w.ballots ==> b.voter in net.honest)
    && NoEquivocation(w.ballots)
    && PrecommitsBacked(net, w.ballots)
  }

  // ---------------------------------------------------------------- more ballots do no harm

  lemma BackersGrow(net: Net, ballots: set<Ballot>, more: set<Ballot>, kind: VoteType, h: u64, r: u32, x: Bytes)
    requires ballots <= more && Reachable(net, ballots, kind, h, r, x)
    ensures Reachable(net, more, kind, h, r, x)
  {
    SubsetSize(Backers(net, ballots, kind, h, r, x), Backers(net, more, kind, h, r, x));
  }

  lemma DecidedGrows(net: Net, ballots: set<Ballot>, more: set<Ballot>, chain: ChainState, decided: map<u64, u32>)
    requires AllDecided(net, ballots, chain, decided) && ballots <= more
    ensures AllDecided(net, more, chain, decided)
  {
    forall h: u64 | 0 < h <= chain.tip ensures DecidedAt(net, more, chain, decided, h) {
      assert DecidedAt(net, ballots, chain, decided, h);
      BackersGrow(net, ballots, more, Precommit, h, decided[h], BlockHash(net.cfg.crypto, chain.ledger.blocks[h]));
    }
  }

  lemma BucketGrows(net: Net, ballots: set<Ballot>, more: set<Ballot>, bucket: Bucket, kind: VoteType)
    requires BucketInv(net, ballots, bucket, kind) && ballots <= more
    ensures BucketInv(net, more, bucket, kind)
  {
    forall key, voter | key in bucket && voter in bucket[key] ensures Backed(net, more, bucket[key][voter]) {
      assert Backed(net, ballots, bucket[key][voter]);
    }
  }

  lemma NodeInvGrows(net: Net, ballots: set<Ballot>, more: set<Ballot>, n: Node)
    requires NodeInv(net, ballots, n) && ballots <= more
    requires forall b :: b in more - ballots ==> b.voter != n.self
    ensures NodeInv(net, more, n)
  {
    DecidedGrows(net, ballots, more, n.chain, n.decided);
    BucketGrows(net, ballots, more, n.prevotes, Prevote);
    BucketGrows(net, ballots, more, n.precommits, Precommit);
    forall b | b in more && b.voter == n.self ensures Fits(net.cfg, n, b) {
      assert b in ballots;
    }
  }

  /** An engine that steps without signing anything. */
  lemma SilentStep(net: Net, w: World, i: Bytes, n': Node)
    requires Inv(net, w) && i in w.nodes && n'.self == i && NodeInv(net, w.ballots, n')
    ensures Inv(net, SetNode(w, i, n'))
  {
    hide NodeInv, PrecommitsBacked, NoEquivocation;
  }

  /** An engine that steps and signs one ballot of a kind it has not yet signed in that round. */
  lemma SigningStep(net: Net, w: World, i: Bytes, n': Node, b: Ballot)
    requires Inv(net, w) && i in w.nodes && n'.self == i && b.voter == i
    requires NodeInv(net, w.ballots + {b}, n')
    requires forall a :: a in w.ballots && a.voter == i ==> !SameSlot(a, b)
    requires b.kind == Precommit ==> Reachable(net, w.ballots, Prevote, b.height, b.round, b.hash)
    ensures Inv(net, SetNode(w, i, n').(ballots := w.ballots + {b}))
  {
    var more := w.ballots + {b};
    forall j | j in w.nodes && j != i ensures NodeInv(net, more, w.nodes[j]) {
      NodeInvGrows(net, w.ballots, more, w.nodes[j]);
    }
    hide NodeInv;
    PrecommitsStayBacked(net, w.ballots, b);
    NewSlotNoEquivocation(w.ballots, b);
    hide PrecommitsBacked, NoEquivocation;
  }

  lemma PrecommitsStayBacked(net: Net, ballots: set<Ballot>, b: Ballot)
    requires PrecommitsBacked(net, ballots)
    requires b.kind == Precommit ==> Reachable(net, ballots, Prevote, b.height, b.round, b.hash)
    ensures PrecommitsBacked(net, ballots + {b})
  {
    forall a | a in ballots + {b} && a.kind == Precommit
      ensures Reachable(net, ballots + {b}, Prevote, a.height, a.round, a.hash)
    {
      BackersGrow(net, ballots, ballots + {b}, Prevote, a.height, a.round, a.hash);
    }
  }

  predicate SameSlot(a: Ballot, b: Ballot) {
    a.voter == b.voter && a.kind == b.kind && a.height == b.height && a.round == b.round
  }

  lemma NewSlotNoEquivocation(ballots: set<Ballot>, b: Ballot)
    requires NoEquivocation(ballots) && forall a :: a in ballots && a.voter == b.voter ==> !SameSlot(a, b)
    ensures NoEquivocation(ballots + {b})
  {
  }

  // ---------------------------------------------------------------- each step keeps the invariant

  lemma VoteStep(net: Net, w: World, i: Bytes, want: VoteType, v: Vote)
    requires Inv(net, w) && i in w.nodes && AuthenticVote(net, w, v)
    ensures Inv(net, SetNode(w, i, HandleVote(net.cfg, w.nodes[i], want, v)))
  {
    var n := w.nodes[i];
    if Admissible(net.cfg, want, v) {
      VoteIsBacked(net, w, v);
      FilingKeepsBacked(net, w.ballots, if want == Prevote then n.prevotes else n.precommits, want, v);
      VoteStepNode(net, w.ballots, n, want, v);
    }
    SilentStep(net, w, i, HandleVote(net.cfg, n, want, v)) by {
      hide Admissible, File, AllDecided, BallotsFit, BucketInv;
    }
  }

  lemma VoteStepNode(net: Net, ballots: set<Ballot>, n: Node, want: VoteType, v: Vote)
    requires NodeInv(net, ballots, n)
    requires BucketInv(net, ballots, File(if want == Prevote then n.prevotes else n.precommits, v), want)
    ensures NodeInv(net, ballots, HandleVote(net.cfg, n, want, v))
  {
    hide File, Admissible, AllDecided, BucketInv;
    var n' := HandleVote(net.cfg, n, want, v);
    forall b | b in ballots && b.voter == n.self ensures Fits(net.cfg, n', b) {
      assert Fits(net.cfg, n, b);
    }
  }

  /** An authentic vote of an honest voter is exactly what that voter signed. */
  lemma VoteIsBacked(net: Net, w: World, v: Vote)
    requires AuthenticVote(net, w, v) && VoteVerify(net.cfg.crypto, v)
    ensures Backed(net, w.ballots, v)
  {
    if v.voter in net.honest {
      var b :| b in w.ballots && b.voter == v.voter && BallotBytes(b) == VoteBytes(v);
      SigningBytesInjective(b.kind, b.height, b.round, b.hash, v.kind, v.height, v.round, v.blockHash);
      assert b == Ballot(v.voter, v.kind, v.height, v.round, v.blockHash);
    }
  }

  lemma FilingKeepsBacked(net: Net, ballots: set<Ballot>, bucket: Bucket, kind: VoteType, v: Vote)
    requires BucketInv(net, ballots, bucket, kind) && Admissible(net.cfg, kind, v) && Backed(net, ballots, v)
    ensures BucketInv(net, ballots, File(bucket, v), kind)
  {
    FileKeeps(net.cfg, bucket, kind, v);
    forall key, voter | key in File(bucket, v) && voter in File(bucket, v)[key]
      ensures Backed(net, ballots, File(bucket, v)[key][voter])
    {
      if key in bucket && voter in bucket[key] {
        assert Backed(net, ballots, bucket[key][voter]);
      }
    }
  }

  /** A round given up: every ballot of the engine now lies in an earlier round. */
  lemma NextRoundKeeps(net: Net, ballots: set<Ballot>, n: Node)
    requires NodeInv(net, ballots, n) && n.round < MAX_U32
    ensures NodeInv(net, ballots, NextRound(n))
  {
    forall b | b in ballots && b.voter == n.self ensures Fits(net.cfg, NextRound(n), b) {
      assert Fits(net.cfg, n, b);
    }
  }

  /** The counted votes all come from backers: no other vote can be filed under the round's key. */
  lemma CountedAreBackers(net: Net, ballots: set<Ballot>, bucket: Bucket, kind: VoteType, h: u64, r: u32, x: Bytes)
    requires BucketInv(net, ballots, bucket, kind)
    requires CountVotes(bucket, RoundKey(h, r), x) >= net.cfg.QuorumSize()
    ensures Reachable(net, ballots, kind, h, r, x)
  {
    var counted := Matching(bucket, RoundKey(h, r), x);
    forall voter | voter in counted ensures voter in Backers(net, ballots, kind, h, r, x) {
      FiledVoteIsForRound(net.cfg, bucket, kind, h, r, voter);
      assert Filed(net.cfg, RoundKey(h, r), voter, bucket[RoundKey(h, r)][voter], kind);
      assert Backed(net, ballots, bucket[RoundKey(h, r)][voter]);
    }
    SubsetSize(counted, Backers(net, ballots, kind, h, r, x));
  }

  /** The wait that follows signing a vote of this kind. */
  function WaitAfter(kind: VoteType, block: Block): Phase {
    match kind
    case Prevote => AwaitPrevotes(block)
    case Precommit => AwaitPrecommits(block)
  }

  /** An engine that moves to its next wait within a round, signing a ballot new for that round. */
  lemma PhaseStep(net: Net, w: World, i: Bytes, kind: VoteType, block: Block)
    requires Inv(net, w) && i in w.nodes && block.height == HeightOf(w.nodes[i])
    requires w.nodes[i].phase == if kind == Prevote then AwaitProposal else AwaitPrevotes(block)
    requires kind == Precommit ==>
      Reachable(net, w.ballots, Prevote, HeightOf(w.nodes[i]), w.nodes[i].round, BlockHash(net.cfg.crypto, block))
    ensures Inv(net, SetNode(w, i, w.nodes[i].(phase := WaitAfter(kind, block))).(ballots := w.ballots + {BallotOf(net.cfg, w.nodes[i], kind, block)}))
  {
    var n := w.nodes[i];
    NewSlot(net, w.ballots, n, kind, block);
    PhaseStepNode(net, w.ballots, n, kind, block);
    hide NodeInv, NoEquivocation, PrecommitsBacked;
    SigningStep(net, w, i, n.(phase := WaitAfter(kind, block)), BallotOf(net.cfg, n, kind, block));
  }

  lemma NewSlot(net: Net, ballots: set<Ballot>, n: Node, kind: VoteType, block: Block)
    requires NodeInv(net, ballots, n) && block.height == HeightOf(n)
    requires n.phase == if kind == Prevote then AwaitProposal else AwaitPrevotes(block)
    ensures forall a :: a in ballots && a.voter == n.self ==>
      !SameSlot(a, BallotOf(net.cfg, n, kind, block)) && Fits(net.cfg, n.(phase := WaitAfter(kind, block)), a)
  {
    hide AllDecided, BucketInv;
    forall a | a in ballots && a.voter == n.self
      ensures !SameSlot(a, BallotOf(net.cfg, n, kind, block)) && Fits(net.cfg, n.(phase := WaitAfter(kind, block)), a)
    {
      assert Fits(net.cfg, n, a);
    }
  }

  lemma PhaseStepNode(net: Net, ballots: set<Ballot>, n: Node, kind: VoteType, block: Block)
    requires NodeInv(net, ballots, n) && !n.phase.Start? && block.height == HeightOf(n)
    requires forall a :: a in ballots && a.voter == n.self ==> Fits(net.cfg, n.(phase := WaitAfter(kind, block)), a)
    ensures NodeInv(net, ballots + {BallotOf(net.cfg, n, kind, block)}, n.(phase := WaitAfter(kind, block)))
  {
    var b := BallotOf(net.cfg, n, kind, block);
    var more := ballots + {b};
    DecidedGrows(net, ballots, more, n.chain, n.decided);
    BucketGrows(net, ballots, more, n.prevotes, Prevote);
    BucketGrows(net, ballots, more, n.precommits, Precommit);
    assert Fits(net.cfg, n.(phase := WaitAfter(kind, block)), b);
    hide Fits, AllDecided, BucketInv;
  }

  lemma PrevoteStep(net: Net, w: World, i: Bytes)
    requires Inv(net, w) && i in w.nodes && CanPrevote(net.cfg, w.nodes[i])
    ensures Inv(net, Next(net, w, Event(i, ReadProposal)))
  {
    hide Inv;
    PhaseStep(net, w, i, Prevote, w.nodes[i].proposals[KeyOf(w.nodes[i])].block);
  }

  lemma PrecommitStep(net: Net, w: World, i: Bytes)
    requires Inv(net, w) && i in w.nodes && CanPrecommit(net.cfg, w.nodes[i])
    ensures Inv(net, Next(net, w, Event(i, SeePrevotes)))
  {
    var n := w.nodes[i];
    NodeFacts(net, w, i);
    hide Inv, NodeInv;
    CountedAreBackers(net, w.ballots, n.prevotes, Prevote, HeightOf(n), n.round, BlockHash(net.cfg.crypto, n.phase.block));
    PhaseStep(net, w, i, Precommit, n.phase.block);
    SeePrevotesEvent(net, w, i);
    hide Next, CanPrecommit;
  }

  lemma SeePrevotesEvent(net: Net, w: World, i: Bytes)
    requires i in w.nodes && CanPrecommit(net.cfg, w.nodes[i])
    ensures Next(net, w, Event(i, SeePrevotes))
         == SetNode(w, i, w.nodes[i].(phase := WaitAfter(Precommit, w.nodes[i].phase.block)))
              .(ballots := w.ballots + {BallotOf(net.cfg, w.nodes[i], Precommit, w.nodes[i].phase.block)})
  {
    hide BallotOf, CountVotes;
  }

  lemma NodeFacts(net: Net, w: World, i: Bytes)
    requires Inv(net, w) && i in w.nodes
    ensures w.nodes[i].self == i && NodeInv(net, w.ballots, w.nodes[i])
    ensures BucketInv(net, w.ballots, w.nodes[i].prevotes, Prevote) && PhaseInv(w.nodes[i])
  {
  }

  lemma GcKeepsFiled(net: Net, ballots: set<Ballot>, bucket: Bucket, kind: VoteType, p: Bytes)
    requires BucketInv(net, ballots, bucket, kind)
    ensures BucketInv(net, ballots, DropPrefixed(bucket, p), kind)
  {
  }

  /** Adding a height to the decided ones. */
  lemma DecidedExtends(net: Net, ballots: set<Ballot>, n: Node, block: Block, chain': ChainState)
    requires AllDecided(net, ballots, n.chain, n.decided) && n.chain.tip < MAX_U64
    requires chain'.tip == HeightOf(n) && chain'.ledger.blocks == n.chain.ledger.blocks[HeightOf(n) := block]
    requires Reachable(net, ballots, Precommit, HeightOf(n), n.round, BlockHash(net.cfg.crypto, block))
    ensures AllDecided(net, ballots, chain', n.decided[HeightOf(n) := n.round])
  {
    var decided' := n.decided[HeightOf(n) := n.round];
    forall h: u64 | 0 < h <= chain'.tip ensures DecidedAt(net, ballots, chain', decided', h) {
      if h <= n.chain.tip {
        assert DecidedAt(net, ballots, n.chain, n.decided, h);
      }
    }
  }

  /**
   A commit that is accepted: the engine leaves the height, and all it ever signed for that height
   lies at or below the deciding round.
   */
  lemma AcceptedStepKeeps(net: Net, ballots: set<Ballot>, n: Node, sigs: seq<ValidatorSig>)
    requires NodeInv(net, ballots, n) && IsCertificate(net.cfg, n, sigs) && n.round < MAX_U32
    requires Commit(net.cfg.Rules(), n.chain, n.phase.block.(commitSigs := sigs)).1 == Accepted
    ensures NodeInv(net, ballots, DoCommit(net.cfg, n, sigs))
  {
    var block := n.phase.block.(commitSigs := sigs);
    var chain' := Commit(net.cfg.Rules(), n.chain, block).0;
    CommitEffect(net.cfg.Rules(), n.chain, block);
    CountedAreBackers(net, ballots, n.precommits, Precommit, HeightOf(n), n.round, BlockHash(net.cfg.crypto, n.phase.block));
    assert HeaderBytes(block) == HeaderBytes(n.phase.block);
    DecidedExtends(net, ballots, n, block, chain');
    hide Commit, AllDecided, IsCertificate;
    NextHeightKeeps(net, ballots, n, chain');
  }

  /** Moving to the next height. */
  lemma NextHeightKeeps(net: Net, ballots: set<Ballot>, n: Node, chain': ChainState)
    requires NodeInv(net, ballots, n) && n.chain.tip < MAX_U64 && chain'.tip == HeightOf(n)
    requires AllDecided(net, ballots, chain', n.decided[HeightOf(n) := n.round])
    ensures NodeInv(net, ballots,
      Gc(n.(chain := chain', round := 0, phase := Start, decided := n.decided[HeightOf(n) := n.round]), HeightOf(n)))
  {
    hide AllDecided;
    var n' := Gc(n.(chain := chain', round := 0, phase := Start, decided := n.decided[HeightOf(n) := n.round]), HeightOf(n));
    GcKeepsFiled(net, ballots, n.prevotes, Prevote, HeightPrefix(HeightOf(n)));
    GcKeepsFiled(net, ballots, n.precommits, Precommit, HeightPrefix(HeightOf(n)));
    hide BucketInv, DropPrefixed;
    forall b | b in ballots && b.voter == n'.self ensures Fits(net.cfg, n', b) {
      assert Fits(net.cfg, n, b);
    }
  }

  lemma RejectedStepKeeps(net: Net, ballots: set<Ballot>, n: Node, sigs: seq<ValidatorSig>)
    requires NodeInv(net, ballots, n) && IsCertificate(net.cfg, n, sigs) && n.round < MAX_U32
    requires Commit(net.cfg.Rules(), n.chain, n.phase.block.(commitSigs := sigs)).1 != Accepted
    ensures NodeInv(net, ballots, DoCommit(net.cfg, n, sigs))
  {
    var block := n.phase.block.(commitSigs := sigs);
    var chain' := Commit(net.cfg.Rules(), n.chain, block).0;
    hide IsCertificate, NodeInv;
    CommitEffect(net.cfg.Rules(), n.chain, block);
    hide Commit;
    SameBlocksKeep(net, ballots, n, chain');
    NextRoundKeeps(net, ballots, n.(chain := chain'));
  }

  lemma SameBlocksKeep(net: Net, ballots: set<Ballot>, n: Node, chain': ChainState)
    requires NodeInv(net, ballots, n) && chain'.tip == n.chain.tip && chain'.ledger.blocks == n.chain.ledger.blocks
    ensures NodeInv(net, ballots, n.(chain := chain'))
  {
    hide BucketInv;
    var m := n.(chain := chain');
    forall b | b in ballots && b.voter == m.self ensures Fits(net.cfg, m, b) {
      assert Fits(net.cfg, n, b);
    }
    forall h: u64 | 0 < h <= m.chain.tip ensures DecidedAt(net, ballots, m.chain, m.decided, h) {
      assert DecidedAt(net, ballots, n.chain, n.decided, h);
    }
  }

  lemma CommitStep(net: Net, w: World, i: Bytes, sigs: seq<ValidatorSig>)
    requires Inv(net, w) && i in w.nodes && IsCertificate(net.cfg, w.nodes[i], sigs) && w.nodes[i].round < MAX_U32
    ensures Inv(net, SetNode(w, i, DoCommit(net.cfg, w.nodes[i], sigs)))
  {
    var n := w.nodes[i];
    NodeFacts(net, w, i);
    hide Inv, NodeInv;
    CommitKeepsSelf(net.cfg, n, sigs);
    CommitKeepsNode(net, w.ballots, n, sigs);
    hide DoCommit;
    SilentStep(net, w, i, DoCommit(net.cfg, n, sigs));
  }

  lemma CommitKeepsNode(net: Net, ballots: set<Ballot>, n: Node, sigs: seq<ValidatorSig>)
    requires NodeInv(net, ballots, n) && IsCertificate(net.cfg, n, sigs) && n.round < MAX_U32
    ensures NodeInv(net, ballots, DoCommit(net.cfg, n, sigs))
  {
    if Commit(net.cfg.Rules(), n.chain, n.phase.block.(commitSigs := sigs)).1 == Accepted {
      hide NodeInv, DoCommit, Commit;
      AcceptedStepKeeps(net, ballots, n, sigs);
    } else {
      hide NodeInv, DoCommit, Commit;
      RejectedStepKeeps(net, ballots, n, sigs);
    }
  }

  lemma StoreFailStep(net: Net, w: World, i: Bytes, sigs: seq<ValidatorSig>, partial: Ledger)
    requires Inv(net, w) && i in w.nodes && CommitBreaks(net.cfg, w.nodes[i], sigs, partial) && w.nodes[i].round < MAX_U32
    ensures Inv(net, SetNode(w, i, FailCommit(w.nodes[i], partial)))
  {
    var n := w.nodes[i];
    BreakKeepsBlocks(net.cfg, n, sigs, partial);
    NodeFacts(net, w, i);
    hide Inv, NodeInv, CommitBreaks;
    var chain' := ChainState(partial, n.chain.tip);
    SameBlocksKeep(net, w.ballots, n, chain');
    NextRoundKeeps(net, w.ballots, n.(chain := chain'));
    SilentStep(net, w, i, FailCommit(n, partial));
  }

  lemma CommitKeepsSelf(cfg: Config, n: Node, sigs: seq<ValidatorSig>)
    requires IsCertificate(cfg, n, sigs) && n.round < MAX_U32
    ensures DoCommit(cfg, n, sigs).self == n.self
  {
    hide Commit;
  }

  lemma ProposalStep(net: Net, w: World, i: Bytes, p: Proposal)
    requires Inv(net, w) && i in w.nodes
    ensures Inv(net, SetNode(w, i, HandleProposal(w.nodes[i], p)))
  {
    var n := w.nodes[i];
    var n' := HandleProposal(n, p);
    hide AllDecided, BucketInv;
    forall b | b in w.ballots && b.voter == i ensures Fits(net.cfg, n', b) {
      assert Fits(net.cfg, n, b);
    }
    SilentStep(net, w, i, n');
  }

  lemma EnterStep(net: Net, w: World, i: Bytes)
    requires Inv(net, w) && i in w.nodes && w.nodes[i].phase.Start? && w.nodes[i].chain.tip < MAX_U64
    ensures Inv(net, SetNode(w, i, w.nodes[i].(phase := AwaitProposal)))
  {
    var n := w.nodes[i];
    var n' := n.(phase := AwaitProposal);
    hide AllDecided, BucketInv;
    forall b | b in w.ballots && b.voter == i ensures Fits(net.cfg, n', b) {
      assert Fits(net.cfg, n, b);
    }
    SilentStep(net, w, i, n');
  }

  lemma GiveUpStep(net: Net, w: World, i: Bytes)
    requires Inv(net, w) && i in w.nodes && w.nodes[i].round < MAX_U32
    ensures Inv(net, SetNode(w, i, NextRound(w.nodes[i])))
  {
    NextRoundKeeps(net, w.ballots, w.nodes[i]);
    SilentStep(net, w, i, NextRound(w.nodes[i]));
  }

  lemma MessageKeepsInv(net: Net, w: World, e: Event)
    requires Inv(net, w) && e.node in w.nodes && (e.action.ReceiveProposal? || e.action.ReceiveVote?)
    ensures Inv(net, Next(net, w, e))
  {
    if e.action.ReceiveProposal? {
      ProposalStep(net, w, e.node, e.action.p);
    } else if AuthenticVote(net, w, e.action.v) {
      VoteStep(net, w, e.node, e.action.want, e.action.v);
    }
    hide Inv, AuthenticVote, AuthenticProposal, HandleProposal, HandleVote;
  }

  lemma StepKeepsInv(net: Net, w: World, e: Event)
    requires Inv(net, w)
    ensures Inv(net, Next(net, w, e))
  {
    hide NodeInv, NoEquivocation, PrecommitsBacked, CanPrevote, MustRefuse, CanPrecommit, IsCertificate, DoCommit, CommitBreaks,
      FailCommit, AuthenticVote, AuthenticProposal, HandleProposal, HandleVote, Published, BallotOf, NextRound;
    if e.node in w.nodes {
      var n := w.nodes[e.node];
      match e.action
      case ReceiveProposal(_) => MessageKeepsInv(net, w, e);
      case ReceiveVote(_, _) => MessageKeepsInv(net, w, e);
      case EnterRound(txs, timestamp) =>
        if n.phase.Start? && n.chain.tip < MAX_U64 {
          EnterStep(net, w, e.node);
        }
      case ReadProposal =>
        if CanPrevote(net.cfg, n) {
          PrevoteStep(net, w, e.node);
        } else if n.round < MAX_U32 {
          GiveUpStep(net, w, e.node);
        }
      case SeePrevotes =>
        if CanPrecommit(net.cfg, n) {
          PrecommitStep(net, w, e.node);
        }
      case SeePrecommits(sigs) =>
        if IsCertificate(net.cfg, n, sigs) && n.round < MAX_U32 {
          CommitStep(net, w, e.node, sigs);
        }
      case StoreFails(sigs, partial) =>
        if CommitBreaks(net.cfg, n, sigs, partial) && n.round < MAX_U32 {
          StoreFailStep(net, w, e.node, sigs, partial);
        }
      case GiveUp =>
        if n.round < MAX_U32 {
          GiveUpStep(net, w, e.node);
        }
    }
  }

  lemma {:induction false} RunsKeepInv(net: Net, run: seq<Event>)
    ensures Inv(net, Exec(net, run))
  {
    if run == [] {
      FreshBootIsGood(net.cfg.Rules());
    } else {
      RunsKeepInv(net, run[..|run| - 1]);
      hide Inv, Next;
      StepKeepsInv(net, Exec(net, run[..|run| - 1]), run[|run| - 1]);
    }
  }
}
