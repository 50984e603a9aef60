/**
 The engine object (consensus/pbft.go): its maps, its handlers, and runRound cut at its waits. Every
 method is proved to make exactly the step of EngineModel that the protocol interleaves.
 */
module Engines {
  import opened Base
  import opened Text
  import opened Blocks
  import Quorums
  import opened Votes
  import opened Ledgers
  import opened EngineModel
  import opened Chains
  import Merkle

  class Engine {
    const cfg: Config
    const self: Bytes
    const chain: Chain
    var round: u32
    var phase: Phase
    var proposals: map<Bytes, Proposal>
    var prevotes: Bucket
    var precommits: Bucket
    ghost var decided: map<u64, u32>

    ghost predicate Valid()
      reads this, chain, chain.store
    {
      chain.Valid() && chain.crypto == cfg.crypto
    }

    ghost function State(): Node
      reads this, chain, chain.store
    {
      Node(self, chain.State(), round, phase, proposals, prevotes, precommits, decided)
    }

    /** NewEngine sorts a copy of the configured validators. */
    constructor (validators: seq<Bytes>, self: Bytes, chain: Chain)
      requires chain.Valid()
      ensures Valid() && this.chain == chain && this.self == self
      ensures cfg == Config(chain.crypto, SortTexts(validators))
      ensures State() == Node(self, chain.State(), 0, Start, map[], map[], map[], map[])
    {
      this.cfg := Config(chain.crypto, SortTexts(validators));
      this.self, this.chain := self, chain;
      round, phase, proposals, prevotes, precommits, decided := 0, Start, map[], map[], map[], map[];
    }

    method HandleProposal(p: Proposal)
      modifies this
      ensures State() == EngineModel.HandleProposal(old(State()), p)
    {
      var key := RoundKey(p.block.height, p.round);
      if key !in proposals {
        proposals := proposals[key := p];
      }
    }

    method HandleVote(want: VoteType, v: Vote)
      modifies this
      ensures State() == EngineModel.HandleVote(cfg, old(State()), want, v)
    {
      if v.kind != want || !VoteVerify(cfg.crypto, v) {
        return;
      }
      if v.voter !in cfg.Members() {
        return;
      }
      var key := RoundKey(v.height, v.round);
      var bucket := if want == Precommit then precommits else prevotes;
      var m := VotesUnder(bucket, key);
      if v.voter !in m {
        m := m[v.voter := v];
      }
      if want == Precommit {
        precommits := precommits[key := m];
      } else {
        prevotes := prevotes[key := m];
      }
    }

    /** countVotes. */
    method CountVotes(bucket: Bucket, key: Bytes, blockHash: Bytes) returns (n: nat)
      ensures n == EngineModel.CountVotes(bucket, key, blockHash)
    {
      n := 0;
      if key !in bucket {
        return;
      }
      var m := bucket[key];
      var rest := m.Keys;
      while rest != {}
        invariant rest <= m.Keys
        invariant n == |set v | v in m && v !in rest && m[v].blockHash == blockHash|
      {
        var voter :| voter in rest;
        ghost var counted := set v | v in m && v !in rest && m[v].blockHash == blockHash;
        ghost var next := set v | v in m && v !in rest - {voter} && m[v].blockHash == blockHash;
        assert next == counted + if m[voter].blockHash == blockHash then {voter} else {};
        if m[voter].blockHash == blockHash {
          n := n + 1;
        }
        rest := rest - {voter};
      }
      assert Matching(bucket, key, blockHash) == set v | v in m && v !in rest && m[v].blockHash == blockHash;
    }

    /** The certificate loop of runRound, over the filed precommits in whatever order they come. */
    method CollectSigs(votes: map<Bytes, Vote>, blockHash: Bytes, round: u32) returns (sigs: seq<ValidatorSig>)
      ensures ListsVotes(votes, blockHash, round, sigs)
    {
      sigs := [];
      var rest := votes.Keys;
      while rest != {}
        invariant rest <= votes.Keys
        invariant ListsVotes(map v | v in votes && v !in rest :: votes[v], blockHash, round, sigs)
      {
        var voter :| voter in rest;
        var v := votes[voter];
        ghost var done := map v | v in votes && v !in rest :: votes[v];
        ghost var next := map v | v in votes && v !in rest - {voter} :: votes[v];
        assert next == done[voter := v];
        ListOneMore(done, voter, v, blockHash, round, sigs);
        if v.blockHash == blockHash {
          sigs := sigs + [ValidatorSig(voter, round, v.signature)];
        }
        rest := rest - {voter};
      }
      assert votes == map v | v in votes && v !in rest :: votes[v];
    }

    /** gc(height), map by map. */
    method Gc(height: u64)
      modifies this
      ensures State() == EngineModel.Gc(old(State()), height)
    {
      var p := HeightPrefix(height);
      proposals := DeletePrefixed(proposals, p);
      prevotes := DeletePrefixed(prevotes, p);
      precommits := DeletePrefixed(precommits, p);
    }

    /**
     Entering a round: the proposer builds on its head and publishes; if its head cannot be read the
     round fails at once.
     */
    method EnterRound(txs: seq<Transaction>, timestamp: i64) returns (published: Option<Proposal>)
      requires Valid() && phase.Start?
      modifies this
      ensures published.Some? ==>
        && IsProposer(cfg, old(State())) && chain.tip in chain.store.ledger.blocks
        && published.value == BuildProposal(cfg, old(State()), txs, timestamp)
        && State() == old(State()).(phase := AwaitProposal)
      ensures chain.store.reliable && IsProposer(cfg, old(State())) && chain.tip in chain.store.ledger.blocks ==> published.Some?
      ensures published.None? ==>
        State() == if IsProposer(cfg, old(State())) then NextRound(old(State())) else old(State()).(phase := AwaitProposal)
    {
      published := None;
      var height := NextHeight(chain.tip);
      if ProposerFor(cfg.validators, height, round) == self {
        var ok, head := chain.store.GetBlock(chain.tip);
        if !ok || head.None? {
          GiveUp();
          return;
        }
        var c := cfg.crypto;
        var block := Block(height, BlockHash(c, head.value), timestamp, self, txs, [], []);
        block := Merkle.ComputeMerkleRoot(c, block);
        var p := Proposal(block, round, []);
        published := Some(p.(proposerSig := c.sign(self, ProposalBytes(p))));
      }
      phase := AwaitProposal;
    }

    /** A wait that timed out, or any other failed round: on to the next. */
    method GiveUp()
      modifies this
      ensures State() == NextRound(old(State()))
      ensures round == (old(round) + 1) % 0x1_0000_0000 && phase == Start
    {
      round := if round == MAX_U32 then 0 else round + 1;
      phase := Start;
    }

    /** validateProposal. */
    method ValidateProposal(p: Proposal, expectedProposer: Bytes, expectedHeight: u64) returns (ok: bool)
      ensures ok <==> ValidProposal(cfg, p, expectedProposer, expectedHeight)
    {
      if p.block.proposer != expectedProposer || p.block.height != expectedHeight {
        return false;
      }
      var pub := DecodeAddress(expectedProposer);
      if pub.None? || !cfg.crypto.verify(pub.value, ProposalBytes(p), p.proposerSig) {
        return false;
      }
      var txs := p.block.transactions;
      for i := 0 to |txs|
        invariant forall t :: t in txs[..i] ==> TxVerify(cfg.crypto, t)
      {
        if !TxVerify(cfg.crypto, txs[i]) {
          assert txs[i] in txs;
          return false;
        }
        assert txs[..i + 1] == txs[..i] + [txs[i]];
      }
      assert txs[..|txs|] == txs;
      return true;
    }

    method SignVote(kind: VoteType, blockHash: Bytes) returns (v: Vote)
      requires Valid()
      ensures v == OwnVote(cfg, State(), kind, blockHash)
    {
      v := Vote(kind, NextHeight(chain.tip), round, blockHash, self, []);
      var bytes := BuildSigningBytes(v);
      v := v.(signature := cfg.crypto.sign(self, bytes));
    }

    /** The first wait of runRound ends: prevote for a valid proposal, give the round up on a bad one. */
    method ReadProposal() returns (vote: Option<Vote>)
      requires Valid()
      modifies this
      ensures State() ==
        if CanPrevote(cfg, old(State())) then DoPrevote(cfg, old(State()))
        else if MustRefuse(cfg, old(State())) then NextRound(old(State()))
        else old(State())
      ensures vote ==
        if CanPrevote(cfg, old(State())) then Some(OwnVote(cfg, old(State()), Prevote, BlockHash(cfg.crypto, State().phase.block)))
        else None
    {
      vote := None;
      var height := NextHeight(chain.tip);
      var key := RoundKey(height, round);
      if !phase.AwaitProposal? || key !in proposals {
        return;
      }
      var prop := proposals[key];
      var ok := ValidateProposal(prop, ProposerFor(cfg.validators, height, round), height);
      if !ok {
        GiveUp();
        return;
      }
      var v := SignVote(Prevote, BlockHash(cfg.crypto, prop.block));
      vote := Some(v);
      phase := AwaitPrevotes(prop.block);
    }

    /** The second wait: precommit once a quorum has prevoted this block. */
    method SeePrevotes() returns (vote: Option<Vote>)
      requires Valid()
      modifies this
      ensures State() == if CanPrecommit(cfg, old(State())) then DoPrecommit(cfg, old(State())) else old(State())
      ensures vote ==
        if CanPrecommit(cfg, old(State())) then Some(OwnVote(cfg, old(State()), Precommit, BlockHash(cfg.crypto, State().phase.block)))
        else None
    {
      hide BlockHash, RoundKey, EngineModel.CountVotes, VotesUnder, OwnVote, SigningBytes, Quorums.Quorum;
      vote := None;
      if !phase.AwaitPrevotes? {
        return;
      }
      var hash := BlockHash(cfg.crypto, phase.block);
      var n := CountVotes(prevotes, RoundKey(NextHeight(chain.tip), round), hash);
      if n >= cfg.QuorumSize() {
        var v := SignVote(Precommit, hash);
        vote := Some(v);
        phase := AwaitPrecommits(phase.block);
      }
    }

    /**
     The third wait: once a quorum has precommitted, assemble the certificate and commit. The engine
     goes to the next height, or, if CommitBlock returns an error, to the next round.
     */
    method SeePrecommits() returns (committed: Option<Block>)
      requires Valid()
      modifies this, chain, chain.store
      ensures Valid()
      ensures !CanCommit(cfg, old(State())) ==> committed.None? && State() == old(State())
      ensures CanCommit(cfg, old(State())) ==> exists sigs ::
        && IsCertificate(cfg, old(State()), sigs)
        && (State() == DoCommit(cfg, old(State()), sigs)
            || exists partial :: !chain.store.reliable && CommitBreaks(cfg, old(State()), sigs, partial) && State() == FailCommit(old(State()), partial))
    {
      committed := None;
      if !phase.AwaitPrecommits? {
        return;
      }
      var height := NextHeight(chain.tip);
      var key := RoundKey(height, round);
      var hash := BlockHash(cfg.crypto, phase.block);
      var n := CountVotes(precommits, key, hash);
      if n < cfg.QuorumSize() {
        return;
      }
      var sigs := CollectSigs(VotesUnder(precommits, key), hash, round);
      committed := Decide(sigs);
    }

    /** The end of runRound: commit the certified block. */
    method Decide(sigs: seq<ValidatorSig>) returns (committed: Option<Block>)
      requires Valid() && CanCommit(cfg, State()) && IsCertificate(cfg, State(), sigs)
      modifies this, chain, chain.store
      ensures Valid()
      ensures State() == DoCommit(cfg, old(State()), sigs)
        || exists partial :: !chain.store.reliable && CommitBreaks(cfg, old(State()), sigs, partial) && State() == FailCommit(old(State()), partial)
    {
      hide Commit, CommitPlan, BrokenOff, HeaderBytes, VotesUnder, IsCertificate;
      committed := None;
      var block := phase.block.(commitSigs := sigs);
      var height := NextHeight(chain.tip);
      ghost var before := State();
      var outcome := chain.CommitBlock(block, cfg.QuorumSize(), cfg.validators);
      assert cfg.Rules() == Rules(chain.crypto, cfg.QuorumSize(), set v | v in cfg.validators);
      if outcome == Done(Accepted) {
        decided := decided[height := round];
        round, phase := 0, Start;
        Gc(height);
        committed := Some(block);
      } else {
        assert outcome.StoreError? ==> CommitBreaks(cfg, before, sigs, chain.store.ledger);
        GiveUp();
        assert outcome.StoreError? ==> State() == FailCommit(before, chain.store.ledger);
      }
    }
  }

  lemma ListOneMore(votes: map<Bytes, Vote>, voter: Bytes, v: Vote, hash: Bytes, round: u32, sigs: seq<ValidatorSig>)
    requires ListsVotes(votes, hash, round, sigs) && voter !in votes
    ensures ListsVotes(votes[voter := v], hash, round,
      if v.blockHash == hash then sigs + [ValidatorSig(voter, round, v.signature)] else sigs)
  {
    var votes' := votes[voter := v];
    var sigs' := if v.blockHash == hash then sigs + [ValidatorSig(voter, round, v.signature)] else sigs;
    forall u | u in votes' && votes'[u].blockHash == hash ensures exists k :: 0 <= k < |sigs'| && sigs'[k].validator == u {
      if u == voter {
        assert sigs'[|sigs|].validator == u;
      } else {
        var k :| 0 <= k < |sigs| && sigs[k].validator == u;
        assert sigs'[k].validator == u;
      }
    }
  }

  /** One of gc's loops: visit every key, delete those with the prefix. */
  method DeletePrefixed<T>(m: map<Bytes, T>, p: Bytes) returns (r: map<Bytes, T>)
    ensures r == DropPrefixed(m, p)
  {
    r := m;
    var rest := m.Keys;
    while rest != {}
      invariant rest <= m.Keys
      invariant r == map k | k in m && (k in rest || !HasPrefix(k, p)) :: m[k]
    {
      var k :| k in rest;
      if HasPrefix(k, p) {
        r := r - {k};
      }
      rest := rest - {k};
    }
  }
}
