/**
 One validator's engine (consensus/pbft.go) as pure functions: its message handlers, and runRound
 cut at the points where it waits. The class in Engine.dfy is proved against these functions; the
 protocol in Protocol.dfy interleaves them.
 */
module EngineModel {
  import opened Base
  import opened Text
  import opened Blocks
  import opened Quorums
  import opened Votes
  import opened Ledgers
  import Merkle

  /** The static validator list, sorted by NewEngine. */
  datatype Config = Config(crypto: Crypto, validators: seq<Bytes>) {
    function Members(): set<Bytes> {
      set v | v in validators
    }

    function QuorumSize(): int {
      Quorum(|validators|)
    }

    function Rules(): Rules {
      Ledgers.Rules(crypto, QuorumSize(), Members())
    }
  }

  /** proposerFor: the sum wraps in 64 bits before the remainder is taken. */
  function ProposerFor(validators: seq<Bytes>, height: u64, round: u32): Bytes {
    if |validators| == 0 then []
    else validators[(height + round) % 0x1_0000_0000_0000_0000 % |validators|]
  }

  type Bucket = map<Bytes, map<Bytes, Vote>>

  /** Where runRound is: about to start, or in one of its three waits. */
  datatype Phase = Start | AwaitProposal | AwaitPrevotes(block: Block) | AwaitPrecommits(block: Block)

  /** `decided` is a history variable: the round in which each height was committed. */
  datatype Node = Node(
    self: Bytes,
    chain: ChainState,
    round: u32,
    phase: Phase,
    proposals: map<Bytes, Proposal>,
    prevotes: Bucket,
    precommits: Bucket,
    decided: map<u64, u32>)

  /** The height runHeight works on. */
  function HeightOf(n: Node): u64 {
    NextHeight(n.chain.tip)
  }

  function KeyOf(n: Node): Bytes {
    RoundKey(HeightOf(n), n.round)
  }

  // ---------------------------------------------------------------- message handlers

  function HandleProposal(n: Node, p: Proposal): Node {
    var key := RoundKey(p.block.height, p.round);
    if key in n.proposals then n else n.(proposals := n.proposals[key := p])
  }

  function VotesUnder(bucket: Bucket, key: Bytes): map<Bytes, Vote> {
    if key in bucket then bucket[key] else map[]
  }

  /** First vote of a voter wins. */
  function File(bucket: Bucket, v: Vote): Bucket {
    var key := RoundKey(v.height, v.round);
    var m := VotesUnder(bucket, key);
    bucket[key := if v.voter in m then m else m[v.voter := v]]
  }

  predicate Admissible(cfg: Config, want: VoteType, v: Vote) {
    v.kind == want && VoteVerify(cfg.crypto, v) && v.voter in cfg.Members()
  }

  function HandleVote(cfg: Config, n: Node, want: VoteType, v: Vote): Node {
    if !Admissible(cfg, want, v) then n
    else if want == Prevote then n.(prevotes := File(n.prevotes, v))
    else n.(precommits := File(n.precommits, v))
  }

  /** The voters filed under `key` for `hash`. */
  function Matching(bucket: Bucket, key: Bytes, hash: Bytes): set<Bytes> {
    var m := VotesUnder(bucket, key);
    set v | v in m && m[v].blockHash == hash
  }

  function CountVotes(bucket: Bucket, key: Bytes, hash: Bytes): nat {
    |Matching(bucket, key, hash)|
  }

  function DropPrefixed<T>(m: map<Bytes, T>, p: Bytes): map<Bytes, T> {
    map k | k in m && !HasPrefix(k, p) :: m[k]
  }

  function Gc(n: Node, height: u64): Node {
    var p := HeightPrefix(height);
    n.(proposals := DropPrefixed(n.proposals, p),
       prevotes := DropPrefixed(n.prevotes, p),
       precommits := DropPrefixed(n.precommits, p))
  }

  // ---------------------------------------------------------------- runRound between its waits

  predicate ValidProposal(cfg: Config, p: Proposal, proposer: Bytes, height: u64) {
    && p.block.proposer == proposer
    && p.block.height == height
    && SignedBy(cfg.crypto, proposer, ProposalBytes(p), p.proposerSig)
    && forall t :: t in p.block.transactions ==> TxVerify(cfg.crypto, t)
  }

  /** The block a proposer builds on its own tip. */
  function BuildProposal(cfg: Config, n: Node, txs: seq<Transaction>, timestamp: i64): Proposal
    requires n.chain.tip in n.chain.ledger.blocks
  {
    var c := cfg.crypto;
    var block := Block(HeightOf(n), BlockHash(c, n.chain.ledger.blocks[n.chain.tip]), timestamp, n.self, txs,
                       Merkle.MerkleRoot(c, txs), []);
    var unsigned := Proposal(block, n.round, []);
    unsigned.(proposerSig := c.sign(n.self, ProposalBytes(unsigned)))
  }

  /** runHeight's round++, which wraps in 32 bits. */
  function NextRound(n: Node): Node {
    n.(round := if n.round == MAX_U32 then 0 else n.round + 1, phase := Start)
  }

  /** The round counter wraps in 32 bits; nothing else changes but the phase. */
  lemma NextRoundExactly(n: Node)
    ensures NextRound(n).round == (n.round + 1) % 0x1_0000_0000 && NextRound(n).phase == Start
    ensures NextRound(n).(round := n.round, phase := n.phase) == n
  {
  }

  predicate IsProposer(cfg: Config, n: Node) {
    ProposerFor(cfg.validators, HeightOf(n), n.round) == n.self
  }

  /** The proposal waited for has arrived and is acceptable. */
  predicate CanPrevote(cfg: Config, n: Node) {
    && n.phase.AwaitProposal?
    && KeyOf(n) in n.proposals
    && ValidProposal(cfg, n.proposals[KeyOf(n)], ProposerFor(cfg.validators, HeightOf(n), n.round), HeightOf(n))
  }

  /** The proposal waited for has arrived and is not acceptable: the round is given up. */
  predicate MustRefuse(cfg: Config, n: Node) {
    && n.phase.AwaitProposal?
    && KeyOf(n) in n.proposals
    && !CanPrevote(cfg, n)
  }

  /** The vote an engine signs for `hash` where it stands. */
  function OwnVote(cfg: Config, n: Node, kind: VoteType, hash: Bytes): Vote {
    Vote(kind, HeightOf(n), n.round, hash, n.self, cfg.crypto.sign(n.self, SigningBytes(kind, HeightOf(n), n.round, hash)))
  }

  function DoPrevote(cfg: Config, n: Node): Node
    requires CanPrevote(cfg, n)
  {
    n.(phase := AwaitPrevotes(n.proposals[KeyOf(n)].block))
  }

  predicate CanPrecommit(cfg: Config, n: Node) {
    && n.phase.AwaitPrevotes?
    && CountVotes(n.prevotes, KeyOf(n), BlockHash(cfg.crypto, n.phase.block)) >= cfg.QuorumSize()
  }

  function DoPrecommit(cfg: Config, n: Node): Node
    requires CanPrecommit(cfg, n)
  {
    n.(phase := AwaitPrecommits(n.phase.block))
  }

  predicate CanCommit(cfg: Config, n: Node) {
    && n.phase.AwaitPrecommits?
    && CountVotes(n.precommits, KeyOf(n), BlockHash(cfg.crypto, n.phase.block)) >= cfg.QuorumSize()
  }

  /** `sigs` lists the filed votes for `hash`, each once, in any order. */
  predicate ListsVotes(votes: map<Bytes, Vote>, hash: Bytes, round: u32, sigs: seq<ValidatorSig>) {
    && (forall k :: 0 <= k < |sigs| ==>
          && sigs[k].validator in votes && votes[sigs[k].validator].blockHash == hash
          && sigs[k] == ValidatorSig(sigs[k].validator, round, votes[sigs[k].validator].signature))
    && (forall v :: v in votes && votes[v].blockHash == hash ==> exists k :: 0 <= k < |sigs| && sigs[k].validator == v)
    && (forall j, k :: 0 <= j < k < |sigs| ==> sigs[j].validator != sigs[k].validator)
  }

  /** A certificate has exactly one entry for each filed vote for the hash. */
  lemma CertificateSize(votes: map<Bytes, Vote>, hash: Bytes, round: u32, sigs: seq<ValidatorSig>)
    requires ListsVotes(votes, hash, round, sigs)
    ensures |sigs| == |set v | v in votes && votes[v].blockHash == hash|
  {
    var voters := set k | 0 <= k < |sigs| :: sigs[k].validator;
    DistinctEntries(sigs);
    assert voters == set v | v in votes && votes[v].blockHash == hash;
  }

  lemma {:induction false} DistinctEntries(sigs: seq<ValidatorSig>)
    requires forall j, k :: 0 <= j < k < |sigs| ==> sigs[j].validator != sigs[k].validator
    ensures |set k | 0 <= k < |sigs| :: sigs[k].validator| == |sigs|
    decreases |sigs|
  {
    if sigs != [] {
      var init, last := sigs[..|sigs| - 1], sigs[|sigs| - 1];
      DistinctEntries(init);
      var before := set k | 0 <= k < |init| :: init[k].validator;
      assert (set k | 0 <= k < |sigs| :: sigs[k].validator) == before + {last.validator};
      assert last.validator !in before;
    }
  }

  predicate IsCertificate(cfg: Config, n: Node, sigs: seq<ValidatorSig>) {
    && CanCommit(cfg, n)
    && ListsVotes(VotesUnder(n.precommits, KeyOf(n)), BlockHash(cfg.crypto, n.phase.block), n.round, sigs)
  }

  /** The tail of runRound: commit, then collect garbage and go to the next height, or fail the round. */
  function DoCommit(cfg: Config, n: Node, sigs: seq<ValidatorSig>): Node
    requires IsCertificate(cfg, n, sigs)
  {
    var block := n.phase.block.(commitSigs := sigs);
    var (chain, verdict) := Commit(cfg.Rules(), n.chain, block);
    if verdict == Accepted then
      Gc(n.(chain := chain, round := 0, phase := Start, decided := n.decided[HeightOf(n) := n.round]), HeightOf(n))
    else
      NextRound(n.(chain := chain))
  }

  /** The store can fail during this commit and leave `partial`. */
  ghost predicate CommitBreaks(cfg: Config, n: Node, sigs: seq<ValidatorSig>, partial: Ledger) {
    IsCertificate(cfg, n, sigs) && BrokenOff(cfg.Rules(), n.chain, n.phase.block.(commitSigs := sigs), partial)
  }

  lemma BreakKeepsBlocks(cfg: Config, n: Node, sigs: seq<ValidatorSig>, partial: Ledger)
    requires CommitBreaks(cfg, n, sigs, partial)
    ensures partial.blocks == n.chain.ledger.blocks
  {
    BrokenOffKeepsBlocks(cfg.Rules(), n.chain, n.phase.block.(commitSigs := sigs), partial);
  }

  /** The same tail when the store fails during the commit: the round fails with `partial` in the store. */
  function FailCommit(n: Node, partial: Ledger): Node {
    NextRound(n.(chain := ChainState(partial, n.chain.tip)))
  }

  function FreshNode(cfg: Config, self: Bytes): Node {
    Node(self, Boot(cfg.crypto, FRESH), 0, Start, map[], map[], map[], map[])
  }

  // ---------------------------------------------------------------- filed votes

  /** What handleVote's checks and the key leave true of every filed vote. */
  predicate Filed(cfg: Config, key: Bytes, voter: Bytes, v: Vote, kind: VoteType) {
    && v.voter == voter && Admissible(cfg, kind, v)
    && key == RoundKey(v.height, v.round)
  }

  predicate WellFiled(cfg: Config, bucket: Bucket, kind: VoteType) {
    forall key, voter :: key in bucket && voter in bucket[key] ==> Filed(cfg, key, voter, bucket[key][voter], kind)
  }

  /** Filing keeps buckets well filed, and a voter's filed vote is never replaced. */
  lemma FileKeeps(cfg: Config, bucket: Bucket, kind: VoteType, v: Vote)
    requires WellFiled(cfg, bucket, kind) && Admissible(cfg, kind, v)
    ensures WellFiled(cfg, File(bucket, v), kind)
    ensures forall key, voter :: key in bucket && voter in bucket[key] ==>
      key in File(bucket, v) && voter in File(bucket, v)[key] && File(bucket, v)[key][voter] == bucket[key][voter]
  {
  }

  /** A vote filed under a round's key is a vote for exactly that height and round. */
  lemma FiledVoteIsForRound(cfg: Config, bucket: Bucket, kind: VoteType, h: u64, r: u32, voter: Bytes)
    requires WellFiled(cfg, bucket, kind)
    requires RoundKey(h, r) in bucket && voter in bucket[RoundKey(h, r)]
    ensures var v := bucket[RoundKey(h, r)][voter]; v.height == h && v.round == r && v.voter == voter && v.kind == kind
  {
    var v := bucket[RoundKey(h, r)][voter];
    assert Filed(cfg, RoundKey(h, r), voter, v, kind);
    RoundKeyInjective(h, r, v.height, v.round);
  }

  /** gc(height) drops the buckets of that height and keeps every other, contents and all. */
  lemma GcIsExact<T>(m: map<Bytes, T>, height: u64, h: u64, r: u32)
    requires RoundKey(h, r) in m
    ensures RoundKey(h, r) in DropPrefixed(m, HeightPrefix(height)) <==> h != height
    ensures h != height ==> DropPrefixed(m, HeightPrefix(height))[RoundKey(h, r)] == m[RoundKey(h, r)]
  {
    PrefixSelectsHeight(height, h, r);
  }

  /**
   Certificate completeness: whatever votes were delivered, the certificate runRound assembles
   passes VerifyCommitQuorum.
   */
  lemma CertificateIsValid(cfg: Config, n: Node, sigs: seq<ValidatorSig>)
    requires WellFiled(cfg, n.precommits, Precommit) && IsCertificate(cfg, n, sigs)
    requires n.phase.block.height == HeightOf(n)
    ensures QuorumMet(cfg.crypto, n.phase.block.(commitSigs := sigs), cfg.QuorumSize(), cfg.Members())
  {
    var c, hash := cfg.crypto, BlockHash(cfg.crypto, n.phase.block);
    var block := n.phase.block.(commitSigs := sigs);
    assert HeaderBytes(block) == HeaderBytes(n.phase.block);
    var votes := VotesUnder(n.precommits, KeyOf(n));
    var matching := Matching(n.precommits, KeyOf(n), hash);
    forall voter | voter in matching ensures voter in CommitSigners(c, block, sigs, cfg.Members()) {
      FiledVoteIsForRound(cfg, n.precommits, Precommit, HeightOf(n), n.round, voter);
      assert Filed(cfg, KeyOf(n), voter, votes[voter], Precommit);
      var k :| 0 <= k < |sigs| && sigs[k].validator == voter;
      PrecommitIsCommitSig(c, block, votes[voter]);
      assert ValidCommitSig(c, block, sigs[k]);
    }
    SubsetSize(matching, CommitSigners(c, block, sigs, cfg.Members()));
  }

  // ---------------------------------------------------------------- proposer rotation

  /** Nodes given the same validators in any order agree on every proposer. */
  lemma ProposerAgreement(given: seq<Bytes>, other: seq<Bytes>, height: u64, round: u32)
    requires multiset(given) == multiset(other)
    ensures ProposerFor(SortTexts(given), height, round) == ProposerFor(SortTexts(other), height, round)
  {
    SortingForgetsOrder(given, other);
  }

  /** The first validator leads round 0 of height 0, and the next round's leader is the next height's. */
  lemma LeadersRotate(validators: seq<Bytes>, height: u64, round: u32)
    requires validators != []
    ensures ProposerFor(validators, 0, 0) == validators[0]
    ensures height < MAX_U64 && round < MAX_U32 ==>
      ProposerFor(validators, height, round + 1) == ProposerFor(validators, height + 1, round)
  {
    assert height + (round + 1) == (height + 1) + round;
  }

  /** The proposer `i` rounds after `first`. */
  function Turn(validators: seq<Bytes>, height: u64, first: u32, i: nat): Bytes
    requires first + i <= MAX_U32
  {
    ProposerFor(validators, height, first + i)
  }

  lemma {:induction false} MultipleIsLarge(n: int, t: int)
    requires n > 0 && t > 0
    ensures n * t >= n
    decreases t
  {
    if t > 1 {
      MultipleIsLarge(n, t - 1);
      assert n * t == n * (t - 1) + n;
    }
  }

  lemma QuotientIsUnique(n: int, q: int, k: int, d: int, m: int)
    requires n * q + k == n * d + m && 0 <= k < n && 0 <= m < n
    ensures q == d && k == m
  {
    assert n * (q - d) == m - k && n * (d - q) == k - m;
    if q > d {
      MultipleIsLarge(n, q - d);
    } else if q < d {
      MultipleIsLarge(n, d - q);
    }
  }

  /** The remainder, kept apart from the other arithmetic. */
  function Mod(x: nat, n: nat): (k: nat)
    requires n > 0
    ensures k < n
  {
    x % n
  }

  lemma RemainderIs(x: nat, n: nat, q: int, k: int)
    requires 0 <= k < n && x == n * q + k
    ensures Mod(x, n) == k
  {
    QuotientIsUnique(n, q, k, x / n, x % n);
  }

  /** Among n consecutive numbers exactly one leaves a given remainder. */
  lemma RemainderTaken(a: nat, n: nat, k: nat) returns (i: nat)
    requires k < n
    ensures i < n && Mod(a + i, n) == k
  {
    var q, m := a / n, a % n;
    assert a == n * q + m;
    if k >= m {
      i := k - m;
      RemainderIs(a + i, n, q, k);
    } else {
      i := k + n - m;
      assert n * (q + 1) == n * q + n;
      RemainderIs(a + i, n, q + 1, k);
    }
  }

  lemma RemaindersDiffer(a: nat, n: nat, i: nat, j: nat)
    requires i < j < n
    ensures Mod(a + i, n) != Mod(a + j, n)
  {
    var p, q, k, m := (a + i) / n, (a + j) / n, (a + i) % n, (a + j) % n;
    assert a + i == n * p + k && a + j == n * q + m;
    if k == m {
      MultiplesDiffer(n, p, q, j - i);
    }
  }

  lemma MultiplesDiffer(n: int, p: int, q: int, gap: nat)
    requires 0 < gap < n
    ensures n * q != n * p + gap
  {
    if n * q == n * p + gap {
      assert n * (q - p) == gap && n * (p - q) == 0 - gap;
      if q > p {
        MultipleIsLarge(n, q - p);
      } else if q < p {
        MultipleIsLarge(n, p - q);
      }
    }
  }

  predicate AllDifferent(validators: seq<Bytes>) {
    forall i, j :: 0 <= i < j < |validators| ==> validators[i] != validators[j]
  }

  /** With distinct validators, two of n consecutive rounds have two proposers. */
  lemma TurnsDiffer(validators: seq<Bytes>, height: u64, first: u32, i: nat, j: nat)
    requires AllDifferent(validators) && i < j < |validators|
    requires first + |validators| - 1 <= MAX_U32 && height + first + |validators| - 1 <= MAX_U64
    ensures Turn(validators, height, first, i) != Turn(validators, height, first, j)
  {
    TurnIs(validators, height, first, i);
    TurnIs(validators, height, first, j);
    RemaindersDiffer(height + first, |validators|, i, j);
    hide Turn, Mod, AllDifferent;
    assert validators[Mod(height + first + i, |validators|)] != validators[Mod(height + first + j, |validators|)] by {
      DifferentPlaces(validators, Mod(height + first + i, |validators|), Mod(height + first + j, |validators|));
    }
  }

  lemma DifferentPlaces(validators: seq<Bytes>, i: nat, j: nat)
    requires AllDifferent(validators) && i < |validators| && j < |validators| && i != j
    ensures validators[i] != validators[j]
  {
    assert i < j ==> validators[i] != validators[j];
    assert j < i ==> validators[j] != validators[i];
  }

  /** With distinct validators, n consecutive rounds give each of them exactly one turn. */
  lemma OneTurnEach(validators: seq<Bytes>, height: u64, first: u32, v: Bytes) returns (turn: nat)
    requires v in validators && AllDifferent(validators)
    requires first + |validators| - 1 <= MAX_U32 && height + first + |validators| - 1 <= MAX_U64
    ensures turn < |validators| && Turn(validators, height, first, turn) == v
    ensures forall i: nat :: i < |validators| && Turn(validators, height, first, i) == v ==> i == turn
  {
    var n := |validators|;
    var k :| 0 <= k < n && validators[k] == v;
    turn := RemainderTaken(height + first, n, k);
    TurnIs(validators, height, first, turn);
    hide Turn, AllDifferent, Mod;
    forall i: nat | i < n && Turn(validators, height, first, i) == v ensures i == turn {
      if i < turn {
        TurnsDiffer(validators, height, first, i, turn);
      } else if turn < i {
        TurnsDiffer(validators, height, first, turn, i);
      }
    }
  }

  lemma TurnIs(validators: seq<Bytes>, height: u64, first: u32, i: nat)
    requires i < |validators|
    requires first + |validators| - 1 <= MAX_U32 && height + first + |validators| - 1 <= MAX_U64
    ensures Turn(validators, height, first, i) == validators[Mod(height + first + i, |validators|)]
  {
    assert (height + (first + i)) % 0x1_0000_0000_0000_0000 == height + first + i;
  }
}
