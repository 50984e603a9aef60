/**
 Playing a round of the protocol by hand: everybody enters, prevotes, collects votes and precommits,
 and one engine commits. The engines may be shown different transactions under the round's header.
 */
module Rounds {
  import opened Base
  import opened Blocks
  import opened Quorums
  import opened Votes
  import opened Ledgers
  import opened EngineModel
  import opened Protocol

  // ---------------------------------------------------------------- playing events from any world

  ghost function Play(net: Net, w: World, es: seq<Event>): World
    decreases |es|
  {
    if es == [] then w else Play(net, Next(net, w, es[0]), es[1..])
  }

  lemma {:induction false} PlayAppend(net: Net, w: World, a: seq<Event>, b: seq<Event>)
    ensures Play(net, w, a + b) == Play(net, Play(net, w, a), b)
    decreases |a|
  {
    if a == [] {
      assert a + b == b;
    } else {
      assert (a + b)[1..] == a[1..] + b;
      PlayAppend(net, Next(net, w, a[0]), a[1..], b);
    }
  }

  lemma {:induction false} ExecIsPlay(net: Net, es: seq<Event>)
    ensures Exec(net, es) == Play(net, Init(net), es)
  {
    if es != [] {
      var before, e := es[..|es| - 1], es[|es| - 1];
      ExecIsPlay(net, before);
      assert es == before + [e];
      PlayAppend(net, Init(net), before, [e]);
      assert Play(net, Play(net, Init(net), before), [e]) == Next(net, Play(net, Init(net), before), e);
      hide Next;
    }
  }

  // ---------------------------------------------------------------- many engines doing the same thing

  /** `u` after engine `i` has moved to `n`, signing `b` and publishing `p`. */
  function After(u: World, i: Bytes, n: Node, b: set<Ballot>, p: set<Proposal>): World {
    World(u.nodes[i := n], u.ballots + b, u.proposed + p)
  }

  /** Played at any later moment, engine i's events move it by `f`, as long as it itself is still where it was. */
  ghost predicate LocalOk(net: Net, w: World, S: seq<Bytes>, evs: Bytes -> seq<Event>, f: Node -> Node,
                          outB: Bytes -> set<Ballot>, outP: Bytes -> set<Proposal>) {
    forall u: World, i: Bytes ::
      i in S && i in u.nodes && i in w.nodes && u.nodes[i] == w.nodes[i]
      && w.ballots <= u.ballots && w.proposed <= u.proposed
      ==> Play(net, u, evs(i)) == After(u, i, f(u.nodes[i]), outB(i), outP(i))
  }

  predicate Distinct<T(==)>(s: seq<T>) {
    forall i, j :: 0 <= i < j < |s| ==> s[i] != s[j]
  }

  ghost predicate Swept(w: World, w': World, S: seq<Bytes>, f: Node -> Node, outB: Bytes -> set<Ballot>, outP: Bytes -> set<Proposal>) {
    && w'.nodes.Keys == w.nodes.Keys
    && (forall i :: i in w.nodes ==> w'.nodes[i] == if i in S then f(w.nodes[i]) else w.nodes[i])
    && w.ballots <= w'.ballots && w.proposed <= w'.proposed
    && (forall i :: i in S ==> outB(i) <= w'.ballots && outP(i) <= w'.proposed)
  }

  lemma LocalOkRest(net: Net, w: World, S: seq<Bytes>, evs: Bytes -> seq<Event>, f: Node -> Node,
                    outB: Bytes -> set<Ballot>, outP: Bytes -> set<Proposal>)
    requires S != [] && Distinct(S) && (forall i :: i in S ==> i in w.nodes) && LocalOk(net, w, S, evs, f, outB, outP)
    ensures var w1 := After(w, S[0], f(w.nodes[S[0]]), outB(S[0]), outP(S[0]));
      LocalOk(net, w1, S[1..], evs, f, outB, outP)
  {
    hide Play;
    var w1 := After(w, S[0], f(w.nodes[S[0]]), outB(S[0]), outP(S[0]));
    forall u: World, i: Bytes | i in S[1..] && i in u.nodes && i in w1.nodes && u.nodes[i] == w1.nodes[i]
                                && w1.ballots <= u.ballots && w1.proposed <= u.proposed
      ensures Play(net, u, evs(i)) == After(u, i, f(u.nodes[i]), outB(i), outP(i))
    {
      var k :| 0 <= k < |S[1..]| && S[1..][k] == i;
      assert S[k + 1] == i && i != S[0];
    }
  }

  lemma {:induction false} Sweep(net: Net, w: World, S: seq<Bytes>, evs: Bytes -> seq<Event>, f: Node -> Node,
                                 outB: Bytes -> set<Ballot>, outP: Bytes -> set<Proposal>) returns (es: seq<Event>)
    requires Distinct(S) && (forall i :: i in S ==> i in w.nodes) && LocalOk(net, w, S, evs, f, outB, outP)
    ensures Swept(w, Play(net, w, es), S, f, outB, outP)
    decreases |S|
  {
    if S == [] {
      es := [];
    } else {
      var i := S[0];
      var w1 := After(w, i, f(w.nodes[i]), outB(i), outP(i));
      assert Play(net, w, evs(i)) == w1;
      LocalOkRest(net, w, S, evs, f, outB, outP);
      hide LocalOk, Play;
      assert forall j :: j in S[1..] ==> j in S;
      var rest := Sweep(net, w1, S[1..], evs, f, outB, outP);
      es := evs(i) + rest;
      PlayAppend(net, w, evs(i), rest);
      SweptCons(w, w1, Play(net, w, es), S, f, outB, outP);
    }
  }

  lemma SweptCons(w: World, w1: World, w': World, S: seq<Bytes>, f: Node -> Node, outB: Bytes -> set<Ballot>, outP: Bytes -> set<Proposal>)
    requires S != [] && Distinct(S) && (forall i :: i in S ==> i in w.nodes)
    requires w1 == After(w, S[0], f(w.nodes[S[0]]), outB(S[0]), outP(S[0]))
    requires Swept(w1, w', S[1..], f, outB, outP)
    ensures Swept(w, w', S, f, outB, outP)
  {
    assert S[0] !in S[1..];
    assert forall i :: i in S <==> i == S[0] || i in S[1..];
  }

  // ---------------------------------------------------------------- the votes and proposals of the run

  /** Distinct, decodable, all honest; signatures verify. */
  ghost predicate HonestNet(net: Net) {
    && net.honest == net.cfg.Members()
    && Distinct(net.cfg.validators) && |net.cfg.validators| > 0
    && SignaturesVerify(net.cfg.crypto)
    && forall v :: v in net.cfg.validators ==> DecodeAddress(v).Some?
  }

  function Genesis(cfg: Config): ChainState {
    Boot(cfg.crypto, FRESH)
  }

  lemma GenesisShape(cfg: Config)
    ensures Genesis(cfg).tip == 0 && Genesis(cfg).ledger == Ledger(map[0 := GenesisBlock(cfg.crypto)], map[], Some(0))
  {
    FreshBootIsGood(cfg.Rules());
    assert ApplyAll(FRESH, [Ledgers.PutBlock(GenesisBlock(cfg.crypto))]) == Apply(FRESH, Ledgers.PutBlock(GenesisBlock(cfg.crypto)));
  }

  function Leader(cfg: Config, r: u32): Bytes {
    ProposerFor(cfg.validators, 1, r)
  }

  /** The empty block the leader of round `r` proposes at height 1. */
  function TheProposal(cfg: Config, r: u32, timestamp: i64): Proposal {
    GenesisShape(cfg);
    BuildProposal(cfg, FreshNode(cfg, Leader(cfg, r)).(round := r), [], timestamp)
  }

  function TheVote(c: Crypto, v: Bytes, kind: VoteType, r: u32, x: Bytes): Vote {
    Vote(kind, 1, r, x, v, c.sign(v, SigningBytes(kind, 1, r, x)))
  }

  function VoteMap(c: Crypto, T: seq<Bytes>, kind: VoteType, r: u32, x: Bytes): map<Bytes, Vote> {
    map v | v in T :: TheVote(c, v, kind, r, x)
  }

  predicate AtHeightOne(cfg: Config, i: Bytes, n: Node, r: u32) {
    n.self == i && n.chain == Genesis(cfg) && n.round == r
  }

  lemma KeyAtHeightOne(cfg: Config, i: Bytes, n: Node, r: u32)
    requires AtHeightOne(cfg, i, n, r)
    ensures HeightOf(n) == 1 && KeyOf(n) == RoundKey(1, r)
  {
    GenesisShape(cfg);
  }

  // ---------------------------------------------------------------- one engine: propose and prevote

  /** The leader's proposal with other transactions put under its header, all of them signed. */
  predicate Variant(cfg: Config, r: u32, timestamp: i64, P: Proposal) {
    && P == TheProposal(cfg, r, timestamp).(block := TheProposal(cfg, r, timestamp).block.(transactions := P.block.transactions))
    && forall t :: t in P.block.transactions ==> TxVerify(cfg.crypto, t)
  }

  /** The hash that all variants of a round's proposal share. */
  function RoundHash(cfg: Config, r: u32, timestamp: i64): Bytes {
    BlockHash(cfg.crypto, TheProposal(cfg, r, timestamp).block)
  }

  lemma TheProposalIsVariant(cfg: Config, r: u32, timestamp: i64)
    ensures Variant(cfg, r, timestamp, TheProposal(cfg, r, timestamp))
  {
    GenesisShape(cfg);
  }

  lemma TheProposalIsValid(net: Net, r: u32, timestamp: i64)
    requires HonestNet(net)
    ensures var P := TheProposal(net.cfg, r, timestamp);
      P.block.height == 1 && P.round == r && ValidProposal(net.cfg, P, Leader(net.cfg, r), 1)
  {
    GenesisShape(net.cfg);
  }

  /** No check of an engine tells a variant from the proposal itself. */
  lemma VariantPasses(net: Net, w: World, r: u32, timestamp: i64, P: Proposal)
    requires HonestNet(net) && Variant(net.cfg, r, timestamp, P) && TheProposal(net.cfg, r, timestamp) in w.proposed
    ensures P.block.height == 1 && P.round == r && BlockHash(net.cfg.crypto, P.block) == RoundHash(net.cfg, r, timestamp)
    ensures ValidProposal(net.cfg, P, Leader(net.cfg, r), 1) && AuthenticProposal(net, w, P)
  {
    var Q := TheProposal(net.cfg, r, timestamp);
    TheProposalIsValid(net, r, timestamp);
    hide TheProposal, HonestNet, TxVerify;
    assert HeaderBytes(P.block) == HeaderBytes(Q.block);
    assert ProposalBytes(P) == ProposalBytes(Q);
  }

  /** The engine once it has received `P` and prevoted it. */
  function Prevoted(n: Node, P: Proposal, r: u32): Node {
    n.(proposals := n.proposals[RoundKey(1, r) := P], phase := AwaitPrevotes(P.block))
  }

  /** Every engine receives the proposal picked for it. */
  function ReceivesProposal(pick: Bytes -> Proposal, r: u32): Node -> Node {
    (n: Node) => Prevoted(n, pick(n.self), r)
  }

  lemma PrevoteLocally(net: Net, u: World, i: Bytes, r: u32, timestamp: i64, P: Proposal)
    requires HonestNet(net) && i in u.nodes && AtHeightOne(net.cfg, i, u.nodes[i], r)
    requires u.nodes[i].phase.AwaitProposal? && RoundKey(1, r) !in u.nodes[i].proposals
    requires TheProposal(net.cfg, r, timestamp) in u.proposed && Variant(net.cfg, r, timestamp, P)
    ensures Play(net, u, [Event(i, ReceiveProposal(P)), Event(i, ReadProposal)])
      == After(u, i, Prevoted(u.nodes[i], P, r), {Ballot(i, Prevote, 1, r, RoundHash(net.cfg, r, timestamp))}, {})
  {
    var n := u.nodes[i];
    VariantPasses(net, u, r, timestamp, P);
    KeyAtHeightOne(net.cfg, i, n, r);
    hide ValidProposal, TheProposal, HonestNet, AtHeightOne, RoundKey, Variant, AuthenticProposal, RoundHash;
    var es := [Event(i, ReceiveProposal(P)), Event(i, ReadProposal)];
    var n1 := n.(proposals := n.proposals[RoundKey(1, r) := P]);
    var u1 := SetNode(u, i, n1);
    assert es[1..] == [Event(i, ReadProposal)] && es[1..][1..] == [];
    assert Next(net, u, es[0]) == u1;
    ReadLocally(net, u1, i, P, r);
    assert u1.nodes[i := n1.(phase := AwaitPrevotes(P.block))] == u.nodes[i := n1.(phase := AwaitPrevotes(P.block))];
    assert Play(net, u1, es[1..]) == Next(net, u1, es[1]);
  }

  lemma ReadLocally(net: Net, u: World, i: Bytes, P: Proposal, r: u32)
    requires i in u.nodes && u.nodes[i].self == i && u.nodes[i].phase.AwaitProposal?
    requires HeightOf(u.nodes[i]) == 1 && u.nodes[i].round == r && KeyOf(u.nodes[i]) in u.nodes[i].proposals
    requires u.nodes[i].proposals[KeyOf(u.nodes[i])] == P && ValidProposal(net.cfg, P, Leader(net.cfg, r), 1)
    ensures Next(net, u, Event(i, ReadProposal))
         == After(u, i, u.nodes[i].(phase := AwaitPrevotes(P.block)), {Ballot(i, Prevote, 1, r, BlockHash(net.cfg.crypto, P.block))}, {})
  {
    hide ValidProposal;
  }

  // ---------------------------------------------------------------- one engine: collecting votes

  function BucketOf(n: Node, kind: VoteType): Bucket {
    if kind == Prevote then n.prevotes else n.precommits
  }

  function WithVotes(n: Node, kind: VoteType, key: Bytes, votes: map<Bytes, Vote>): Node {
    if kind == Prevote then n.(prevotes := n.prevotes[key := votes]) else n.(precommits := n.precommits[key := votes])
  }

  function Deliveries(c: Crypto, i: Bytes, T: seq<Bytes>, kind: VoteType, r: u32, x: Bytes): (es: seq<Event>)
    ensures |es| == |T|
  {
    seq(|T|, k requires 0 <= k < |T| => Event(i, ReceiveVote(kind, TheVote(c, T[k], kind, r, x))))
  }

  /** Everyone in T has signed this vote. */
  predicate AllSigned(ballots: set<Ballot>, T: seq<Bytes>, kind: VoteType, r: u32, x: Bytes) {
    forall v :: v in T ==> Ballot(v, kind, 1, r, x) in ballots
  }

  lemma TheVoteIsGood(net: Net, w: World, v: Bytes, kind: VoteType, r: u32, x: Bytes)
    requires HonestNet(net) && v in net.cfg.validators && Ballot(v, kind, 1, r, x) in w.ballots
    ensures Admissible(net.cfg, kind, TheVote(net.cfg.crypto, v, kind, r, x))
    ensures AuthenticVote(net, w, TheVote(net.cfg.crypto, v, kind, r, x))
  {
    var b := Ballot(v, kind, 1, r, x);
    assert BallotBytes(b) == VoteBytes(TheVote(net.cfg.crypto, v, kind, r, x));
  }

  /** The engine after the first k deliveries. */
  function Holding(c: Crypto, n: Node, T: seq<Bytes>, k: nat, kind: VoteType, r: u32, x: Bytes): Node
    requires k <= |T|
  {
    if k == 0 then n else WithVotes(n, kind, RoundKey(1, r), VoteMap(c, T[..k], kind, r, x))
  }

  lemma OneMoreVote(net: Net, n: Node, T: seq<Bytes>, k: nat, kind: VoteType, r: u32, x: Bytes)
    requires k < |T| && Distinct(T) && RoundKey(1, r) !in BucketOf(n, kind)
    requires Admissible(net.cfg, kind, TheVote(net.cfg.crypto, T[k], kind, r, x))
    ensures var c := net.cfg.crypto;
      HandleVote(net.cfg, Holding(c, n, T, k, kind, r, x), kind, TheVote(c, T[k], kind, r, x)) == Holding(c, n, T, k + 1, kind, r, x)
  {
    var c, key := net.cfg.crypto, RoundKey(1, r);
    var v := TheVote(c, T[k], kind, r, x);
    VoteMapGrows(c, T, k, kind, r, x);
    hide RoundKey, Admissible, SigningBytes, VoteMap, File, Distinct;
    if k == 0 {
      FileFirst(BucketOf(n, kind), v, key);
    } else {
      FileNext(BucketOf(n, kind), VoteMap(c, T[..k], kind, r, x), v, key);
    }
  }

  lemma VoteMapGrows(c: Crypto, T: seq<Bytes>, k: nat, kind: VoteType, r: u32, x: Bytes)
    requires k < |T| && Distinct(T)
    ensures T[k] !in VoteMap(c, T[..k], kind, r, x) && TheVote(c, T[k], kind, r, x).voter == T[k]
    ensures VoteMap(c, T[..k + 1], kind, r, x) == VoteMap(c, T[..k], kind, r, x)[T[k] := TheVote(c, T[k], kind, r, x)]
    ensures VoteMap(c, T[..0], kind, r, x) == map[]
  {
    hide TheVote;
    assert T[k] !in T[..k];
    assert T[..k + 1] == T[..k] + [T[k]];
    VoterOf(c, T[k], kind, r, x);
  }

  lemma VoterOf(c: Crypto, v: Bytes, kind: VoteType, r: u32, x: Bytes)
    ensures TheVote(c, v, kind, r, x).voter == v
  {
  }

  lemma FileFirst(bucket: Bucket, v: Vote, key: Bytes)
    requires key == RoundKey(v.height, v.round) && key !in bucket
    ensures File(bucket, v) == bucket[key := map[v.voter := v]]
  {
  }

  lemma FileNext(bucket: Bucket, m: map<Bytes, Vote>, v: Vote, key: Bytes)
    requires key == RoundKey(v.height, v.round) && v.voter !in m
    ensures File(bucket[key := m], v) == bucket[key := m[v.voter := v]]
  {
  }

  lemma DeliverOne(net: Net, u: World, i: Bytes, n: Node, T: seq<Bytes>, k: nat, kind: VoteType, r: u32, x: Bytes)
    requires HonestNet(net) && k < |T| && Distinct(T) && T[k] in net.cfg.validators
    requires AllSigned(u.ballots, T, kind, r, x) && RoundKey(1, r) !in BucketOf(n, kind)
    requires i in u.nodes && u.nodes[i] == Holding(net.cfg.crypto, n, T, k, kind, r, x)
    ensures Next(net, u, Event(i, ReceiveVote(kind, TheVote(net.cfg.crypto, T[k], kind, r, x))))
         == SetNode(u, i, Holding(net.cfg.crypto, n, T, k + 1, kind, r, x))
  {
    TheVoteIsGood(net, u, T[k], kind, r, x);
    OneMoreVote(net, n, T, k, kind, r, x);
    hide Holding, Admissible, HandleVote, AuthenticVote, TheVote, RoundKey, HonestNet, BucketOf, Deliveries;
  }

  lemma DeliveriesFrom(c: Crypto, i: Bytes, T: seq<Bytes>, k: nat, kind: VoteType, r: u32, x: Bytes)
    requires k < |T|
    ensures Deliveries(c, i, T, kind, r, x)[k..]
         == [Event(i, ReceiveVote(kind, TheVote(c, T[k], kind, r, x)))] + Deliveries(c, i, T, kind, r, x)[k + 1..]
  {
  }

  lemma PlayCons(net: Net, w: World, e: Event, es: seq<Event>)
    ensures Play(net, w, [e] + es) == Play(net, Next(net, w, e), es)
  {
    assert ([e] + es)[1..] == es;
    hide Next;
  }

  lemma {:induction false} DeliverLocally(net: Net, u: World, i: Bytes, n: Node, T: seq<Bytes>, k: nat, kind: VoteType, r: u32, x: Bytes)
    requires HonestNet(net) && k <= |T| && Distinct(T) && (forall v :: v in T ==> v in net.cfg.validators)
    requires AllSigned(u.ballots, T, kind, r, x) && RoundKey(1, r) !in BucketOf(n, kind)
    requires i in u.nodes && u.nodes[i] == Holding(net.cfg.crypto, n, T, k, kind, r, x)
    ensures Play(net, u, Deliveries(net.cfg.crypto, i, T, kind, r, x)[k..])
         == SetNode(u, i, Holding(net.cfg.crypto, n, T, |T|, kind, r, x))
    decreases |T| - k
  {
    hide Next, Holding, TheVote, RoundKey, HonestNet, BucketOf, Deliveries, Distinct, AllSigned;
    var c := net.cfg.crypto;
    if k == |T| {
      assert Deliveries(c, i, T, kind, r, x)[k..] == [];
      assert u.nodes[i := u.nodes[i]] == u.nodes;
    } else {
      hide Play;
      DeliveriesFrom(c, i, T, k, kind, r, x);
      DeliverOne(net, u, i, n, T, k, kind, r, x);
      var u1 := SetNode(u, i, Holding(c, n, T, k + 1, kind, r, x));
      PlayCons(net, u, Event(i, ReceiveVote(kind, TheVote(c, T[k], kind, r, x))), Deliveries(c, i, T, kind, r, x)[k + 1..]);
      DeliverLocally(net, u1, i, n, T, k + 1, kind, r, x);
      assert SetNode(u1, i, Holding(c, n, T, |T|, kind, r, x)) == SetNode(u, i, Holding(c, n, T, |T|, kind, r, x));
    }
  }

  lemma {:induction false} DistinctSize<T>(s: seq<T>)
    requires Distinct(s)
    ensures |set x | x in s| == |s|
  {
    if s != [] {
      DistinctSize(s[1..]);
      var tail := set x | x in s[1..];
      assert s[0] !in s[1..];
      assert (set x | x in s) == {s[0]} + tail;
    }
  }

  lemma AllCounted(c: Crypto, bucket: Bucket, T: seq<Bytes>, kind: VoteType, r: u32, x: Bytes)
    requires Distinct(T) && RoundKey(1, r) in bucket && bucket[RoundKey(1, r)] == VoteMap(c, T, kind, r, x)
    ensures CountVotes(bucket, RoundKey(1, r), x) == |T|
  {
    DistinctSize(T);
    assert Matching(bucket, RoundKey(1, r), x) == set v | v in T;
  }

  // ---------------------------------------------------------------- one engine: precommit

  function CollectsPrevotes(c: Crypto, T: seq<Bytes>, r: u32, x: Bytes): Node -> Node {
    (n: Node) => n.(prevotes := n.prevotes[RoundKey(1, r) := VoteMap(c, T, Prevote, r, x)],
                    phase := if n.phase.AwaitPrevotes? then AwaitPrecommits(n.phase.block) else n.phase)
  }

  lemma PrecommitLocally(net: Net, u: World, i: Bytes, T: seq<Bytes>, r: u32, block: Block)
    requires HonestNet(net) && Distinct(T) && T != [] && (forall v :: v in T ==> v in net.cfg.validators)
    requires |T| >= net.cfg.QuorumSize()
    requires i in u.nodes && AtHeightOne(net.cfg, i, u.nodes[i], r) && u.nodes[i].phase == AwaitPrevotes(block)
    requires AllSigned(u.ballots, T, Prevote, r, BlockHash(net.cfg.crypto, block)) && RoundKey(1, r) !in u.nodes[i].prevotes
    ensures var x := BlockHash(net.cfg.crypto, block);
      Play(net, u, Deliveries(net.cfg.crypto, i, T, Prevote, r, x) + [Event(i, SeePrevotes)])
      == After(u, i, CollectsPrevotes(net.cfg.crypto, T, r, x)(u.nodes[i]), {Ballot(i, Precommit, 1, r, x)}, {})
  {
    var c, x := net.cfg.crypto, BlockHash(net.cfg.crypto, block);
    var n := u.nodes[i];
    var ds := Deliveries(c, i, T, Prevote, r, x);
    assert ds[0..] == ds;
    DeliverLocally(net, u, i, n, T, 0, Prevote, r, x);
    PlayAppend(net, u, ds, [Event(i, SeePrevotes)]);
    var n1 := Holding(c, n, T, |T|, Prevote, r, x);
    var u1 := SetNode(u, i, n1);
    assert Play(net, u, ds) == u1;
    assert T[..|T|] == T;
    assert n1 == n.(prevotes := n.prevotes[RoundKey(1, r) := VoteMap(c, T, Prevote, r, x)]);
    KeyAtHeightOne(net.cfg, i, n1, r);
    AllCounted(c, n1.prevotes, T, Prevote, r, x);
    hide Next, Holding, Deliveries, VoteMap, RoundKey, CountVotes, AllSigned, HonestNet, AtHeightOne, Distinct;
    assert CanPrecommit(net.cfg, n1);
    SeePrevotesEvent(net, u1, i);
    assert Play(net, u1, [Event(i, SeePrevotes)]) == Next(net, u1, Event(i, SeePrevotes));
    assert n1.self == i;
    BallotParts(net.cfg, n1, r, block, i);
    var n2 := n1.(phase := AwaitPrecommits(block));
    assert u1.nodes[i := n2] == u.nodes[i := n2];
  }

  lemma BallotParts(cfg: Config, n: Node, r: u32, block: Block, i: Bytes)
    requires n.self == i && n.round == r && HeightOf(n) == 1
    ensures BallotOf(cfg, n, Precommit, block) == Ballot(i, Precommit, 1, r, BlockHash(cfg.crypto, block))
  {
  }

  // ---------------------------------------------------------------- one engine: commit

  function TheSigs(c: Crypto, T: seq<Bytes>, r: u32, x: Bytes): (sigs: seq<ValidatorSig>)
    ensures |sigs| == |T|
  {
    seq(|T|, k requires 0 <= k < |T| => ValidatorSig(T[k], r, TheVote(c, T[k], Precommit, r, x).signature))
  }

  lemma SigsListVotes(c: Crypto, T: seq<Bytes>, r: u32, x: Bytes)
    requires Distinct(T)
    ensures ListsVotes(VoteMap(c, T, Precommit, r, x), x, r, TheSigs(c, T, r, x))
  {
    var votes, sigs := VoteMap(c, T, Precommit, r, x), TheSigs(c, T, r, x);
    forall v | v in votes && votes[v].blockHash == x ensures exists k :: 0 <= k < |sigs| && sigs[k].validator == v {
      var k :| 0 <= k < |T| && T[k] == v;
      assert sigs[k].validator == v;
    }
  }

  /** A block on genesis whose transactions pass. */
  predicate GenesisChild(cfg: Config, block: Block) {
    && block.height == 1 && block.prevHash == BlockHash(cfg.crypto, GenesisBlock(cfg.crypto))
    && NoncePlan(cfg.crypto, Genesis(cfg).ledger, block.transactions).1 == Accepted
  }

  lemma GenesisChildAccepted(cfg: Config, block: Block)
    requires GenesisChild(cfg, block) && QuorumMet(cfg.crypto, block, cfg.QuorumSize(), cfg.Members())
    ensures var (chain, verdict) := Commit(cfg.Rules(), Genesis(cfg), block);
      verdict == Accepted && chain.tip == 1 && 1 in chain.ledger.blocks && chain.ledger.blocks[1] == block
  {
    GenesisShape(cfg);
    AcceptedEffect(cfg.Rules(), Genesis(cfg), block);
  }

  /** The certificate's event commits `block` at engine i and touches nothing else. */
  ghost predicate Commits(net: Net, u: World, u': World, i: Bytes, block: Block) {
    && i in u.nodes && u'.nodes.Keys == u.nodes.Keys && (forall j :: j in u.nodes && j != i ==> u'.nodes[j] == u.nodes[j])
    && u'.ballots == u.ballots && u'.proposed == u.proposed
    && u'.nodes[i].chain.tip == 1 && 1 in u'.nodes[i].chain.ledger.blocks
    && SameBody(u'.nodes[i].chain.ledger.blocks[1], block)
  }

  /** Engine i has all of S's precommits for `block` on file and waits for them. */
  predicate ReadyToCommit(net: Net, u: World, i: Bytes, S: seq<Bytes>, r: u32, block: Block) {
    && i in u.nodes && AtHeightOne(net.cfg, i, u.nodes[i], r) && u.nodes[i].phase == AwaitPrecommits(block)
    && RoundKey(1, r) in u.nodes[i].precommits
    && u.nodes[i].precommits[RoundKey(1, r)] == VoteMap(net.cfg.crypto, S, Precommit, r, BlockHash(net.cfg.crypto, block))
  }

  lemma CommitLocally(net: Net, u: World, i: Bytes, T: seq<Bytes>, r: u32, block: Block)
    requires Inv(net, u) && Distinct(T) && |T| >= net.cfg.QuorumSize() && r < MAX_U32
    requires ReadyToCommit(net, u, i, T, r, block) && GenesisChild(net.cfg, block)
    ensures Commits(net, u, Next(net, u, Event(i, SeePrecommits(TheSigs(net.cfg.crypto, T, r, BlockHash(net.cfg.crypto, block))))), i, block)
  {
    var c, x, n := net.cfg.crypto, BlockHash(net.cfg.crypto, block), u.nodes[i];
    var sigs := TheSigs(c, T, r, x);
    KeyAtHeightOne(net.cfg, i, n, r);
    AllCounted(c, n.precommits, T, Precommit, r, x);
    SigsListVotes(c, T, r, x);
    NodeFacts(net, u, i);
    hide Inv, NodeInv, ListsVotes, VoteMap, TheSigs, RoundKey, Distinct, CountVotes;
    CommitOutcome(net, u.ballots, n, r, block, sigs);
    CommitEvent(net, u, i, sigs, block);
    hide Next;
  }

  lemma CommitEvent(net: Net, u: World, i: Bytes, sigs: seq<ValidatorSig>, block: Block)
    requires i in u.nodes && IsCertificate(net.cfg, u.nodes[i], sigs) && u.nodes[i].round < MAX_U32
    requires var n' := DoCommit(net.cfg, u.nodes[i], sigs);
      n'.chain.tip == 1 && 1 in n'.chain.ledger.blocks && SameBody(n'.chain.ledger.blocks[1], block)
    ensures Commits(net, u, Next(net, u, Event(i, SeePrecommits(sigs))), i, block)
  {
    hide IsCertificate, DoCommit, SameBody;
  }

  lemma CommitOutcome(net: Net, ballots: set<Ballot>, n: Node, r: u32, block: Block, sigs: seq<ValidatorSig>)
    requires NodeInv(net, ballots, n) && n.chain == Genesis(net.cfg) && n.round == r < MAX_U32 && n.phase == AwaitPrecommits(block)
    requires GenesisChild(net.cfg, block)
    requires CanCommit(net.cfg, n)
    requires ListsVotes(VotesUnder(n.precommits, KeyOf(n)), BlockHash(net.cfg.crypto, block), r, sigs)
    ensures IsCertificate(net.cfg, n, sigs)
    ensures var n' := DoCommit(net.cfg, n, sigs);
      n'.chain.tip == 1 && 1 in n'.chain.ledger.blocks && SameBody(n'.chain.ledger.blocks[1], block)
  {
    GenesisShape(net.cfg);
    var b := block.(commitSigs := sigs);
    assert HeaderBytes(b) == HeaderBytes(block);
    CertificateIsValid(net.cfg, n, sigs);
    hide ListsVotes, NodeInv, CanCommit;
    GenesisChildAccepted(net.cfg, b);
    hide Commit, QuorumMet;
  }

  // ---------------------------------------------------------------- a whole round

  /** All of S at height 1, round r, waiting for a proposal, with nothing filed for that round. */
  predicate RoundOpen(net: Net, w: World, S: seq<Bytes>, r: u32) {
    forall i :: i in S ==>
      && i in w.nodes && AtHeightOne(net.cfg, i, w.nodes[i], r) && w.nodes[i].phase.AwaitProposal?
      && RoundKey(1, r) !in w.nodes[i].proposals && RoundKey(1, r) !in w.nodes[i].prevotes
      && RoundKey(1, r) !in w.nodes[i].precommits
  }

  /** Engine i has precommitted `block`; its filed precommits of the round are still empty. */
  predicate Precommitted(net: Net, w: World, i: Bytes, r: u32, block: Block) {
    && i in w.nodes && AtHeightOne(net.cfg, i, w.nodes[i], r) && w.nodes[i].phase == AwaitPrecommits(block)
    && RoundKey(1, r) !in w.nodes[i].precommits
  }

  /** All of S have precommitted the block picked for them, under one hash. */
  ghost predicate RoundPrecommitted(net: Net, w: World, S: seq<Bytes>, r: u32, pick: Bytes -> Proposal, x: Bytes) {
    && AllSigned(w.ballots, S, Precommit, r, x)
    && forall i :: i in S ==> Precommitted(net, w, i, r, pick(i).block)
  }

  /** Engines keep every key they hold that is not of the round being played. */
  ghost predicate OnlyRound(w: World, w': World, S: seq<Bytes>, r: u32) {
    && w'.nodes.Keys == w.nodes.Keys
    && (forall i :: i in w.nodes && i !in S ==> w'.nodes[i] == w.nodes[i])
    && (forall i, key :: i in w.nodes && i in S && key != RoundKey(1, r) ==>
          && (key in w'.nodes[i].proposals ==> key in w.nodes[i].proposals)
          && (key in w'.nodes[i].prevotes ==> key in w.nodes[i].prevotes)
          && (key in w'.nodes[i].precommits ==> key in w.nodes[i].precommits))
  }

  function Signs(kind: VoteType, r: u32, x: Bytes): Bytes -> set<Ballot> {
    (i: Bytes) => {Ballot(i, kind, 1, r, x)}
  }

  function Silence(): Bytes -> set<Proposal> {
    (i: Bytes) => EmptyProposals()
  }

  function EmptyProposals(): set<Proposal> { {} }

  function EmptyBallots(): set<Ballot> { {} }

  lemma PrevoteSweep(net: Net, w: World, S: seq<Bytes>, r: u32, timestamp: i64, pick: Bytes -> Proposal) returns (es: seq<Event>)
    requires HonestNet(net) && Distinct(S) && RoundOpen(net, w, S, r) && TheProposal(net.cfg, r, timestamp) in w.proposed
    requires forall i :: i in S ==> Variant(net.cfg, r, timestamp, pick(i))
    ensures Swept(w, Play(net, w, es), S, ReceivesProposal(pick, r), Signs(Prevote, r, RoundHash(net.cfg, r, timestamp)), Silence())
  {
    var evs := (i: Bytes) => [Event(i, ReceiveProposal(pick(i))), Event(i, ReadProposal)];
    var f, outB := ReceivesProposal(pick, r), Signs(Prevote, r, RoundHash(net.cfg, r, timestamp));
    forall u: World, i: Bytes | i in S && i in u.nodes && i in w.nodes && u.nodes[i] == w.nodes[i]
                                && w.ballots <= u.ballots && w.proposed <= u.proposed
      ensures Play(net, u, evs(i)) == After(u, i, f(u.nodes[i]), outB(i), Silence()(i))
    {
      PrevoteLocally(net, u, i, r, timestamp, pick(i));
    }
    es := Sweep(net, w, S, evs, f, outB, Silence());
  }

  /** Engine i has prevoted `block` at height 1, round r. */
  predicate HasPrevoted(net: Net, w: World, i: Bytes, r: u32, block: Block) {
    && i in w.nodes && AtHeightOne(net.cfg, i, w.nodes[i], r)
    && w.nodes[i].phase == AwaitPrevotes(block) && RoundKey(1, r) !in w.nodes[i].prevotes
  }

  lemma PrecommitSweep(net: Net, w: World, S: seq<Bytes>, r: u32, pick: Bytes -> Proposal, x: Bytes) returns (es: seq<Event>)
    requires HonestNet(net) && Distinct(S) && S != [] && (forall v :: v in S ==> v in net.cfg.validators)
    requires |S| >= net.cfg.QuorumSize() && AllSigned(w.ballots, S, Prevote, r, x)
    requires forall i :: i in S ==> HasPrevoted(net, w, i, r, pick(i).block) && BlockHash(net.cfg.crypto, pick(i).block) == x
    ensures Swept(w, Play(net, w, es), S, CollectsPrevotes(net.cfg.crypto, S, r, x), Signs(Precommit, r, x), Silence())
  {
    var c := net.cfg.crypto;
    var evs := (i: Bytes) => Deliveries(c, i, S, Prevote, r, x) + [Event(i, SeePrevotes)];
    var f, outB := CollectsPrevotes(c, S, r, x), Signs(Precommit, r, x);
    forall u: World, i: Bytes | i in S && i in u.nodes && i in w.nodes && u.nodes[i] == w.nodes[i]
                                && w.ballots <= u.ballots && w.proposed <= u.proposed
      ensures Play(net, u, evs(i)) == After(u, i, f(u.nodes[i]), outB(i), Silence()(i))
    {
      PrecommitLocally(net, u, i, S, r, pick(i).block);
    }
    es := Sweep(net, w, S, evs, f, outB, Silence());
  }

  /** From an open round whose proposal is out, S can all precommit, each the variant shown to it. */
  lemma PlayRound(net: Net, w: World, S: seq<Bytes>, r: u32, timestamp: i64, pick: Bytes -> Proposal) returns (es: seq<Event>)
    requires HonestNet(net) && Distinct(S) && S != [] && (forall v :: v in S ==> v in net.cfg.validators)
    requires |S| >= net.cfg.QuorumSize() && RoundOpen(net, w, S, r) && TheProposal(net.cfg, r, timestamp) in w.proposed
    requires forall i :: i in S ==> Variant(net.cfg, r, timestamp, pick(i))
    ensures RoundPrecommitted(net, Play(net, w, es), S, r, pick, RoundHash(net.cfg, r, timestamp))
    ensures OnlyRound(w, Play(net, w, es), S, r)
  {
    var x := RoundHash(net.cfg, r, timestamp);
    forall i | i in S ensures BlockHash(net.cfg.crypto, pick(i).block) == x {
      VariantPasses(net, w, r, timestamp, pick(i));
    }
    hide Variant, RoundHash, TheProposal, BlockHash, Play, RoundOpen, HonestNet, AllSigned, HasPrevoted, RoundPrecommitted, OnlyRound, Swept, Distinct;
    var first := PrevoteSweep(net, w, S, r, timestamp, pick);
    var w1 := Play(net, w, first);
    AfterPrevotes(net, w, w1, S, r, pick, x);
    var second := PrecommitSweep(net, w1, S, r, pick, x);
    var w2 := Play(net, w1, second);
    es := first + second;
    PlayAppend(net, w, first, second);
    AfterPrecommits(net, w, w1, w2, S, r, pick, x);
  }

  lemma SignedBySweep(w: World, w': World, S: seq<Bytes>, f: Node -> Node, kind: VoteType, r: u32, x: Bytes)
    requires Swept(w, w', S, f, Signs(kind, r, x), Silence())
    ensures AllSigned(w'.ballots, S, kind, r, x)
  {
    forall i | i in S ensures Ballot(i, kind, 1, r, x) in w'.ballots {
      assert Signs(kind, r, x)(i) <= w'.ballots;
    }
  }

  lemma AfterPrevotes(net: Net, w: World, w1: World, S: seq<Bytes>, r: u32, pick: Bytes -> Proposal, x: Bytes)
    requires RoundOpen(net, w, S, r)
    requires Swept(w, w1, S, ReceivesProposal(pick, r), Signs(Prevote, r, x), Silence())
    ensures AllSigned(w1.ballots, S, Prevote, r, x)
    ensures forall i :: i in S ==> HasPrevoted(net, w1, i, r, pick(i).block)
  {
    SignedBySweep(w, w1, S, ReceivesProposal(pick, r), Prevote, r, x);
    hide RoundKey, Genesis, AllSigned;
  }

  lemma AfterPrecommits(net: Net, w: World, w1: World, w2: World, S: seq<Bytes>, r: u32, pick: Bytes -> Proposal, x: Bytes)
    requires RoundOpen(net, w, S, r)
    requires Swept(w, w1, S, ReceivesProposal(pick, r), Signs(Prevote, r, x), Silence())
    requires Swept(w1, w2, S, CollectsPrevotes(net.cfg.crypto, S, r, x), Signs(Precommit, r, x), Silence())
    ensures RoundPrecommitted(net, w2, S, r, pick, x) && OnlyRound(w, w2, S, r)
  {
    SignedBySweep(w1, w2, S, CollectsPrevotes(net.cfg.crypto, S, r, x), Precommit, r, x);
    hide AllSigned;
    forall i | i in w.nodes ensures w2.nodes[i] == if i in S then OneRound(net.cfg.crypto, w.nodes[i], S, r, pick, x) else w.nodes[i] {
    }
    hide Swept;
    forall i | i in S ensures Precommitted(net, w2, i, r, pick(i).block) {
      OneRoundShape(net, i, w.nodes[i], S, r, pick, x);
    }
    OneRoundKeys(net, w, w2, S, r, pick, x);
  }

  /** An engine carried from the open round to its precommit. */
  function OneRound(c: Crypto, n: Node, S: seq<Bytes>, r: u32, pick: Bytes -> Proposal, x: Bytes): Node {
    CollectsPrevotes(c, S, r, x)(Prevoted(n, pick(n.self), r))
  }

  lemma OneRoundShape(net: Net, i: Bytes, n: Node, S: seq<Bytes>, r: u32, pick: Bytes -> Proposal, x: Bytes)
    requires AtHeightOne(net.cfg, i, n, r) && RoundKey(1, r) !in n.precommits
    ensures var n' := OneRound(net.cfg.crypto, n, S, r, pick, x);
      AtHeightOne(net.cfg, i, n', r) && n'.phase == AwaitPrecommits(pick(i).block) && RoundKey(1, r) !in n'.precommits
  {
    hide RoundKey, Genesis, VoteMap;
  }

  lemma OneRoundKeys(net: Net, w: World, w2: World, S: seq<Bytes>, r: u32, pick: Bytes -> Proposal, x: Bytes)
    requires w2.nodes.Keys == w.nodes.Keys
    requires forall i :: i in w.nodes ==>
      w2.nodes[i] == if i in S then OneRound(net.cfg.crypto, w.nodes[i], S, r, pick, x) else w.nodes[i]
    ensures OnlyRound(w, w2, S, r)
  {
    hide RoundKey, VoteMap;
  }

  /** After a round in which all of S precommitted, engine i of S can commit the block it was shown. */
  lemma PlayCommit(net: Net, run: seq<Event>, i: Bytes, S: seq<Bytes>, r: u32, block: Block) returns (es: seq<Event>)
    requires HonestNet(net) && Distinct(S) && i in S && (forall v :: v in S ==> v in net.cfg.validators)
    requires |S| >= net.cfg.QuorumSize() && r < MAX_U32
    requires AllSigned(Exec(net, run).ballots, S, Precommit, r, BlockHash(net.cfg.crypto, block))
    requires Precommitted(net, Exec(net, run), i, r, block) && GenesisChild(net.cfg, block)
    ensures Commits(net, Exec(net, run), Exec(net, run + es), i, block)
  {
    var x := BlockHash(net.cfg.crypto, block);
    var w := Exec(net, run);
    var ds := Deliveries(net.cfg.crypto, i, S, Precommit, r, x);
    var commit := Event(i, SeePrecommits(TheSigs(net.cfg.crypto, S, r, x)));
    var w1 := CollectPrecommits(net, w, i, S, r, block);
    hide Next, Inv, ReadyToCommit, Exec, GenesisChild, AllSigned, Precommitted, HonestNet, Distinct, TheSigs, Deliveries;
    es := ds + [commit];
    ExecThenOne(net, run, ds, commit);
    RunsKeepInv(net, run + ds);
    CommitLocally(net, w1, i, S, r, block);
    hide Play, Commits;
  }

  lemma ExecThenOne(net: Net, run: seq<Event>, es: seq<Event>, e: Event)
    ensures Exec(net, run + es) == Play(net, Exec(net, run), es)
    ensures Exec(net, run + (es + [e])) == Next(net, Exec(net, run + es), e)
  {
    hide Next;
    ExecExtends(net, run, es);
    var all := run + (es + [e]);
    assert all[..|all| - 1] == run + es;
  }

  lemma CollectPrecommits(net: Net, w: World, i: Bytes, S: seq<Bytes>, r: u32, block: Block) returns (w1: World)
    requires HonestNet(net) && Distinct(S) && i in S && (forall v :: v in S ==> v in net.cfg.validators)
    requires AllSigned(w.ballots, S, Precommit, r, BlockHash(net.cfg.crypto, block)) && Precommitted(net, w, i, r, block)
    ensures w1 == Play(net, w, Deliveries(net.cfg.crypto, i, S, Precommit, r, BlockHash(net.cfg.crypto, block)))
    ensures w1.nodes.Keys == w.nodes.Keys && (forall j :: j in w.nodes && j != i ==> w1.nodes[j] == w.nodes[j])
    ensures w1.ballots == w.ballots && w1.proposed == w.proposed
    ensures ReadyToCommit(net, w1, i, S, r, block)
  {
    var c, x := net.cfg.crypto, BlockHash(net.cfg.crypto, block);
    var ds := Deliveries(c, i, S, Precommit, r, x);
    assert ds[0..] == ds && S[..|S|] == S;
    DeliverLocally(net, w, i, w.nodes[i], S, 0, Precommit, r, x);
    hide RoundKey, Play, Deliveries, HonestNet, Distinct, AllSigned, Genesis, BlockHash;
    w1 := SetNode(w, i, Holding(c, w.nodes[i], S, |S|, Precommit, r, x));
  }

  lemma ExecExtends(net: Net, run: seq<Event>, es: seq<Event>)
    ensures Exec(net, run + es) == Play(net, Exec(net, run), es)
  {
    ExecIsPlay(net, run);
    ExecIsPlay(net, run + es);
    PlayAppend(net, Init(net), run, es);
  }

  // ---------------------------------------------------------------- entering rounds

  /** Entering a round, from the start or after giving the previous one up. */
  function Enters(): Node -> Node {
    (n: Node) => n.(phase := AwaitProposal)
  }

  function EntersNext(): Node -> Node {
    (n: Node) => if n.round < MAX_U32 then n.(round := n.round + 1, phase := AwaitProposal) else n
  }

  function SignsNothing(): Bytes -> set<Ballot> {
    (i: Bytes) => EmptyBallots()
  }

  /** Only the leader of the round publishes, and it publishes TheProposal. */
  function Publishes(cfg: Config, r: u32, timestamp: i64): Bytes -> set<Proposal> {
    (i: Bytes) => if i == Leader(cfg, r) then {TheProposal(cfg, r, timestamp)} else {}
  }

  lemma PublishedIsTheProposal(cfg: Config, i: Bytes, n: Node, r: u32, timestamp: i64)
    requires AtHeightOne(cfg, i, n, r)
    ensures Published(cfg, n, [], timestamp) == Publishes(cfg, r, timestamp)(i)
  {
    GenesisShape(cfg);
  }

  lemma EnterLocally(net: Net, u: World, i: Bytes, r: u32, timestamp: i64)
    requires i in u.nodes && AtHeightOne(net.cfg, i, u.nodes[i], r) && u.nodes[i].phase.Start?
    ensures Next(net, u, Event(i, EnterRound([], timestamp)))
         == After(u, i, Enters()(u.nodes[i]), {}, Publishes(net.cfg, r, timestamp)(i))
  {
    GenesisShape(net.cfg);
    PublishedIsTheProposal(net.cfg, i, u.nodes[i], r, timestamp);
    hide Published, Publishes;
  }

  lemma EnterSweep(net: Net, w: World, S: seq<Bytes>, timestamp: i64) returns (es: seq<Event>)
    requires Distinct(S) && forall i :: i in S ==> i in w.nodes && AtHeightOne(net.cfg, i, w.nodes[i], 0) && w.nodes[i].phase.Start?
    ensures Swept(w, Play(net, w, es), S, Enters(), SignsNothing(), Publishes(net.cfg, 0, timestamp))
  {
    var evs := (i: Bytes) => [Event(i, EnterRound([], timestamp))];
    var f, outB, outP := Enters(), SignsNothing(), Publishes(net.cfg, 0, timestamp);
    forall u: World, i: Bytes | i in S && i in u.nodes && i in w.nodes && u.nodes[i] == w.nodes[i]
                                && w.ballots <= u.ballots && w.proposed <= u.proposed
      ensures Play(net, u, evs(i)) == After(u, i, f(u.nodes[i]), outB(i), outP(i))
    {
      EnterLocally(net, u, i, 0, timestamp);
      assert Play(net, u, evs(i)) == Next(net, u, evs(i)[0]);
    }
    es := Sweep(net, w, S, evs, f, outB, outP);
  }

  lemma ReenterLocally(net: Net, u: World, i: Bytes, timestamp: i64)
    requires i in u.nodes && AtHeightOne(net.cfg, i, u.nodes[i], 0) && !u.nodes[i].phase.Start?
    ensures Play(net, u, [Event(i, GiveUp), Event(i, EnterRound([], timestamp))])
         == After(u, i, EntersNext()(u.nodes[i]), {}, Publishes(net.cfg, 1, timestamp)(i))
  {
    var es := [Event(i, GiveUp), Event(i, EnterRound([], timestamp))];
    var n := u.nodes[i];
    var u1 := SetNode(u, i, NextRound(n));
    assert es[1..] == [es[1]];
    assert Next(net, u, es[0]) == u1;
    EnterLocally(net, u1, i, 1, timestamp);
    hide Next, Publishes;
    assert u1.nodes[i := Enters()(NextRound(n))] == u.nodes[i := EntersNext()(n)];
    assert Play(net, u1, es[1..]) == Next(net, u1, es[1]);
  }

  lemma ReenterSweep(net: Net, w: World, S: seq<Bytes>, timestamp: i64) returns (es: seq<Event>)
    requires Distinct(S) && forall i :: i in S ==> i in w.nodes && AtHeightOne(net.cfg, i, w.nodes[i], 0) && !w.nodes[i].phase.Start?
    ensures Swept(w, Play(net, w, es), S, EntersNext(), SignsNothing(), Publishes(net.cfg, 1, timestamp))
  {
    var evs := (i: Bytes) => [Event(i, GiveUp), Event(i, EnterRound([], timestamp))];
    var f, outB, outP := EntersNext(), SignsNothing(), Publishes(net.cfg, 1, timestamp);
    forall u: World, i: Bytes | i in S && i in u.nodes && i in w.nodes && u.nodes[i] == w.nodes[i]
                                && w.ballots <= u.ballots && w.proposed <= u.proposed
      ensures Play(net, u, evs(i)) == After(u, i, f(u.nodes[i]), outB(i), outP(i))
    {
      ReenterLocally(net, u, i, timestamp);
    }
    es := Sweep(net, w, S, evs, f, outB, outP);
  }

  /** Everybody enters and precommits round 0, each the variant shown to it. */
  lemma PlayFirstRound(net: Net, timestamp: i64, pick: Bytes -> Proposal) returns (run: seq<Event>)
    requires HonestNet(net) && forall i :: i in net.cfg.validators ==> Variant(net.cfg, 0, timestamp, pick(i))
    ensures RoundPrecommitted(net, Exec(net, run), net.cfg.validators, 0, pick, RoundHash(net.cfg, 0, timestamp))
    ensures Exec(net, run).nodes.Keys == net.honest && NothingButRound0(net, Exec(net, run))
  {
    var V := net.cfg.validators;
    var w := Init(net);
    UnanimityIsForThree(|V|);
    var es := EnterSweep(net, w, V, timestamp);
    var w1 := Play(net, w, es);
    FirstRoundOpen(net, w, w1, timestamp);
    assert forall i :: i in net.honest ==> i in V;
    hide Variant, RoundHash, Init, TheProposal, Play, Exec, RoundOpen, RoundPrecommitted, Swept, HonestNet, NothingButRound0;
    var more := PlayRound(net, w1, V, 0, timestamp, pick);
    run := es + more;
    PlayAppend(net, w, es, more);
    ExecIsPlay(net, run);
    OnlyRound0(net, w1, Play(net, w1, more));
  }

  /** Nothing is filed for any round but round 0 of height 1. */
  ghost predicate NothingButRound0(net: Net, w: World) {
    forall i, key :: i in w.nodes && key != RoundKey(1, 0) ==> Unfiled(w.nodes[i], key)
  }

  predicate Unfiled(n: Node, key: Bytes) {
    key !in n.proposals && key !in n.prevotes && key !in n.precommits
  }

  lemma OnlyRound0(net: Net, w: World, w': World)
    requires w.nodes.Keys == net.honest && OnlyRound(w, w', net.cfg.validators, 0)
    requires forall i :: i in net.honest ==> i in net.cfg.validators && FreshMaps(w.nodes[i])
    ensures w'.nodes.Keys == net.honest && NothingButRound0(net, w')
  {
    hide RoundKey;
  }

  predicate FreshMaps(n: Node) {
    n.proposals == map[] && n.prevotes == map[] && n.precommits == map[]
  }

  lemma LeaderIsMember(cfg: Config, r: u32)
    requires |cfg.validators| > 0
    ensures Leader(cfg, r) in cfg.validators
  {
  }

  lemma FirstRoundOpen(net: Net, w: World, w1: World, timestamp: i64)
    requires HonestNet(net) && w == Init(net)
    requires Swept(w, w1, net.cfg.validators, Enters(), SignsNothing(), Publishes(net.cfg, 0, timestamp))
    ensures RoundOpen(net, w1, net.cfg.validators, 0) && TheProposal(net.cfg, 0, timestamp) in w1.proposed
    ensures w1.nodes.Keys == net.honest
    ensures forall i :: i in net.honest ==> FreshMaps(w1.nodes[i])
  {
    LeaderIsMember(net.cfg, 0);
    assert Publishes(net.cfg, 0, timestamp)(Leader(net.cfg, 0)) <= w1.proposed;
  }

  lemma ProposalIsGenesisChild(cfg: Config, r: u32, timestamp: i64, txs: seq<Transaction>)
    requires NoncePlan(cfg.crypto, Genesis(cfg).ledger, txs).1 == Accepted
    ensures GenesisChild(cfg, TheProposal(cfg, r, timestamp).block.(transactions := txs))
  {
    GenesisShape(cfg);
  }
}
