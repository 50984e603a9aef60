/**
 The chain object (internal/blockchain/chain.go) over its store.
 */
module Chains {
  import opened Base
  import opened Blocks
  import opened Ledgers
  import opened Storage

  datatype Outcome = Done(verdict: Verdict) | StoreError

  /** A fresh store, or one whose block 0 is genesis: every store a node can leave behind. */
  predicate BootsCleanly(crypto: Crypto, L: Ledger) {
    L == FRESH || (L.head.Some? && 0 in L.blocks && L.blocks[0] == GenesisBlock(crypto))
  }

  lemma GenesisAgain(crypto: Crypto, L: Ledger)
    requires BootsCleanly(crypto, L) && Head(L) == 0
    ensures Boot(crypto, L).ledger == Apply(L, Write.PutBlock(GenesisBlock(crypto)))
  {
    var w := Write.PutBlock(GenesisBlock(crypto));
    assert ApplyAll(L, [w]) == Apply(L, w);
    if L != FRESH {
      assert L.blocks[0 := GenesisBlock(crypto)] == L.blocks;
    }
  }

  // ---------------------------------------------------------------- the transaction loop of CommitBlock

  /** The store after the loop has handled the first `i` transactions. */
  ghost predicate UpTo(c: Crypto, L0: Ledger, txs: seq<Transaction>, i: nat, L: Ledger) {
    var (ns, verdict) := NoncePlan(c, L0, txs);
    i <= |txs| && i <= |ns| && L == ApplyAll(L0, ns[..i]) && NoncePlan(c, L, txs[i..]) == (ns[i..], verdict)
  }

  lemma LoopStarts(c: Crypto, L0: Ledger, txs: seq<Transaction>)
    ensures UpTo(c, L0, txs, 0, L0)
  {
    var ns := NoncePlan(c, L0, txs).0;
    assert ns[..0] == [] && ns[0..] == ns && txs[0..] == txs;
  }

  lemma LoopStep(c: Crypto, L0: Ledger, txs: seq<Transaction>, i: nat, L: Ledger)
    requires i < |txs| && UpTo(c, L0, txs, i, L) && TxVerify(c, txs[i]) && txs[i].nonce > LastNonce(L, txs[i].from)
    ensures UpTo(c, L0, txs, i + 1, Apply(L, SetNonce(txs[i].from, txs[i].nonce)))
    ensures i < |NoncePlan(c, L0, txs).0|
  {
    var ns := NoncePlan(c, L0, txs).0;
    assert txs[i..][1..] == txs[i + 1..];
    assert ns[i..][0] == SetNonce(txs[i].from, txs[i].nonce);
    assert ns[..i + 1] == ns[..i] + [ns[i]];
    ApplyAllAppend(L0, ns[..i], [ns[i]]);
    assert ns[i..][1..] == ns[i + 1..];
  }

  lemma LoopStops(c: Crypto, L0: Ledger, txs: seq<Transaction>, i: nat, L: Ledger)
    requires i < |txs| && UpTo(c, L0, txs, i, L) && (!TxVerify(c, txs[i]) || txs[i].nonce <= LastNonce(L, txs[i].from))
    ensures var (ns, verdict) := NoncePlan(c, L0, txs);
      L == ApplyAll(L0, ns) && verdict == if !TxVerify(c, txs[i]) then InvalidTx else StaleNonce
  {
    var ns := NoncePlan(c, L0, txs).0;
    assert ns[i..] == [];
    assert ns[..i] == ns;
  }

  /** Some of the loop's writes, in order, have reached the store. */
  ghost predicate PartlyRaised(c: Crypto, L0: Ledger, txs: seq<Transaction>, L: Ledger) {
    exists k :: 0 <= k <= |NoncePlan(c, L0, txs).0| && L == ApplyAll(L0, NoncePlan(c, L0, txs).0[..k])
  }

  lemma UpToIsPart(c: Crypto, L0: Ledger, txs: seq<Transaction>, i: nat, L: Ledger)
    requires UpTo(c, L0, txs, i, L)
    ensures PartlyRaised(c, L0, txs, L)
  {
  }

  lemma LoopEnds(c: Crypto, L0: Ledger, txs: seq<Transaction>, L: Ledger)
    requires UpTo(c, L0, txs, |txs|, L)
    ensures NoncePlan(c, L0, txs).1 == Accepted && L == ApplyAll(L0, NoncePlan(c, L0, txs).0)
  {
    var ns := NoncePlan(c, L0, txs).0;
    assert txs[|txs|..] == [];
    assert ns[..|txs|] == ns;
  }

  class Chain {
    const crypto: Crypto
    const store: Store
    var tip: u64

    ghost predicate Valid()
      reads this, store
    {
      store.Valid()
    }

    ghost function State(): ChainState
      reads this, store
    {
      ChainState(store.ledger, tip)
    }

    constructor (crypto: Crypto, store: Store, tip: u64)
      ensures this.crypto == crypto && this.store == store && this.tip == tip
    {
      this.crypto, this.store, this.tip := crypto, store, tip;
    }

    /**
     NewChain: null stands for the error return. A failed read of block 0 counts as not found and
     only rewrites genesis.
     */
    static method Open(crypto: Crypto, store: Store) returns (c: Chain?)
      requires store.Valid()
      modifies store
      ensures store.Valid()
      ensures store.reliable ==> c != null
      ensures c != null ==> fresh(c) && c.crypto == crypto && c.store == store
      ensures c != null && BootsCleanly(crypto, old(store.ledger)) ==> c.State() == Boot(crypto, old(store.ledger))
    {
      var ok, head := store.Head();
      if !ok {
        return null;
      }
      if head == 0 {
        var _, b := store.GetBlock(0);
        if b.None? {
          if BootsCleanly(crypto, store.ledger) {
            GenesisAgain(crypto, store.ledger);
          }
          ok := store.PutBlock(GenesisBlock(crypto));
          if !ok {
            return null;
          }
        }
      }
      c := new Chain(crypto, store, head);
    }

    /** The checks of CommitBlock before its transaction loop. They write nothing. */
    method Admit(b: Block, quorum: int, validatorSet: set<Bytes>) returns (outcome: Outcome)
      requires Valid()
      ensures store.reliable ==> outcome.Done?
      ensures outcome.Done? ==> outcome.verdict == Admission(Rules(crypto, quorum, validatorSet), store.ledger, tip, b)
    {
      var ok, current := store.GetBlock(tip);
      if !ok {
        return StoreError;
      }
      if current.None? {
        return Done(TipMissing);
      }
      if b.height != NextHeight(tip) {
        return Done(OutOfOrder);
      }
      if b.prevHash != BlockHash(crypto, current.value) {
        return Done(PrevHashMismatch);
      }
      var certified := VerifyCommitQuorum(crypto, b, quorum, validatorSet);
      return Done(if certified then Accepted else NoQuorum);
    }

    /** The transaction loop of CommitBlock: verify, check the nonce, raise the watermark. */
    method RaiseWatermarks(txs: seq<Transaction>) returns (outcome: Outcome)
      requires Valid()
      modifies store
      ensures Valid() && (store.reliable ==> outcome.Done?)
      ensures var (ns, verdict) := NoncePlan(crypto, old(store.ledger), txs);
        if outcome.Done? then outcome.verdict == verdict && store.ledger == ApplyAll(old(store.ledger), ns)
        else PartlyRaised(crypto, old(store.ledger), txs, store.ledger)
    {
      ghost var L0 := store.ledger;
      LoopStarts(crypto, L0, txs);
      hide NoncePlan, ApplyAll, Apply, UpTo, PartlyRaised;
      for i := 0 to |txs|
        invariant store.Valid()
        invariant UpTo(crypto, L0, txs, i, store.ledger)
      {
        var tx := txs[i];
        if !TxVerify(crypto, tx) {
          LoopStops(crypto, L0, txs, i, store.ledger);
          return Done(InvalidTx);
        }
        var ok1, last := store.LastNonce(tx.from);
        if !ok1 {
          UpToIsPart(crypto, L0, txs, i, store.ledger);
          return StoreError;
        }
        if tx.nonce <= last {
          LoopStops(crypto, L0, txs, i, store.ledger);
          return Done(StaleNonce);
        }
        UpToIsPart(crypto, L0, txs, i, store.ledger);
        LoopStep(crypto, L0, txs, i, store.ledger);
        var ok2 := store.SetLastNonce(tx.from, tx.nonce);
        if !ok2 {
          return StoreError;
        }
      }
      LoopEnds(crypto, L0, txs, store.ledger);
      return Done(Accepted);
    }

    /**
     CommitBlock. Without a store error it does exactly what `Commit` says; a store error leaves a
     strict beginning of the commit's writes behind and the tip untouched.
     */
    method CommitBlock(b: Block, quorum: int, validators: seq<Bytes>) returns (outcome: Outcome)
      requires Valid()
      modifies this, store
      ensures Valid() && (store.reliable ==> outcome.Done?)
      ensures var r := Rules(crypto, quorum, set v | v in validators);
        if outcome.Done? then
          outcome.verdict == Commit(r, old(State()), b).1 && State() == Commit(r, old(State()), b).0
        else
          tip == old(tip) && BrokenOff(r, old(State()), b, store.ledger)
    {
      var validatorSet := set v | v in validators;
      ghost var r := Rules(crypto, quorum, validatorSet);
      ghost var s0 := State();
      hide Commit, CommitPlan, NoncePlan, ApplyAll, Admission, BrokenOff, PartlyRaised, Apply;
      NothingWritten(r, s0, b);
      outcome := Admit(b, quorum, validatorSet);
      if outcome != Done(Accepted) {
        if outcome.Done? {
          CommitRefused(r, s0, b);
        }
        return;
      }
      outcome := RaiseWatermarks(b.transactions);
      if outcome.StoreError? {
        PartlyRaisedIsBrokenOff(r, s0, b, store.ledger);
        return;
      }
      if outcome != Done(Accepted) {
        CommitStopped(r, s0, b);
        return;
      }
      AllRaisedIsPart(r.crypto, s0.ledger, b.transactions);
      PartlyRaisedIsBrokenOff(r, s0, b, store.ledger);
      var ok := store.PutBlock(b);
      if !ok {
        return StoreError;
      }
      CommitCompleted(r, s0, b);
      tip := b.height;
    }
  }

  lemma CommitRefused(r: Rules, s: ChainState, b: Block)
    requires Admission(r, s.ledger, s.tip, b) != Accepted
    ensures Commit(r, s, b) == (s, Admission(r, s.ledger, s.tip, b))
  {
  }

  lemma CommitStopped(r: Rules, s: ChainState, b: Block)
    requires Admission(r, s.ledger, s.tip, b) == Accepted && NoncePlan(r.crypto, s.ledger, b.transactions).1 != Accepted
    ensures var (ns, verdict) := NoncePlan(r.crypto, s.ledger, b.transactions);
      Commit(r, s, b) == (ChainState(ApplyAll(s.ledger, ns), s.tip), verdict)
  {
  }

  lemma CommitCompleted(r: Rules, s: ChainState, b: Block)
    requires Admission(r, s.ledger, s.tip, b) == Accepted && NoncePlan(r.crypto, s.ledger, b.transactions).1 == Accepted
    ensures var L1 := ApplyAll(s.ledger, NoncePlan(r.crypto, s.ledger, b.transactions).0);
      Commit(r, s, b) == (ChainState(Apply(L1, Write.PutBlock(b)), b.height), Accepted)
  {
    AcceptedEffect(r, s, b);
  }

  lemma AllRaisedIsPart(c: Crypto, L0: Ledger, txs: seq<Transaction>)
    ensures PartlyRaised(c, L0, txs, ApplyAll(L0, NoncePlan(c, L0, txs).0))
  {
    var ns := NoncePlan(c, L0, txs).0;
    assert ns[..|ns|] == ns;
  }

  lemma PartlyRaisedIsBrokenOff(r: Rules, s: ChainState, b: Block, L: Ledger)
    requires Admission(r, s.ledger, s.tip, b) == Accepted && PartlyRaised(r.crypto, s.ledger, b.transactions, L)
    ensures BrokenOff(r, s, b, L)
  {
    var ns := NoncePlan(r.crypto, s.ledger, b.transactions).0;
    var ws := CommitPlan(r, s.ledger, s.tip, b).0;
    var k :| 0 <= k <= |ns| && L == ApplyAll(s.ledger, ns[..k]);
    assert ws[..k] == ns[..k];
  }
}
