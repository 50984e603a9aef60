/**
 The pool of unconfirmed transactions (internal/mempool/mempool.go).
 */
module Mempools {
  import opened Base
  import opened Text
  import opened Blocks
  import opened Ledgers
  import opened Storage

  const MAX_POOL_SIZE := 50_000
  const MILLISECOND := 1_000_000
  const MAX_CLOCK_SKEW := 120_000 * MILLISECOND

  /** The two maps of a Mempool. The rate limiters are external: their answer is a parameter of Add. */
  datatype Pool = Pool(byHash: map<Bytes, Transaction>, pending: map<Bytes, u64>)

  const EMPTY_POOL := Pool(map[], map[])

  datatype AddResult =
    Admitted | AlreadyKnown | BadSignature | NotFresh | PoolFull | RateLimited | LookupFailed | ReplayedNonce

  // ---------------------------------------------------------------- freshness

  /** Go's int64 arithmetic. */
  function Wrap64(x: int): i64 {
    var m := x % 0x1_0000_0000_0000_0000;
    if m >= 0x8000_0000_0000_0000 then m - 0x1_0000_0000_0000_0000 else m
  }

  /** The clock check of Add, in milliseconds scaled to nanoseconds, every operation in 64 bits. */
  predicate Fresh(now: i64, timestamp: i64) {
    var skew := Wrap64(now - timestamp);
    var size := if skew < 0 then Wrap64(0 - skew) else skew;
    Wrap64(size * MILLISECOND) <= MAX_CLOCK_SKEW
  }

  /** The longest difference, about 292 years, whose nanoseconds still fit 64 bits. */
  const MAX_DIFFERENCE := 9_223_372_036_854

  /** With a clock at `now`, the check means two minutes either way for timestamps up to `window` away. */
  ghost predicate MeansTwoMinutes(now: i64, window: nat) {
    forall timestamp: i64 :: now - window <= timestamp <= now + window ==>
      (Fresh(now, timestamp) <==> -120_000 <= now - timestamp <= 120_000)
  }

  lemma FreshWithin(now: i64, timestamp: i64)
    requires -MAX_DIFFERENCE <= now - timestamp <= MAX_DIFFERENCE
    ensures Fresh(now, timestamp) <==> -120_000 <= now - timestamp <= 120_000
  {
    var d := now - timestamp;
    var size: int := if d < 0 then 0 - d else d;
    Wrap64InRange(d);
    Wrap64InRange(size);
    Wrap64InRange(size * MILLISECOND);
    hide Wrap64;
  }

  /** One millisecond more, on either side, and the product wraps to a small number. */
  lemma FreshBeyond(now: i64, timestamp: i64)
    requires now - timestamp == MAX_DIFFERENCE + 1 || timestamp - now == MAX_DIFFERENCE + 1
    ensures Fresh(now, timestamp)
  {
    Wrap64InRange(now - timestamp);
    Wrap64InRange(MAX_DIFFERENCE + 1);
    assert Wrap64((MAX_DIFFERENCE + 1) * MILLISECOND) == (MAX_DIFFERENCE + 1) * MILLISECOND - 0x1_0000_0000_0000_0000;
    hide Wrap64;
  }

  /** At every reading of the clock, that is so exactly for windows of at most 292 years. */
  lemma FreshIsTwoMinutes(now: i64, window: nat)
    ensures MeansTwoMinutes(now, window) <==> window <= MAX_DIFFERENCE
  {
    hide Fresh;
    if window <= MAX_DIFFERENCE {
      forall timestamp: i64 | now - window <= timestamp <= now + window
        ensures Fresh(now, timestamp) <==> -120_000 <= now - timestamp <= 120_000
      {
        FreshWithin(now, timestamp);
      }
    } else {
      var far: i64 := if now < 0 then now + MAX_DIFFERENCE + 1 else now - MAX_DIFFERENCE - 1;
      FreshBeyond(now, far);
      assert !(-120_000 <= now - far <= 120_000);
    }
  }

  lemma Wrap64InRange(x: int)
    requires -0x8000_0000_0000_0000 <= x < 0x8000_0000_0000_0000
    ensures Wrap64(x) == x
  {
  }

  // ---------------------------------------------------------------- Add and Remove

  /** No nonce up to this one is admitted: the larger of the watermark and the highest pending nonce. */
  function Floor(L: Ledger, p: Pool, a: Bytes): u64 {
    var last := LastNonce(L, a);
    var highest := if a in p.pending then p.pending[a] else 0;
    if highest > last then highest else last
  }

  /** Add without a failing nonce lookup, in the order of its checks. */
  function AddTo(c: Crypto, L: Ledger, p: Pool, tx: Transaction, now: i64, allowed: bool): (Pool, AddResult) {
    if !TxVerify(c, tx) then (p, BadSignature)
    else if !Fresh(now, tx.timestamp) then (p, NotFresh)
    else if |p.byHash| >= MAX_POOL_SIZE then (p, PoolFull)
    else if !allowed then (p, RateLimited)
    else if tx.nonce <= Floor(L, p, tx.from) then (p, ReplayedNonce)
    else if TxHash(c, tx) in p.byHash then (p, AlreadyKnown)
    else (Pool(p.byHash[TxHash(c, tx) := tx], p.pending[tx.from := tx.nonce]), Admitted)
  }

  function Hashes(c: Crypto, txs: seq<Transaction>): set<Bytes> {
    set t | t in txs :: TxHash(c, t)
  }

  lemma NoHashes(c: Crypto)
    ensures Hashes(c, []) == {}
  {
  }

  lemma OneMoreHash(c: Crypto, txs: seq<Transaction>, i: nat)
    requires i < |txs|
    ensures Hashes(c, txs[..i + 1]) == Hashes(c, txs[..i]) + {TxHash(c, txs[i])}
  {
    hide TxHash;
    assert txs[..i + 1] == txs[..i] + [txs[i]];
  }

  function Without<T>(m: map<Bytes, T>, dead: set<Bytes>): map<Bytes, T> {
    map h | h in m && h !in dead :: m[h]
  }

  lemma WithoutOneMore<T>(m: map<Bytes, T>, dead: set<Bytes>, h: Bytes)
    ensures Without(m, {}) == m
    ensures Without(m, dead) - {h} == Without(m, dead + {h})
  {
  }

  /** Remove: only the pooled transactions go, the pending nonces stay. */
  function RemoveFrom(c: Crypto, p: Pool, txs: seq<Transaction>): Pool {
    p.(byHash := Without(p.byHash, Hashes(c, txs)))
  }

  // ---------------------------------------------------------------- what a pool keeps

  /** Pooled under its own hash and signed. */
  predicate WellKeyed(c: Crypto, p: Pool) {
    forall h :: h in p.byHash ==> TxHash(c, p.byHash[h]) == h && TxVerify(c, p.byHash[h])
  }

  predicate SameSlot(t: Transaction, u: Transaction) {
    t.from == u.from && t.nonce == u.nonce
  }

  predicate Pending(p: Pool, t: Transaction) {
    t.from in p.pending && t.nonce <= p.pending[t.from]
  }

  /** No two pooled transactions share sender and nonce, and none lies above its pending mark. */
  predicate Numbered(p: Pool) {
    && (forall h :: h in p.byHash ==> Pending(p, p.byHash[h]))
    && forall h, k :: h in p.byHash && k in p.byHash && h != k ==> !SameSlot(p.byHash[h], p.byHash[k])
  }

  predicate GoodPool(c: Crypto, p: Pool) {
    WellKeyed(c, p) && Numbered(p)
  }

  predicate Pooled(p: Pool, t: Transaction) {
    exists h :: h in p.byHash && p.byHash[h] == t
  }

  /** What an admitted transaction changes: it is signed and its nonce is new, above every pooled one. */
  lemma AddKeepsGood(c: Crypto, L: Ledger, p: Pool, tx: Transaction, now: i64, allowed: bool)
    requires GoodPool(c, p)
    ensures var (p', result) := AddTo(c, L, p, tx, now, allowed);
      && GoodPool(c, p')
      && if result == Admitted then Admits(c, L, p, tx, p') else p' == p
  {
    hide TxHash, TxVerify, Fresh;
    if AddTo(c, L, p, tx, now, allowed).1 == Admitted {
      AdmittedIsPooled(c, p, tx);
      AdmittedKeepsGood(c, p, tx);
      hide Pooled, GoodPool;
    }
  }

  /**
   A transaction is pooled that was not, if and only if it is signed, its timestamp is fresh, fewer than 50 000
   are pooled, its sender's bucket allows it, its nonce is above the watermark and above every nonce of that
   sender ever pooled, and its hash is not pooled. Up to 292 years off, fresh means two minutes either way.
   */
  lemma AdmittedExactly(c: Crypto, L: Ledger, p: Pool, tx: Transaction, now: i64, allowed: bool)
    requires GoodPool(c, p)
    ensures var p' := AddTo(c, L, p, tx, now, allowed).0;
      Pooled(p', tx) && !Pooled(p, tx) <==>
        && TxVerify(c, tx) && Fresh(now, tx.timestamp)
        && |p.byHash| < 50_000 && allowed
        && tx.nonce > LastNonce(L, tx.from) && (tx.from in p.pending ==> tx.nonce > p.pending[tx.from])
        && TxHash(c, tx) !in p.byHash
    ensures -MAX_DIFFERENCE <= now - tx.timestamp <= MAX_DIFFERENCE ==>
      (Fresh(now, tx.timestamp) <==> -120_000 <= now - tx.timestamp <= 120_000)
  {
    hide TxHash, TxVerify, Fresh;
    if -MAX_DIFFERENCE <= now - tx.timestamp <= MAX_DIFFERENCE {
      FreshWithin(now, tx.timestamp);
    }
    if TxHash(c, tx) !in p.byHash {
      AdmittedIsPooled(c, p, tx);
    }
    if Pooled(p, tx) {
      PooledUnderHash(c, p, tx);
    }
  }

  lemma PooledUnderHash(c: Crypto, p: Pool, t: Transaction)
    requires GoodPool(c, p) && Pooled(p, t)
    ensures TxHash(c, t) in p.byHash
  {
  }

  lemma AdmittedKeepsGood(c: Crypto, p: Pool, tx: Transaction)
    requires GoodPool(c, p) && TxVerify(c, tx) && TxHash(c, tx) !in p.byHash
    requires tx.from in p.pending ==> tx.nonce > p.pending[tx.from]
    ensures GoodPool(c, Pool(p.byHash[TxHash(c, tx) := tx], p.pending[tx.from := tx.nonce]))
  {
    hide TxHash, TxVerify;
    var p' := Pool(p.byHash[TxHash(c, tx) := tx], p.pending[tx.from := tx.nonce]);
    forall k | k in p.byHash ensures k != TxHash(c, tx) && Pending(p', p.byHash[k]) && !SameSlot(tx, p.byHash[k]) {
      assert Pending(p, p.byHash[k]);
    }
  }

  lemma AdmittedIsPooled(c: Crypto, p: Pool, tx: Transaction)
    requires TxHash(c, tx) !in p.byHash
    ensures var p' := Pool(p.byHash[TxHash(c, tx) := tx], p.pending[tx.from := tx.nonce]);
      forall t :: Pooled(p', t) <==> t == tx || Pooled(p, t)
  {
    hide TxHash;
    var p' := Pool(p.byHash[TxHash(c, tx) := tx], p.pending[tx.from := tx.nonce]);
    forall t ensures Pooled(p', t) <==> t == tx || Pooled(p, t) {
      if t == tx {
        assert p'.byHash[TxHash(c, tx)] == t;
      } else if Pooled(p, t) {
        var k :| k in p.byHash && p.byHash[k] == t;
        assert p'.byHash[k] == t;
      }
    }
  }

  ghost predicate Admits(c: Crypto, L: Ledger, p: Pool, tx: Transaction, p': Pool) {
    && TxVerify(c, tx) && tx.nonce > LastNonce(L, tx.from)
    && (tx.from in p.pending ==> tx.nonce > p.pending[tx.from])
    && p'.pending == p.pending[tx.from := tx.nonce]
    && forall t :: Pooled(p', t) <==> t == tx || Pooled(p, t)
  }

  /** Remove deletes exactly the listed hashes. */
  lemma RemoveKeepsGood(c: Crypto, p: Pool, txs: seq<Transaction>)
    requires GoodPool(c, p)
    ensures GoodPool(c, RemoveFrom(c, p, txs)) && RemoveFrom(c, p, txs).pending == p.pending
    ensures forall t :: Pooled(RemoveFrom(c, p, txs), t) <==> Pooled(p, t) && TxHash(c, t) !in Hashes(c, txs)
  {
    var p' := RemoveFrom(c, p, txs);
    forall t ensures Pooled(p', t) <==> Pooled(p, t) && TxHash(c, t) !in Hashes(c, txs) {
      if Pooled(p, t) && TxHash(c, t) !in Hashes(c, txs) {
        var h :| h in p.byHash && p.byHash[h] == t;
        assert h in p'.byHash;
      }
    }
  }

  // ---------------------------------------------------------------- Propose

  /** The order of Propose's sort: by sender, then by nonce. */
  predicate Before(t: Transaction, u: Transaction) {
    if t.from != u.from then TextLess(t.from, u.from) else t.nonce < u.nonce
  }

  predicate Ordered(txs: seq<Transaction>) {
    forall i, j :: 0 <= i < j < |txs| ==> !Before(txs[j], txs[i])
  }

  predicate NoRepeats<T(==)>(s: seq<T>) {
    forall i, j :: 0 <= i < j < |s| ==> s[i] != s[j]
  }

  /** Each pooled transaction once, in order. */
  ghost predicate ListsPool(p: Pool, all: seq<Transaction>) {
    && Ordered(all) && NoRepeats(all)
    && forall t :: t in all <==> Pooled(p, t)
  }

  function Cut<T>(s: seq<T>, limit: nat): seq<T> {
    if |s| > limit then s[..limit] else s
  }

  ghost predicate IsProposal(p: Pool, limit: nat, out: seq<Transaction>) {
    exists all :: ListsPool(p, all) && out == Cut(all, limit)
  }

  lemma BeforeTransitive(t: Transaction, u: Transaction, v: Transaction)
    requires !Before(u, t) && !Before(v, u)
    ensures !Before(v, t)
  {
    TextLeqTotal(t.from, u.from);
    TextLeqTotal(u.from, v.from);
    TextLeqTransitive(t.from, u.from, v.from);
    if TextLeq(v.from, t.from) && t.from != v.from {
      TextLeqAntisymmetric(t.from, v.from);
    } else if t.from == v.from && t.from != u.from {
      TextLeqAntisymmetric(t.from, u.from);
    }
  }

  lemma BeforeOrEqual(t: Transaction, u: Transaction)
    requires !Before(t, u) && !Before(u, t)
    ensures t.from == u.from && t.nonce == u.nonce
  {
    TextLeqTotal(t.from, u.from);
  }

  lemma BeforeAsymmetric(t: Transaction, u: Transaction)
    ensures Before(t, u) ==> !Before(u, t)
  {
    if Before(t, u) && Before(u, t) {
      TextLeqAntisymmetric(t.from, u.from);
    }
  }

  /** In a good pool, what is proposed is fixed: neither the map's order nor the sort can change it. */
  lemma ProposalIsUnique(c: Crypto, p: Pool, limit: nat, a: seq<Transaction>, b: seq<Transaction>)
    requires GoodPool(c, p) && IsProposal(p, limit, a) && IsProposal(p, limit, b)
    ensures a == b
  {
    var all :| ListsPool(p, all) && a == Cut(all, limit);
    var bll :| ListsPool(p, bll) && b == Cut(bll, limit);
    ListingIsUnique(c, p, all, bll, 0);
  }

  /**
   What is proposed is pooled, ordered by sender as Go orders strings and then by nonce, and no longer than the
   limit; below the limit it is the whole pool.
   */
  lemma ProposalExactly(c: Crypto, p: Pool, limit: nat, out: seq<Transaction>)
    requires GoodPool(c, p) && IsProposal(p, limit, out)
    ensures forall i, j :: 0 <= i < j < |out| ==>
      if out[i].from == out[j].from then out[i].nonce < out[j].nonce else exists k: nat :: LowerAt(out[i].from, out[j].from, k)
    ensures |out| <= limit && forall t :: t in out ==> Pooled(p, t)
    ensures |out| < limit ==> forall t :: Pooled(p, t) ==> t in out
  {
    hide GoodPool, Pooled, TextLess, LowerAt;
    var all :| ListsPool(p, all) && out == Cut(all, limit);
    assert forall i :: 0 <= i < |out| ==> out[i] == all[i] && all[i] in all;
    forall i, j | 0 <= i < j < |out|
      ensures if out[i].from == out[j].from then out[i].nonce < out[j].nonce else exists k: nat :: LowerAt(out[i].from, out[j].from, k)
    {
      PooledApart(c, p, all[i], all[j]);
      TextLessExactly(out[i].from, out[j].from);
    }
  }

  /** Pooled transactions are told apart by the order alone. */
  lemma PooledApart(c: Crypto, p: Pool, t: Transaction, u: Transaction)
    requires GoodPool(c, p) && Pooled(p, t) && Pooled(p, u) && t != u
    ensures Before(t, u) || Before(u, t)
  {
    if !Before(t, u) && !Before(u, t) {
      BeforeOrEqual(t, u);
    }
  }

  predicate AgreeUpTo<T(==)>(a: seq<T>, b: seq<T>, n: nat) {
    n <= |a| && n <= |b| && forall i :: 0 <= i < n ==> a[i] == b[i]
  }

  lemma {:induction false} ListingIsUnique(c: Crypto, p: Pool, a: seq<Transaction>, b: seq<Transaction>, n: nat)
    requires GoodPool(c, p) && ListsPool(p, a) && ListsPool(p, b) && AgreeUpTo(a, b, n)
    ensures a == b
    decreases |a| - n
  {
    if n == |a| || n == |b| {
      NothingMissing(p, a, b, n);
      NothingMissing(p, b, a, n);
    } else {
      LaterNotBefore(p, a, b, n);
      LaterNotBefore(p, b, a, n);
      assert a[n] in a && b[n] in b;
      if a[n] != b[n] {
        PooledApart(c, p, a[n], b[n]);
      }
      ListingIsUnique(c, p, a, b, n + 1);
    }
  }

  lemma NothingMissing(p: Pool, a: seq<Transaction>, b: seq<Transaction>, n: nat)
    requires ListsPool(p, a) && ListsPool(p, b) && AgreeUpTo(a, b, n)
    ensures n == |b| ==> n == |a|
  {
    if n == |b| < |a| {
      assert Pooled(p, a[n]) by {
        assert a[n] in a;
      }
    }
  }

  /** What `b` lists at n, `a` lists at n or later. */
  lemma LaterNotBefore(p: Pool, a: seq<Transaction>, b: seq<Transaction>, n: nat)
    requires ListsPool(p, a) && ListsPool(p, b) && n < |a| && n < |b| && AgreeUpTo(a, b, n)
    ensures !Before(b[n], a[n])
  {
    assert b[n] in b && b[n] in a;
    var j :| 0 <= j < |a| && a[j] == b[n];
    BeforeAsymmetric(a[n], a[n]);
  }

  /** sort.Slice, which promises no more than order and the same elements. */
  method SortTxs(s: seq<Transaction>) returns (r: seq<Transaction>)
    ensures Ordered(r) && multiset(r) == multiset(s)
  {
    r := [];
    assert Ordered(r);
    hide Before, Ordered;
    for i := 0 to |s|
      invariant Ordered(r) && multiset(r) == multiset(s[..i])
    {
      var k := 0;
      while k < |r| && !Before(s[i], r[k])
        invariant k <= |r| && forall j :: 0 <= j < k ==> !Before(s[i], r[j])
      {
        k := k + 1;
      }
      assert s[..i + 1] == s[..i] + [s[i]];
      InsertKeepsOrder(r, k, s[i]);
      r := r[..k] + [s[i]] + r[k..];
    }
    assert s[..|s|] == s;
  }

  lemma InsertKeepsOrder(r: seq<Transaction>, k: nat, t: Transaction)
    requires Ordered(r) && k <= |r|
    requires forall j :: 0 <= j < k ==> !Before(t, r[j])
    requires k < |r| ==> Before(t, r[k])
    ensures Ordered(r[..k] + [t] + r[k..])
    ensures multiset(r[..k] + [t] + r[k..]) == multiset(r) + multiset{t}
  {
    assert r == r[..k] + r[k..];
    hide Before;
    assert forall j :: 0 <= j < k ==> !Before(t, r[j]);
    forall j | k <= j < |r| ensures !Before(r[j], t) {
      BeforeAsymmetric(t, r[k]);
      if j > k {
        BeforeTransitive(t, r[k], r[j]);
      }
    }
  }

  class Mempool {
    const crypto: Crypto
    const nonces: Store
    var byHash: map<Bytes, Transaction>
    var pending: map<Bytes, u64>

    function State(): Pool
      reads this
    {
      Pool(byHash, pending)
    }

    constructor (crypto: Crypto, nonces: Store)
      ensures this.crypto == crypto && this.nonces == nonces
      ensures State() == EMPTY_POOL && GoodPool(crypto, State())
    {
      this.crypto, this.nonces := crypto, nonces;
      byHash, pending := map[], map[];
    }

    method Add(tx: Transaction, now: i64, allowed: bool) returns (r: AddResult)
      requires GoodPool(crypto, State()) && nonces.Valid()
      modifies this
      ensures GoodPool(crypto, State())
      ensures if r == LookupFailed then State() == old(State())
              else (State(), r) == AddTo(crypto, nonces.ledger, old(State()), tx, now, allowed)
      ensures nonces.reliable ==> r != LookupFailed
    {
      ghost var before := State();
      hide TxHash, TxVerify, Fresh, GoodPool;
      if !TxVerify(crypto, tx) {
        return BadSignature;
      }
      if !Fresh(now, tx.timestamp) {
        return NotFresh;
      }
      if |byHash| >= MAX_POOL_SIZE {
        return PoolFull;
      }
      if !allowed {
        return RateLimited;
      }
      var ok, lastCommitted := nonces.LastNonce(tx.from);
      if !ok {
        return LookupFailed;
      }
      var floor := lastCommitted;
      if tx.from in pending && pending[tx.from] > floor {
        floor := pending[tx.from];
      }
      if tx.nonce <= floor {
        return ReplayedNonce;
      }
      var hash := TxHash(crypto, tx);
      if hash in byHash {
        return AlreadyKnown;
      }
      AddKeepsGood(crypto, nonces.ledger, before, tx, now, allowed);
      byHash := byHash[hash := tx];
      pending := pending[tx.from := tx.nonce];
      r := Admitted;
    }

    method Propose(limit: nat) returns (out: seq<Transaction>)
      requires GoodPool(crypto, State())
      ensures IsProposal(State(), limit, out)
    {
      var found: seq<Transaction> := [];
      var rest := byHash.Keys;
      AllLeft(State());
      while rest != {}
        invariant Gathered(State(), rest, found)
      {
        var h :| h in rest;
        GatherOne(crypto, State(), rest, found, h);
        found := found + [byHash[h]];
        rest := rest - {h};
      }
      var all := SortTxs(found);
      SameElementsNoRepeats(found, all);
      out := Cut(all, limit);
    }

    method Remove(txs: seq<Transaction>)
      requires GoodPool(crypto, State())
      modifies this
      ensures GoodPool(crypto, State()) && State() == RemoveFrom(crypto, old(State()), txs)
    {
      ghost var before := State();
      RemoveKeepsGood(crypto, before, txs);
      NoHashes(crypto);
      WithoutOneMore(byHash, {}, []);
      hide TxHash, GoodPool, Hashes, Without;
      for i := 0 to |txs|
        invariant pending == before.pending && byHash == Without(before.byHash, Hashes(crypto, txs[..i]))
      {
        WithoutOneMore(before.byHash, Hashes(crypto, txs[..i]), TxHash(crypto, txs[i]));
        byHash := byHash - {TxHash(crypto, txs[i])};
        OneMoreHash(crypto, txs, i);
      }
      assert txs[..|txs|] == txs;
    }
  }

  /** Every transaction but those whose hash is in `rest`, once. */
  ghost predicate Gathered(p: Pool, rest: set<Bytes>, found: seq<Transaction>) {
    && rest <= p.byHash.Keys && NoRepeats(found)
    && forall t :: t in found <==> exists h :: h in p.byHash.Keys - rest && p.byHash[h] == t
  }

  lemma AllLeft(p: Pool)
    ensures Gathered(p, p.byHash.Keys, [])
  {
  }

  lemma GatherOne(c: Crypto, p: Pool, rest: set<Bytes>, found: seq<Transaction>, h: Bytes)
    requires WellKeyed(c, p) && Gathered(p, rest, found) && h in rest
    ensures Gathered(p, rest - {h}, found + [p.byHash[h]])
  {
    hide TxHash, TxVerify;
    var found' := found + [p.byHash[h]];
    assert p.byHash[h] !in found;
    forall t ensures t in found' <==> exists k :: k in p.byHash.Keys - (rest - {h}) && p.byHash[k] == t {
      if t in found {
        var k :| k in p.byHash.Keys - rest && p.byHash[k] == t;
        assert k in p.byHash.Keys - (rest - {h});
      }
      if t == p.byHash[h] {
        assert h in p.byHash.Keys - (rest - {h});
      }
    }
  }

  lemma SameElementsNoRepeats<T>(a: seq<T>, b: seq<T>)
    requires NoRepeats(a) && multiset(a) == multiset(b)
    ensures NoRepeats(b) && forall t :: t in a <==> t in b
  {
    forall t ensures t in a <==> t in b {
      assert t in multiset(a) <==> t in multiset(b);
    }
    forall i, j | 0 <= i < j < |b| && b[i] == b[j] ensures false {
      TwiceInSeq(b, i, j);
      OnceInSeq(a, b[i]);
    }
  }

  lemma TwiceInSeq<T>(s: seq<T>, i: nat, j: nat)
    requires i < j < |s| && s[i] == s[j]
    ensures multiset(s)[s[i]] >= 2
  {
    assert s == s[..i] + [s[i]] + s[i + 1..j] + [s[j]] + s[j + 1..];
  }

  lemma {:induction false} OnceInSeq<T>(s: seq<T>, x: T)
    requires NoRepeats(s)
    ensures multiset(s)[x] <= 1
  {
    if s != [] {
      assert s == s[..|s| - 1] + [s[|s| - 1]];
      OnceInSeq(s[..|s| - 1], x);
      if s[|s| - 1] == x {
        assert x !in s[..|s| - 1];
      }
    }
  }
}
