/**
 FetchHistory (pkg/client/client.go): one pass over committed blocks that learns the peers' keys as
 it goes.
 */
module Histories {
  import opened Base
  import opened Blocks
  import opened Wire

  /** `open(peerKey, nonce, ciphertext)` stands for the wallet's ECDH and AES-GCM. */
  datatype Wallet = Wallet(address: Bytes, open: (Bytes, Bytes, Bytes) -> Option<Bytes>)

  /** The caller's key map; None is Go's nil map, which can be read but never grows. */
  type Keys = Option<map<Bytes, Bytes>>

  datatype HistoryEvent = HistoryEvent(
    height: u64,
    txHash: Bytes,
    timestamp: i64,
    incoming: bool,
    peer: Bytes,
    peerKey: Bytes,
    plaintext: Bytes)

  /** A committed transaction and the height of its block. */
  datatype Item = Item(height: u64, tx: SmsRequest)

  function DecryptIncoming(w: Wallet, m: SmsRequest): Option<Bytes> {
    if |m.nonceAead| != 12 || |m.ephemeralPubkey| != 32 then None
    else w.open(m.ephemeralPubkey, m.nonceAead, m.ciphertext)
  }

  function DecryptOutgoing(w: Wallet, m: SmsRequest, key: Bytes): Option<Bytes> {
    if |m.nonceAead| != 12 then None else w.open(key, m.nonceAead, m.ciphertext)
  }

  function Lookup(known: Keys, a: Bytes): Option<Bytes> {
    if known.Some? && a in known.value then Some(known.value[a]) else None
  }

  function Learn(known: Keys, a: Bytes, key: Bytes): Keys {
    if known.Some? then Some(known.value[a := key]) else None
  }

  /** A transaction to this wallet that it can open. */
  predicate Opens(w: Wallet, m: SmsRequest) {
    m.toAddress == w.address && DecryptIncoming(w, m).Some?
  }

  /** The two cases of the scan: the keys afterwards and the event, if any. */
  function Visit(c: Crypto, w: Wallet, known: Keys, it: Item): (Keys, Option<HistoryEvent>) {
    var m := it.tx;
    if m.toAddress == w.address then
      var plain := DecryptIncoming(w, m);
      if plain.None? then (known, None)
      else (Learn(known, m.fromAddress, m.ephemeralPubkey),
            Some(HistoryEvent(it.height, TxHashFromPb(c, m), m.timestamp, true, m.fromAddress, m.ephemeralPubkey, plain.value)))
    else if m.fromAddress == w.address then
      var key := Lookup(known, m.toAddress);
      if key.None? then (known, None)
      else
        var plain := DecryptOutgoing(w, m, key.value);
        if plain.None? then (known, None)
        else (known, Some(HistoryEvent(it.height, TxHashFromPb(c, m), m.timestamp, false, m.toAddress, key.value, plain.value)))
    else (known, None)
  }

  function Listed(e: Option<HistoryEvent>): seq<HistoryEvent> {
    if e.Some? then [e.value] else []
  }

  /** The whole scan: final keys and events in order. */
  function Scan(c: Crypto, w: Wallet, known: Keys, items: seq<Item>): (Keys, seq<HistoryEvent>)
    decreases |items|
  {
    if items == [] then (known, [])
    else
      var (k1, e) := Visit(c, w, known, items[0]);
      var (k2, es) := Scan(c, w, k1, items[1..]);
      (k2, Listed(e) + es)
  }

  function ItemsOf(b: BlockPB): (r: seq<Item>)
    ensures |r| == |b.transactions|
  {
    seq(|b.transactions|, i requires 0 <= i < |b.transactions| => Item(b.height, b.transactions[i]))
  }

  /** All transactions of a stretch of blocks, in chain order. */
  function Items(blocks: seq<BlockPB>): seq<Item>
    decreases |blocks|
  {
    if blocks == [] then [] else Items(blocks[..|blocks| - 1]) + ItemsOf(blocks[|blocks| - 1])
  }

  // ---------------------------------------------------------------- resuming

  /** Scanning on with the returned keys is scanning in one go. */
  lemma {:induction false} ScanResumes(c: Crypto, w: Wallet, known: Keys, a: seq<Item>, b: seq<Item>)
    ensures var (k1, e1) := Scan(c, w, known, a);
      var (k2, e2) := Scan(c, w, k1, b);
      Scan(c, w, known, a + b) == (k2, e1 + e2)
    decreases |a|
  {
    hide Visit;
    if a == [] {
      assert a + b == b;
      assert [] + Scan(c, w, known, b).1 == Scan(c, w, known, b).1;
    } else {
      assert (a + b)[1..] == a[1..] + b;
      var (k, e) := Visit(c, w, known, a[0]);
      ScanResumes(c, w, k, a[1..], b);
      var e1 := Scan(c, w, k, a[1..]).1;
      var e2 := Scan(c, w, Scan(c, w, k, a[1..]).0, b).1;
      assert Listed(e) + (e1 + e2) == Listed(e) + e1 + e2;
    }
  }

  lemma ScanOne(c: Crypto, w: Wallet, known: Keys, it: Item)
    ensures Scan(c, w, known, [it]) == (Visit(c, w, known, it).0, Listed(Visit(c, w, known, it).1))
  {
    hide Visit;
    assert [it][1..] == [];
    assert Listed(Visit(c, w, known, it).1) + [] == Listed(Visit(c, w, known, it).1);
  }

  lemma {:induction false} ItemsAppend(a: seq<BlockPB>, b: seq<BlockPB>)
    ensures Items(a + b) == Items(a) + Items(b)
    decreases |b|
  {
    hide ItemsOf;
    if b == [] {
      assert a + b == a;
    } else {
      var init, last := b[..|b| - 1], ItemsOf(b[|b| - 1]);
      assert (a + b)[..|a + b| - 1] == a + init;
      ItemsAppend(a, init);
      assert Items(a + b) == (Items(a) + Items(init)) + last == Items(a) + (Items(init) + last);
    }
  }

  /**
   Stopping at any height and resuming from there with the returned height and keys equals one full
   scan.
   */
  lemma StopAndResume(c: Crypto, w: Wallet, known: Keys, chain: seq<BlockPB>, from: nat, stop: nat)
    requires from <= stop <= |chain|
    ensures var (k1, e1) := Scan(c, w, known, Items(chain[from..stop]));
      var (k2, e2) := Scan(c, w, k1, Items(chain[stop..]));
      Scan(c, w, known, Items(chain[from..])) == (k2, e1 + e2)
  {
    assert chain[from..] == chain[from..stop] + chain[stop..];
    ItemsAppend(chain[from..stop], chain[stop..]);
    ScanResumes(c, w, known, Items(chain[from..stop]), Items(chain[stop..]));
  }

  // ---------------------------------------------------------------- which keys are known when

  /** The latest key that an opened message from `a` carried, else the one supplied. */
  function LatestKey(w: Wallet, known: Keys, items: seq<Item>, a: Bytes): Option<Bytes>
    decreases |items|
  {
    if known.None? then None
    else if items == [] then Lookup(known, a)
    else
      var m := items[|items| - 1].tx;
      if Opens(w, m) && m.fromAddress == a then Some(m.ephemeralPubkey) else LatestKey(w, known, items[..|items| - 1], a)
  }

  lemma {:induction false} ScanLearnsLatest(c: Crypto, w: Wallet, known: Keys, items: seq<Item>, a: Bytes)
    ensures Lookup(Scan(c, w, known, items).0, a) == LatestKey(w, known, items, a)
    ensures Scan(c, w, known, items).0.Some? == known.Some?
    decreases |items|
  {
    if items != [] {
      var init, last := items[..|items| - 1], items[|items| - 1];
      ScanLearnsLatest(c, w, known, init, a);
      assert items == init + [last];
      ScanResumes(c, w, known, init, [last]);
      var k1 := Scan(c, w, known, init).0;
      ScanOne(c, w, k1, last);
      VisitLearns(c, w, k1, last, a);
      hide Scan, Visit, Lookup, Opens;
    }
  }

  lemma VisitLearns(c: Crypto, w: Wallet, known: Keys, it: Item, a: Bytes)
    ensures var k := Visit(c, w, known, it).0;
      && k.Some? == known.Some?
      && Lookup(k, a) == if known.Some? && Opens(w, it.tx) && it.tx.fromAddress == a then Some(it.tx.ephemeralPubkey) else Lookup(known, a)
  {
  }

  lemma {:induction false} LatestKeyKnown(w: Wallet, seed: map<Bytes, Bytes>, items: seq<Item>, a: Bytes)
    ensures LatestKey(w, Some(seed), items, a).Some? <==>
      a in seed || exists j :: 0 <= j < |items| && Opens(w, items[j].tx) && items[j].tx.fromAddress == a
    decreases |items|
  {
    hide Opens;
    if items != [] {
      LatestKeyKnown(w, seed, items[..|items| - 1], a);
    }
  }

  /** An event of the scan for the transaction at position k. */
  ghost predicate Recovers(c: Crypto, w: Wallet, known: Keys, items: seq<Item>, k: nat)
    requires k < |items|
  {
    Visit(c, w, Scan(c, w, known, items[..k]).0, items[k]).1.Some?
  }

  /** Incoming messages need nothing but the wallet. */
  lemma IncomingAlwaysRecovered(c: Crypto, w: Wallet, known: Keys, items: seq<Item>, k: nat)
    requires k < |items| && items[k].tx.toAddress == w.address
    ensures Recovers(c, w, known, items, k) <==> Opens(w, items[k].tx)
  {
  }

  /**
   An own message is recovered exactly if the recipient's key was supplied or had been learnt from a
   message earlier in chain order, and the latest such key opens it. A key that appears only later
   in the same scan does not help.
   */
  lemma OutgoingRecovered(c: Crypto, w: Wallet, seed: map<Bytes, Bytes>, items: seq<Item>, k: nat)
    requires k < |items| && items[k].tx.fromAddress == w.address != items[k].tx.toAddress
    ensures var a := items[k].tx.toAddress;
      var key := LatestKey(w, Some(seed), items[..k], a);
      && (Recovers(c, w, Some(seed), items, k) <==> key.Some? && DecryptOutgoing(w, items[k].tx, key.value).Some?)
      && (key.Some? <==> a in seed || exists j :: 0 <= j < k && Opens(w, items[j].tx) && items[j].tx.fromAddress == a)
  {
    var a := items[k].tx.toAddress;
    ScanLearnsLatest(c, w, Some(seed), items[..k], a);
    LatestKeyKnown(w, seed, items[..k], a);
    assert forall j :: 0 <= j < k ==> items[..k][j] == items[j];
  }

  /** We write first, the peer answers later: the scan recovers the answer and not our message. */
  lemma LaterKeyDoesNotHelp(c: Crypto, w: Wallet, sent: Item, answer: Item)
    requires sent.tx.fromAddress == w.address != sent.tx.toAddress
    requires Opens(w, answer.tx) && answer.tx.fromAddress == sent.tx.toAddress
    ensures !Recovers(c, w, Some(map[]), [sent, answer], 0) && Recovers(c, w, Some(map[]), [sent, answer], 1)
    ensures Lookup(Scan(c, w, Some(map[]), [sent, answer]).0, sent.tx.toAddress).Some?
  {
    var items := [sent, answer];
    OutgoingRecovered(c, w, map[], items, 0);
    IncomingAlwaysRecovered(c, w, Some(map[]), items, 1);
    ScanLearnsLatest(c, w, Some(map[]), items, sent.tx.toAddress);
    LatestKeyKnown(w, map[], items, sent.tx.toAddress);
    assert Opens(w, items[1].tx) && items[1].tx.fromAddress == sent.tx.toAddress;
  }

  /** The two wallets' key agreement: each opens with the other's key what the other opens with its own. */
  ghost predicate ShareSecret(a: Wallet, aKey: Bytes, b: Wallet, bKey: Bytes) {
    forall nonce, ciphertext :: a.open(bKey, nonce, ciphertext) == b.open(aKey, nonce, ciphertext)
  }

  /**
   A sent message reads the same from both ends: with the recipient's key known, the sender's scan
   and the recipient's scan recover it under the same hash, time and text, each naming the other, or
   neither recovers it.
   */
  lemma BothEndsAgree(c: Crypto, a: Wallet, aKey: Bytes, known: Keys, b: Wallet, bKey: Bytes, known': Keys, it: Item)
    requires ShareSecret(a, aKey, b, bKey) && |aKey| == 32 && a.address != b.address
    requires it.tx.fromAddress == a.address && it.tx.toAddress == b.address && it.tx.ephemeralPubkey == aKey
    requires Lookup(known, b.address) == Some(bKey)
    ensures var sent, got := Visit(c, a, known, it).1, Visit(c, b, known', it).1;
      && sent.Some? == got.Some?
      && (sent.Some? ==>
            got.value == sent.value.(incoming := true, peer := a.address, peerKey := aKey)
            && !sent.value.incoming && sent.value.peer == b.address && sent.value.peerKey == bKey)
  {
    var n, ct := it.tx.nonceAead, it.tx.ciphertext;
    assert a.open(bKey, n, ct) == b.open(aKey, n, ct);
  }

  lemma {:induction false} VisitedIsListed(c: Crypto, w: Wallet, known: Keys, items: seq<Item>, k: nat)
    requires k < |items| && Recovers(c, w, known, items, k)
    ensures Visit(c, w, Scan(c, w, known, items[..k]).0, items[k]).1.value in Scan(c, w, known, items).1
  {
    var e := Visit(c, w, Scan(c, w, known, items[..k]).0, items[k]).1;
    assert items == items[..k] + ([items[k]] + items[k + 1..]);
    ScanResumes(c, w, known, items[..k], [items[k]] + items[k + 1..]);
    hide Visit;
    var rest := Scan(c, w, Scan(c, w, known, items[..k]).0, [items[k]] + items[k + 1..]);
    assert ([items[k]] + items[k + 1..])[0] == items[k];
    assert Listed(e) == [e.value];
    assert rest.1[0] == e.value;
  }

  // ---------------------------------------------------------------- the loop

  /** Block i of the list has height i. */
  predicate InOrder(chain: seq<BlockPB>) {
    |chain| <= MAX_U64 && forall i :: 0 <= i < |chain| ==> chain[i].height == i
  }

  const HISTORY_BATCH := 500

  /** The keys and events of one scan of the blocks from..height - 1. */
  ghost predicate Scanned(c: Crypto, w: Wallet, known: Keys, chain: seq<BlockPB>, from: nat, height: nat,
                          keys: Keys, events: seq<HistoryEvent>) {
    && from <= height
    && if height == from then (keys, events) == (known, [])
       else height <= |chain| && (keys, events) == Scan(c, w, known, Items(chain[from..height]))
  }

  /**
   FetchHistory against a server that holds `held` blocks at the start and more and more of `chain` as the
   scan goes on, and cuts them into batches as it likes. Unless it is `up`, any call may fail, which ends the scan. In every
   case the keys and events are those of one scan of the blocks from `fromHeight` to the returned height:
   neither the batches nor the growth leave a trace.
   */
  method FetchHistory(c: Crypto, w: Wallet, fromHeight: u64, known: Keys, chain: seq<BlockPB>, held: nat, up: bool)
    returns (height: u64, keys: Keys, events: seq<HistoryEvent>, ok: bool)
    requires InOrder(chain) && held <= |chain|
    ensures Scanned(c, w, known, chain, fromHeight, height, keys, events)
    ensures (ok ==> held <= height) && (up ==> ok)
  {
    height, keys, events := fromHeight, known, [];
    assert Scanned(c, w, known, chain, fromHeight, height, keys, events);
    hide Scanned, Scan, Items, ItemsOf;
    var now := held;
    while true
      invariant Scanned(c, w, known, chain, fromHeight, height, keys, events)
      invariant held <= now <= |chain|
      decreases |chain| - height
    {
      var answered: bool := *;
      if !up && !answered {
        return height, keys, events, false;
      }
      var grown :| now <= grown <= |chain|;
      now := grown;
      if height >= now {
        return height, keys, events, true;
      }
      var size :| 1 <= size <= HISTORY_BATCH && size <= now - height;
      height, keys, events := ScanBatch(c, w, fromHeight, known, chain, height, size, keys, events);
    }
  }

  /** The loop over one reply of `size` blocks. */
  method ScanBatch(c: Crypto, w: Wallet, fromHeight: u64, known: Keys, chain: seq<BlockPB>, first: u64, size: nat,
                   before: Keys, found: seq<HistoryEvent>)
    returns (height: u64, keys: Keys, events: seq<HistoryEvent>)
    requires InOrder(chain) && first + size <= |chain|
    requires Scanned(c, w, known, chain, fromHeight, first, before, found)
    ensures height == first + size && Scanned(c, w, known, chain, fromHeight, height, keys, events)
  {
    height, keys, events := first, before, found;
    hide Scanned, Scan, Items, ItemsOf;
    for i := 0 to size
      invariant height == first + i
      invariant Scanned(c, w, known, chain, fromHeight, height, keys, events)
    {
      var b := chain[height];
      var k, es := ScanBlock(c, w, keys, b);
      OneBlockMore(c, w, known, chain, fromHeight, height, keys, events);
      keys, events := k, events + es;
      height := b.height + 1;
    }
  }


  lemma ItemsOneMore(chain: seq<BlockPB>, from: nat, height: nat)
    requires from <= height < |chain|
    ensures Items(chain[from..height + 1]) == Items(chain[from..height]) + ItemsOf(chain[height])
    ensures Items(chain[from..from]) == []
  {
    hide ItemsOf;
    var more := chain[from..height + 1];
    assert more[..|more| - 1] == chain[from..height] && more[|more| - 1] == chain[height];
  }

  lemma OneBlockMore(c: Crypto, w: Wallet, known: Keys, chain: seq<BlockPB>, from: nat, height: nat,
                     keys: Keys, events: seq<HistoryEvent>)
    requires height < |chain| && Scanned(c, w, known, chain, from, height, keys, events)
    ensures var (k, es) := Scan(c, w, keys, ItemsOf(chain[height]));
      Scanned(c, w, known, chain, from, height + 1, k, events + es)
  {
    ItemsOneMore(chain, from, height);
    assert (keys, events) == Scan(c, w, known, Items(chain[from..height]));
    hide Scan, Items, ItemsOf;
    ScanResumes(c, w, known, Items(chain[from..height]), ItemsOf(chain[height]));
  }

  /** The loop over one block's transactions. */
  method ScanBlock(c: Crypto, w: Wallet, known: Keys, b: BlockPB) returns (keys: Keys, events: seq<HistoryEvent>)
    ensures (keys, events) == Scan(c, w, known, ItemsOf(b))
  {
    keys, events := known, [];
    ghost var items := ItemsOf(b);
    hide Visit;
    for i := 0 to |b.transactions|
      invariant (keys, events) == Scan(c, w, known, items[..i])
    {
      var (k, e) := Visit(c, w, keys, Item(b.height, b.transactions[i]));
      assert items[..i + 1] == items[..i] + [items[i]];
      ScanResumes(c, w, known, items[..i], [items[i]]);
      ScanOne(c, w, keys, items[i]);
      keys, events := k, events + Listed(e);
    }
    assert items[..|items|] == items;
  }
}
