/**
 What a history sync puts into the store, message by message: which committed transactions it reports, with
 which text and time, and which of the wallet's own messages it can read (client.go, FetchHistory; service.go,
 SyncHistory).
 */
module SyncedMessages {
  import opened Base
  import opened Text
  import opened Blocks
  import opened Wire
  import opened Histories
  import opened ChatStores

  // ---------------------------------------------------------------- what a scan reports

  /** The event is the transaction, in a block of this height, as the wallet reads it. */
  ghost predicate Reports(c: Crypto, w: Wallet, height: u64, m: SmsRequest, e: HistoryEvent) {
    && e.height == height && e.txHash == TxHashFromPb(c, m) && e.timestamp == m.timestamp
    && if e.incoming then
         m.toAddress == w.address && e.peer == m.fromAddress && e.peerKey == m.ephemeralPubkey
         && DecryptIncoming(w, m) == Some(e.plaintext)
       else
         m.fromAddress == w.address != m.toAddress && e.peer == m.toAddress
         && DecryptOutgoing(w, m, e.peerKey) == Some(e.plaintext)
  }

  lemma VisitReports(c: Crypto, w: Wallet, known: Keys, it: Item)
    ensures var e := Visit(c, w, known, it).1;
      e.Some? ==> Reports(c, w, it.height, it.tx, e.value)
  {
  }

  /** The event of the scan for the transaction at position k. */
  function EventAt(c: Crypto, w: Wallet, known: Keys, items: seq<Item>, k: nat): Option<HistoryEvent>
    requires k < |items|
  {
    Visit(c, w, Scan(c, w, known, items[..k]).0, items[k]).1
  }

  lemma EventAtFront(c: Crypto, w: Wallet, known: Keys, items: seq<Item>, more: seq<Item>, k: nat)
    requires k < |items|
    ensures EventAt(c, w, known, items + more, k) == EventAt(c, w, known, items, k)
  {
    assert (items + more)[..k] == items[..k] && (items + more)[k] == items[k];
  }

  /** Each event of a scan is the one for some position. */
  lemma {:induction false} EventHasPosition(c: Crypto, w: Wallet, known: Keys, items: seq<Item>, e: HistoryEvent) returns (k: nat)
    requires e in Scan(c, w, known, items).1
    ensures k < |items| && EventAt(c, w, known, items, k) == Some(e)
    decreases |items|
  {
    hide Visit;
    var init, last := items[..|items| - 1], items[|items| - 1];
    assert items == init + [last];
    ScanResumes(c, w, known, init, [last]);
    ScanOne(c, w, Scan(c, w, known, init).0, last);
    if e in Scan(c, w, known, init).1 {
      k := EventHasPosition(c, w, known, init, e);
      EventAtFront(c, w, known, init, [last], k);
    } else {
      k := |init|;
    }
  }

  /** Each item of a stretch of blocks is a transaction of one of them, under that block's height. */
  lemma {:induction false} ItemHasBlock(blocks: seq<BlockPB>, it: Item) returns (h: nat, i: nat)
    requires it in Items(blocks)
    ensures h < |blocks| && i < |blocks[h].transactions| && it == Item(blocks[h].height, blocks[h].transactions[i])
    decreases |blocks|
  {
    var init, last := blocks[..|blocks| - 1], blocks[|blocks| - 1];
    if it in Items(init) {
      h, i := ItemHasBlock(init, it);
    } else {
      h := |init|;
      i :| 0 <= i < |ItemsOf(last)| && ItemsOf(last)[i] == it;
    }
  }

  ghost predicate ReportedFrom(c: Crypto, w: Wallet, blocks: seq<BlockPB>, h: nat, i: nat, e: HistoryEvent) {
    h < |blocks| && i < |blocks[h].transactions| && Reports(c, w, blocks[h].height, blocks[h].transactions[i], e)
  }

  /** Whatever a scan of a stretch of blocks reports is a transaction of one of these blocks, with its own hash, time and text. */
  lemma ScanReports(c: Crypto, w: Wallet, known: Keys, blocks: seq<BlockPB>, e: HistoryEvent)
    requires e in Scan(c, w, known, Items(blocks)).1
    ensures exists h: nat, i: nat :: ReportedFrom(c, w, blocks, h, i, e)
  {
    hide Scan, Items, Reports, Visit;
    var k := EventHasPosition(c, w, known, Items(blocks), e);
    var it := Items(blocks)[k];
    var h, i := ItemHasBlock(blocks, it);
    VisitReports(c, w, Scan(c, w, known, Items(blocks)[..k]).0, it);
    assert ReportedFrom(c, w, blocks, h, i, e);
  }

  // ---------------------------------------------------------------- which key reads an own message

  /** Position `i` holds the last message from `a` that the wallet opened before position `j`. */
  predicate LastOpened(w: Wallet, items: seq<Item>, i: nat, j: nat, a: Bytes) {
    && i < j <= |items| && Opens(w, items[i].tx) && items[i].tx.fromAddress == a
    && forall k :: i < k < j ==> !(Opens(w, items[k].tx) && items[k].tx.fromAddress == a)
  }

  predicate NoneOpened(w: Wallet, items: seq<Item>, j: nat, a: Bytes) {
    j <= |items| && forall k :: 0 <= k < j ==> !(Opens(w, items[k].tx) && items[k].tx.fromAddress == a)
  }

  /** The key saved with a contact, where it is the hex form of 32 bytes. */
  function SavedKey(d: Chats, a: Bytes): Option<Bytes> {
    if a in d.contacts && HexDecode(d.contacts[a].key).Some? && |HexDecode(d.contacts[a].key).value| == 32
    then HexDecode(d.contacts[a].key) else None
  }

  /** The key on which the text at position `j` depends: the one of the peer's last opened message before it, else the saved one. */
  ghost predicate KeyFor(w: Wallet, d: Chats, items: seq<Item>, j: nat, a: Bytes, key: Option<Bytes>) {
    || (NoneOpened(w, items, j, a) && key == SavedKey(d, a))
    || exists i: nat :: LastOpened(w, items, i, j, a) && key == Some(items[i].tx.ephemeralPubkey)
  }

  lemma SavedKeysAreSeeds(d: Chats, a: Bytes)
    ensures Lookup(Some(SavedKeys(d)), a) == SavedKey(d, a)
  {
  }

  lemma {:induction false} LatestIs(w: Wallet, d: Chats, items: seq<Item>, j: nat, a: Bytes, key: Option<Bytes>)
    requires KeyFor(w, d, items, j, a, key)
    ensures j <= |items| && LatestKey(w, Some(SavedKeys(d)), items[..j], a) == key
    decreases j
  {
    hide Opens, SavedKey, SavedKeys;
    SavedKeysAreSeeds(d, a);
    if j > 0 {
      assert items[..j][..j - 1] == items[..j - 1];
      if !(Opens(w, items[j - 1].tx) && items[j - 1].tx.fromAddress == a) {
        OneEarlier(w, d, items, j, a, key);
        LatestIs(w, d, items, j - 1, a, key);
      }
    }
  }

  lemma OneEarlier(w: Wallet, d: Chats, items: seq<Item>, j: nat, a: Bytes, key: Option<Bytes>)
    requires KeyFor(w, d, items, j, a, key) && j > 0 && j <= |items| && !(Opens(w, items[j - 1].tx) && items[j - 1].tx.fromAddress == a)
    ensures KeyFor(w, d, items, j - 1, a, key)
  {
    hide Opens, SavedKey;
    if i: nat :| LastOpened(w, items, i, j, a) && key == Some(items[i].tx.ephemeralPubkey) {
      assert LastOpened(w, items, i, j - 1, a);
    }
  }

  // ---------------------------------------------------------------- what gets stored

  /** No other transaction of the list has the hash of the one at position `j`. */
  ghost predicate HashIsUnique(c: Crypto, items: seq<Item>, j: nat)
    requires j < |items|
  {
    forall k :: 0 <= k < |items| && k != j ==> TxHashFromPb(c, items[k].tx) != TxHashFromPb(c, items[j].tx)
  }

  /** Any event of the hash is the event for that position. */
  lemma OnlyItsEvent(c: Crypto, w: Wallet, known: Keys, items: seq<Item>, j: nat, e: HistoryEvent)
    requires j < |items| && HashIsUnique(c, items, j)
    requires e in Scan(c, w, known, items).1 && e.txHash == TxHashFromPb(c, items[j].tx)
    ensures EventAt(c, w, known, items, j) == Some(e)
  {
    hide Scan, Visit, TxHashFromPb, Reports;
    var k := EventHasPosition(c, w, known, items, e);
    VisitReports(c, w, Scan(c, w, known, items[..k]).0, items[k]);
    ReportedHash(c, w, items[k].height, items[k].tx, e);
  }

  lemma ReportedHash(c: Crypto, w: Wallet, height: u64, m: SmsRequest, e: HistoryEvent)
    requires Reports(c, w, height, m, e)
    ensures e.txHash == TxHashFromPb(c, m)
  {
  }

  predicate Stored(d: Chats, a: Bytes, msg: StoredMessage) {
    msg in MessagesOf(d, a)
  }

  lemma CallbackStores(d: Chats, e: HistoryEvent, a: Bytes, hash: Bytes)
    requires hash != [] && !HasMessage(d, a, hash)
    ensures var d' := HistoryAppended(d, e.peer, MessageOf(e), HexEncode(e.peerKey));
      if e.peer == a && e.txHash == hash then Stored(d', a, MessageOf(e)) else !HasMessage(d', a, hash)
  {
    var d' := HistoryAppended(d, e.peer, MessageOf(e), HexEncode(e.peerKey));
    if e.peer == a && e.txHash == hash {
      assert MessagesOf(d', a)[|MessagesOf(d, a)|] == MessageOf(e);
    } else {
      assert forall i :: 0 <= i < |MessagesOf(d', a)| ==> MessagesOf(d', a)[i] in MessagesOf(d, a) || MessagesOf(d', a)[i].txHash != hash;
    }
  }

  lemma CallbackKeepsStored(d: Chats, e: HistoryEvent, a: Bytes, msg: StoredMessage)
    requires Stored(d, a, msg)
    ensures Stored(HistoryAppended(d, e.peer, MessageOf(e), HexEncode(e.peerKey)), a, msg)
  {
  }

  ghost predicate NoneOf(events: seq<HistoryEvent>, a: Bytes, hash: Bytes) {
    forall e :: e in events ==> !(e.peer == a && e.txHash == hash)
  }

  /** Recording keeps an absent hash absent unless it is among the events, and then stores the event. */
  lemma {:induction false} RecordedStores(d: Chats, events: seq<HistoryEvent>, a: Bytes, hash: Bytes)
    requires hash != [] && !HasMessage(d, a, hash)
    ensures if NoneOf(events, a, hash) then !HasMessage(Recorded(d, events), a, hash)
      else exists e :: e in events && e.peer == a && e.txHash == hash && Stored(Recorded(d, events), a, MessageOf(e))
    decreases |events|
  {
    hide HasMessage, HistoryAppended, Stored, MessageOf, HexEncode;
    if events != [] {
      var init, last := events[..|events| - 1], events[|events| - 1];
      assert events == init + [last];
      RecordedStores(d, init, a, hash);
      if NoneOf(init, a, hash) {
        CallbackStores(Recorded(d, init), last, a, hash);
      } else {
        var e :| e in init && e.peer == a && e.txHash == hash && Stored(Recorded(d, init), a, MessageOf(e));
        CallbackKeepsStored(Recorded(d, init), last, a, MessageOf(e));
        assert e in events;
      }
    }
  }

  /** What a sync stores for the transaction at position `j` of its scan, if its hash was not there. */
  lemma SyncStores(c: Crypto, w: Wallet, d: Chats, chain: seq<BlockPB>, height: u64, j: nat, a: Bytes)
    requires DigestsHave32Bytes(c) && d.syncedHeight <= height <= |chain|
    requires var items := Items(chain[d.syncedHeight..height]);
      j < |items| && HashIsUnique(c, items, j) && !HasMessage(d, a, TxHashFromPb(c, items[j].tx))
    ensures var items, d' := Items(chain[d.syncedHeight..height]), Synced(c, w, d, chain, height);
      var e, hash := EventAt(c, w, Some(SavedKeys(d)), items, j), TxHashFromPb(c, items[j].tx);
      if e.Some? && e.value.peer == a then Stored(d', a, MessageOf(e.value)) else !HasMessage(d', a, hash)
  {
    hide Scan, Visit, TxHashFromPb, Items, HasMessage, MessageOf, SavedKeys, EventAt, Reports;
    var items := Items(chain[d.syncedHeight..height]);
    var known: Keys := Some(SavedKeys(d));
    var events := Scan(c, w, known, items).1;
    var hash := TxHashFromPb(c, items[j].tx);
    HashNotEmpty(c, items[j].tx);
    RecordedStores(d, events, a, hash);
    SameMessages(Recorded(d, events), height);
    StoredIgnoresHeight(Recorded(d, events), height);
    if NoneOf(events, a, hash) {
      NotListed(c, w, known, items, j, a);
    } else {
      var e :| e in events && e.peer == a && e.txHash == hash && Stored(Recorded(d, events), a, MessageOf(e));
      OnlyItsEvent(c, w, known, items, j, e);
    }
  }

  lemma StoredIgnoresHeight(d: Chats, height: u64)
    ensures forall a, msg :: Stored(d.(syncedHeight := height), a, msg) <==> Stored(d, a, msg)
  {
    forall a ensures MessagesOf(d.(syncedHeight := height), a) == MessagesOf(d, a) {
    }
  }

  lemma NotListed(c: Crypto, w: Wallet, known: Keys, items: seq<Item>, j: nat, a: Bytes)
    requires j < |items| && NoneOf(Scan(c, w, known, items).1, a, TxHashFromPb(c, items[j].tx))
    ensures var e := EventAt(c, w, known, items, j); e.Some? ==> e.value.peer != a
  {
    hide Scan, Visit, TxHashFromPb, Reports;
    var e := EventAt(c, w, known, items, j);
    if e.Some? {
      VisitedIsListed(c, w, known, items, j);
      VisitReports(c, w, Scan(c, w, known, items[..j]).0, items[j]);
      ReportedHash(c, w, items[j].height, items[j].tx, e.value);
    }
  }

  // ---------------------------------------------------------------- own and incoming messages

  /**
   After a successful sync an own message between the checkpoints, whose hash was not yet in the conversation,
   is there as outgoing, under its hash, with its text and time, exactly if there is a key for it that opens it:
   the one of the peer's last message opened before it in the scan, or else the contact's saved key, if that is
   the hex form of 32 bytes.
   */
  lemma OwnMessageSynced(c: Crypto, w: Wallet, d: Chats, chain: seq<BlockPB>, height: u64, j: nat, key: Option<Bytes>)
    requires DigestsHave32Bytes(c) && d.syncedHeight <= height <= |chain|
    requires var items := Items(chain[d.syncedHeight..height]);
      && j < |items| && HashIsUnique(c, items, j)
      && items[j].tx.fromAddress == w.address != items[j].tx.toAddress
      && !HasMessage(d, items[j].tx.toAddress, TxHashFromPb(c, items[j].tx))
      && KeyFor(w, d, items, j, items[j].tx.toAddress, key)
    ensures var m, d' := Items(chain[d.syncedHeight..height])[j].tx, Synced(c, w, d, chain, height);
      var plain := if key.None? then None else DecryptOutgoing(w, m, key.value);
      if plain.Some? then Stored(d', m.toAddress, StoredMessage(Outgoing, plain.value, TxHashFromPb(c, m), m.timestamp))
      else !HasMessage(d', m.toAddress, TxHashFromPb(c, m))
  {
    hide Scan, TxHashFromPb, Items, HasMessage, SavedKeys, Synced, DecryptOutgoing, KeyFor, Stored, LatestKey;
    var items := Items(chain[d.syncedHeight..height]);
    var a := items[j].tx.toAddress;
    SyncStores(c, w, d, chain, height, j, a);
    LatestIs(w, d, items, j, a, key);
    ScanLearnsLatest(c, w, Some(SavedKeys(d)), items[..j], a);
  }

  /** In particular with a saved key and no message from that contact opened earlier in the scan. */
  lemma SavedKeyReads(c: Crypto, w: Wallet, d: Chats, chain: seq<BlockPB>, height: u64, j: nat, k: Bytes)
    requires DigestsHave32Bytes(c) && d.syncedHeight <= height <= |chain|
    requires var items := Items(chain[d.syncedHeight..height]);
      && j < |items| && HashIsUnique(c, items, j)
      && items[j].tx.fromAddress == w.address != items[j].tx.toAddress
      && !HasMessage(d, items[j].tx.toAddress, TxHashFromPb(c, items[j].tx))
      && NoneOpened(w, items, j, items[j].tx.toAddress)
      && items[j].tx.toAddress in d.contacts && HexDecode(d.contacts[items[j].tx.toAddress].key) == Some(k) && |k| == 32
    ensures var m, d' := Items(chain[d.syncedHeight..height])[j].tx, Synced(c, w, d, chain, height);
      var plain := DecryptOutgoing(w, m, k);
      if plain.Some? then Stored(d', m.toAddress, StoredMessage(Outgoing, plain.value, TxHashFromPb(c, m), m.timestamp))
      else !HasMessage(d', m.toAddress, TxHashFromPb(c, m))
  {
    hide Scan, TxHashFromPb, Items, HasMessage, Synced, DecryptOutgoing, Stored, NoneOpened, HexDecode;
    OwnMessageSynced(c, w, d, chain, height, j, Some(k));
  }

  /** After a successful sync a message to this wallet, whose hash was not yet there, is stored as incoming exactly if it opens. */
  lemma IncomingMessageSynced(c: Crypto, w: Wallet, d: Chats, chain: seq<BlockPB>, height: u64, j: nat)
    requires DigestsHave32Bytes(c) && d.syncedHeight <= height <= |chain|
    requires var items := Items(chain[d.syncedHeight..height]);
      && j < |items| && HashIsUnique(c, items, j) && items[j].tx.toAddress == w.address
      && !HasMessage(d, items[j].tx.fromAddress, TxHashFromPb(c, items[j].tx))
    ensures var m, d' := Items(chain[d.syncedHeight..height])[j].tx, Synced(c, w, d, chain, height);
      var plain := DecryptIncoming(w, m);
      if plain.Some? then Stored(d', m.fromAddress, StoredMessage(Incoming, plain.value, TxHashFromPb(c, m), m.timestamp))
      else !HasMessage(d', m.fromAddress, TxHashFromPb(c, m))
  {
    hide Scan, TxHashFromPb, Items, HasMessage, SavedKeys, Synced, DecryptIncoming, Stored;
    var items := Items(chain[d.syncedHeight..height]);
    SyncStores(c, w, d, chain, height, j, items[j].tx.fromAddress);
  }
}
