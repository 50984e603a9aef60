/**
 The device's address book and message history (app/fyne/internal/app/chat_store.go), and the
 history sync that fills it (service.go).
 */
module ChatStores {
  import opened Base
  import opened Text
  import opened Blocks
  import opened Wire
  import opened Histories

  datatype Direction = Outgoing | Incoming

  datatype StoredMessage = StoredMessage(direction: Direction, text: Bytes, txHash: Bytes, timestamp: i64)

  /** `key` is the hex X25519 key, empty if unknown. */
  datatype Contact = Contact(address: Bytes, key: Bytes, name: Bytes)

  datatype Chats = Chats(contacts: map<Bytes, Contact>, messages: map<Bytes, seq<StoredMessage>>, syncedHeight: u64)

  const NO_CHATS := Chats(map[], map[], 0)

  /** What the chats file holds. A write that fails leaves it as it was, empty, or cut short. */
  datatype Disk = Absent | Empty | Corrupt | Snapshot(data: Chats)

  // ---------------------------------------------------------------- the operations on values

  const ELLIPSIS: Bytes := [0xE2, 0x80, 0xA6]

  function ShortAddr(a: Bytes): Bytes {
    if |a| <= 12 then a else a[..6] + ELLIPSIS + a[|a| - 6..]
  }

  function MessagesOf(d: Chats, a: Bytes): seq<StoredMessage> {
    if a in d.messages then d.messages[a] else []
  }

  /** hasMessage: the empty hash is never found. */
  predicate HasMessage(d: Chats, a: Bytes, hash: Bytes) {
    hash != [] && exists i :: 0 <= i < |MessagesOf(d, a)| && MessagesOf(d, a)[i].txHash == hash
  }

  function Upserted(d: Chats, contact: Contact): Chats {
    d.(contacts := d.contacts[contact.address := contact],
       messages := if contact.address in d.messages then d.messages else d.messages[contact.address := []])
  }

  /** The contact after a message: created if missing, its key filled in if unknown, never overwritten. */
  function Introduced(d: Chats, a: Bytes, key: Bytes): Contact {
    var c := if a in d.contacts then d.contacts[a] else Contact(a, [], ShortAddr(a));
    if key != [] && c.key == [] then c.(key := key) else c
  }

  function Appended(d: Chats, a: Bytes, msg: StoredMessage, key: Bytes): Chats {
    d.(contacts := d.contacts[a := Introduced(d, a, key)], messages := d.messages[a := MessagesOf(d, a) + [msg]])
  }

  function HistoryAppended(d: Chats, a: Bytes, msg: StoredMessage, key: Bytes): Chats {
    if HasMessage(d, a, msg.txHash) then d else Appended(d, a, msg, key)
  }

  function MessageOf(e: HistoryEvent): StoredMessage {
    StoredMessage(if e.incoming then Incoming else Outgoing, e.plaintext, e.txHash, e.timestamp)
  }

  /** The callback of SyncHistory, over all events. */
  function Recorded(d: Chats, events: seq<HistoryEvent>): Chats
    decreases |events|
  {
    if events == [] then d
    else
      var init, e := Recorded(d, events[..|events| - 1]), events[|events| - 1];
      HistoryAppended(init, e.peer, MessageOf(e), HexEncode(e.peerKey))
  }

  // ---------------------------------------------------------------- what appending keeps

  /** No message is lost or moved between conversations. */
  ghost predicate Keeps(d: Chats, d': Chats) {
    && d.syncedHeight == d'.syncedHeight
    && forall a, hash :: HasMessage(d, a, hash) ==> HasMessage(d', a, hash)
  }

  /** No hash occurs twice in one conversation. */
  predicate HashesOnce(msgs: seq<StoredMessage>) {
    forall i, j :: 0 <= i < j < |msgs| && msgs[i].txHash == msgs[j].txHash ==> msgs[i].txHash == []
  }

  lemma AppendKeeps(d: Chats, a: Bytes, msg: StoredMessage, key: Bytes)
    ensures Keeps(d, Appended(d, a, msg, key))
    ensures msg.txHash != [] ==> HasMessage(Appended(d, a, msg, key), a, msg.txHash)
  {
    var d' := Appended(d, a, msg, key);
    var n := |MessagesOf(d, a)|;
    assert MessagesOf(d', a)[n] == msg;
    forall b, hash | HasMessage(d, b, hash) ensures HasMessage(d', b, hash) {
      var i :| 0 <= i < |MessagesOf(d, b)| && MessagesOf(d, b)[i].txHash == hash;
      assert MessagesOf(d', b)[i].txHash == hash;
    }
  }

  /**
   A history append keeps every message, never repeats a hash that a conversation already holds, and
   afterwards the conversation holds the appended hash.
   */
  lemma HistoryAppendKeeps(d: Chats, a: Bytes, msg: StoredMessage, key: Bytes)
    ensures var d' := HistoryAppended(d, a, msg, key);
      && Keeps(d, d')
      && (msg.txHash != [] ==> HasMessage(d', a, msg.txHash))
      && (forall b :: HashesOnce(MessagesOf(d, b)) ==> HashesOnce(MessagesOf(d', b)))
      && (d' == d || MessagesOf(d', a) == MessagesOf(d, a) + [msg])
  {
    AppendKeeps(d, a, msg, key);
    var d' := HistoryAppended(d, a, msg, key);
    if d' != d {
      forall i | 0 <= i < |MessagesOf(d, a)| && MessagesOf(d, a)[i].txHash == msg.txHash ensures msg.txHash == [] {
      }
    }
  }

  /**
   The contact after a message: there is one, under the name it had or a shortened address; its key is the one
   known before, or else the one the message brought. No other contact changes.
   */
  lemma ContactAfter(d: Chats, a: Bytes, msg: StoredMessage, key: Bytes, b: Bytes)
    ensures var d' := Appended(d, a, msg, key);
      && a in d'.contacts && d'.contacts[a].address == (if a in d.contacts then d.contacts[a].address else a)
      && d'.contacts[a].name == (if a in d.contacts then d.contacts[a].name else ShortAddr(a))
      && d'.contacts[a].key == (if a in d.contacts && d.contacts[a].key != [] then d.contacts[a].key else key)
      && (b != a ==> (b in d'.contacts <==> b in d.contacts) && (b in d.contacts ==> d'.contacts[b] == d.contacts[b]))
      && (!HasMessage(d, a, msg.txHash) ==> HistoryAppended(d, a, msg, key) == d')
  {
    hide HasMessage;
  }

  /** A long address keeps its two ends. */
  lemma ShortAddrKeepsEnds(a: Bytes)
    ensures |a| <= 12 ==> ShortAddr(a) == a
    ensures |a| > 12 ==> |ShortAddr(a)| == 15 && ShortAddr(a)[..6] == a[..6] && ShortAddr(a)[9..] == a[|a| - 6..]
  {
  }

  /** An edit sets one contact; no conversation loses or gains a message. */
  lemma EditSets(d: Chats, contact: Contact, b: Bytes)
    ensures var d' := Upserted(d, contact);
      && contact.address in d'.contacts && d'.contacts[contact.address] == contact
      && (b != contact.address ==> (b in d'.contacts <==> b in d.contacts) && (b in d.contacts ==> d'.contacts[b] == d.contacts[b]))
      && MessagesOf(d', b) == MessagesOf(d, b) && d'.syncedHeight == d.syncedHeight
  {
  }

  /** A learnt key is never replaced. */
  lemma KeysStay(d: Chats, a: Bytes, msg: StoredMessage, key: Bytes, b: Bytes)
    requires b in d.contacts && d.contacts[b].key != []
    ensures b in HistoryAppended(d, a, msg, key).contacts
    ensures HistoryAppended(d, a, msg, key).contacts[b] == d.contacts[b]
    ensures Appended(d, a, msg, key).contacts[b] == d.contacts[b]
  {
  }

  lemma CallbackKeeps(d: Chats, e: HistoryEvent)
    ensures var d' := HistoryAppended(d, e.peer, MessageOf(e), HexEncode(e.peerKey));
      Keeps(d, d') && (e.txHash != [] ==> HasMessage(d', e.peer, e.txHash))
  {
    HistoryAppendKeeps(d, e.peer, MessageOf(e), HexEncode(e.peerKey));
    hide HistoryAppended, HasMessage, HexEncode, HashesOnce;
  }

  lemma {:induction false} RecordedKeeps(d: Chats, events: seq<HistoryEvent>)
    ensures Keeps(d, Recorded(d, events))
    ensures forall i :: 0 <= i < |events| && events[i].txHash != [] ==> HasMessage(Recorded(d, events), events[i].peer, events[i].txHash)
    decreases |events|
  {
    hide HasMessage, HistoryAppended, HexEncode, MessageOf;
    if events != [] {
      var init, e := events[..|events| - 1], events[|events| - 1];
      RecordedKeeps(d, init);
      CallbackKeeps(Recorded(d, init), e);
      assert forall i :: 0 <= i < |init| ==> events[i] == init[i];
    }
  }

  // ---------------------------------------------------------------- no hash below the checkpoint is missing

  /** For every message to this wallet in `items` that it can open, its hash is in the sender's conversation. */
  ghost predicate HoldsHashes(c: Crypto, w: Wallet, d: Chats, items: seq<Item>) {
    forall i :: 0 <= i < |items| && Opens(w, items[i].tx) ==> HasMessage(d, items[i].tx.fromAddress, TxHashFromPb(c, items[i].tx))
  }

  ghost predicate NoHashMissing(c: Crypto, w: Wallet, chain: seq<BlockPB>, d: Chats) {
    d.syncedHeight <= |chain| && HoldsHashes(c, w, d, Items(chain[..d.syncedHeight]))
  }

  lemma HashNotEmpty(c: Crypto, m: SmsRequest)
    requires DigestsHave32Bytes(c)
    ensures TxHashFromPb(c, m) != []
  {
    var t := Rebuilt(m);
    var digest := c.sha(TxSigningBytes(t) + t.signature);
    HexRoundTrip(digest);
    assert |digest| == 32;
  }

  lemma {:induction false} RecordedHoldsHashes(c: Crypto, w: Wallet, known: Keys, items: seq<Item>, d: Chats)
    requires DigestsHave32Bytes(c)
    ensures HoldsHashes(c, w, Recorded(d, Scan(c, w, known, items).1), items)
  {
    var events := Scan(c, w, known, items).1;
    RecordedKeeps(d, events);
    hide HasMessage, Recorded, Scan;
    forall k | 0 <= k < |items| && Opens(w, items[k].tx)
      ensures HasMessage(Recorded(d, events), items[k].tx.fromAddress, TxHashFromPb(c, items[k].tx))
    {
      IncomingAlwaysRecovered(c, w, known, items, k);
      VisitedIsListed(c, w, known, items, k);
      HashNotEmpty(c, items[k].tx);
      var e := Visit(c, w, Scan(c, w, known, items[..k]).0, items[k]).1.value;
      var i :| 0 <= i < |events| && events[i] == e;
    }
  }

  lemma HoldsHashesMore(c: Crypto, w: Wallet, d: Chats, d': Chats, a: seq<Item>, b: seq<Item>)
    requires HoldsHashes(c, w, d, a) && Keeps(d, d') && HoldsHashes(c, w, d', b)
    ensures HoldsHashes(c, w, d', a + b)
  {
    hide HasMessage, Opens, TxHashFromPb;
    forall i | 0 <= i < |a + b| && Opens(w, (a + b)[i].tx)
      ensures HasMessage(d', (a + b)[i].tx.fromAddress, TxHashFromPb(c, (a + b)[i].tx))
    {
      if i < |a| {
        assert (a + b)[i] == a[i];
      } else {
        assert (a + b)[i] == b[i - |a|];
      }
    }
  }

  lemma KeepsAllHashes(c: Crypto, w: Wallet, chain: seq<BlockPB>, d: Chats, d': Chats)
    requires NoHashMissing(c, w, chain, d) && Keeps(d, d')
    ensures NoHashMissing(c, w, chain, d')
  {
    hide HasMessage, Opens, TxHashFromPb;
  }

  /** One successful sync: the hashes that the checkpoint promised before, it promises at the new height. */
  lemma SyncKeepsHashes(c: Crypto, w: Wallet, known: Keys, chain: seq<BlockPB>, d: Chats, height: nat)
    requires DigestsHave32Bytes(c) && NoHashMissing(c, w, chain, d) && d.syncedHeight <= height <= |chain| <= MAX_U64
    ensures var events := Scan(c, w, known, Items(chain[d.syncedHeight..height])).1;
      NoHashMissing(c, w, chain, Recorded(d, events).(syncedHeight := height))
  {
    var items := Items(chain[d.syncedHeight..height]);
    var events := Scan(c, w, known, items).1;
    var d' := Recorded(d, events);
    RecordedHoldsHashes(c, w, known, items, d);
    RecordedKeeps(d, events);
    hide HasMessage, Recorded, Scan;
    HoldsHashesMore(c, w, d, d', Items(chain[..d.syncedHeight]), items);
    assert chain[..height] == chain[..d.syncedHeight] + chain[d.syncedHeight..height];
    ItemsAppend(chain[..d.syncedHeight], chain[d.syncedHeight..height]);
    SameMessages(d', height);
    assert forall a, hash :: HasMessage(d'.(syncedHeight := height), a, hash) <==> HasMessage(d', a, hash);
  }

  lemma SameMessages(d: Chats, height: u64)
    ensures forall a, hash :: HasMessage(d.(syncedHeight := height), a, hash) <==> HasMessage(d, a, hash)
  {
    forall a ensures MessagesOf(d.(syncedHeight := height), a) == MessagesOf(d, a) {
    }
  }

  // ---------------------------------------------------------------- the store object

  /** The chats file. Opening, writing and deleting it may fail unless it is reliable. */
  class File {
    const reliable: bool
    var content: Disk

    constructor (reliable: bool)
      ensures content == Absent && this.reliable == reliable
    {
      this.reliable := reliable;
      content := Absent;
    }
  }

  /** What a persist may leave in the file. */
  predicate Persisted(before: Disk, d: Chats, after: Disk, ok: bool) {
    if ok then after == Snapshot(d) else after == before || after == Empty || after == Corrupt
  }

  class ChatStore {
    const file: File
    var data: Chats

    constructor Blank(file: File)
      ensures this.file == file && data == NO_CHATS
    {
      this.file, data := file, NO_CHATS;
    }

    /** NewChatStore: null stands for its error. */
    static method Open(file: File) returns (s: ChatStore?)
      ensures s != null ==> fresh(s) && s.file == file
      ensures s != null ==> s.data == if file.content.Snapshot? then file.content.data else NO_CHATS
      ensures file.content == Corrupt ==> s == null
      ensures file.reliable && file.content != Corrupt ==> s != null
    {
      var readable: bool := *;
      if (!readable && !file.reliable) || file.content == Corrupt {
        return null;
      }
      s := new ChatStore.Blank(file);
      if file.content.Snapshot? {
        s.data := file.content.data;
      }
    }

    method Persist() returns (ok: bool)
      modifies file
      ensures Persisted(old(file.content), data, file.content, ok) && (file.reliable ==> ok)
    {
      ok := *;
      ok := ok || file.reliable;
      if ok {
        file.content := Snapshot(data);
      } else {
        var damage: bool := *;
        var cut: bool := *;
        if damage {
          file.content := if cut then Corrupt else Empty;
        }
      }
    }

    method UpsertContact(contact: Contact) returns (ok: bool)
      modifies this, file
      ensures data == Upserted(old(data), contact) && Persisted(old(file.content), data, file.content, ok)
      ensures file.reliable ==> ok
    {
      data := data.(contacts := data.contacts[contact.address := contact]);
      if contact.address !in data.messages {
        data := data.(messages := data.messages[contact.address := []]);
      }
      ok := Persist();
    }

    method AppendMessage(a: Bytes, msg: StoredMessage, senderKey: Bytes) returns (ok: bool)
      modifies this, file
      ensures data == Appended(old(data), a, msg, senderKey) && Persisted(old(file.content), data, file.content, ok)
      ensures file.reliable ==> ok
    {
      var c := if a in data.contacts then data.contacts[a] else Contact(a, [], ShortAddr(a));
      if senderKey != [] && c.key == [] {
        c := c.(key := senderKey);
      }
      data := data.(contacts := data.contacts[a := c]);
      data := data.(messages := data.messages[a := MessagesOf(data, a) + [msg]]);
      ok := Persist();
    }

    method FindMessage(a: Bytes, hash: Bytes) returns (found: bool)
      ensures found <==> HasMessage(data, a, hash)
    {
      if hash == [] {
        return false;
      }
      var msgs := MessagesOf(data, a);
      for i := 0 to |msgs|
        invariant forall k :: 0 <= k < i ==> msgs[k].txHash != hash
      {
        if msgs[i].txHash == hash {
          return true;
        }
      }
      return false;
    }

    method AppendHistoryMessage(a: Bytes, msg: StoredMessage, peerKey: Bytes) returns (added: bool, ok: bool)
      modifies this, file
      ensures data == HistoryAppended(old(data), a, msg, peerKey)
      ensures added <==> !HasMessage(old(data), a, msg.txHash)
      ensures if added then Persisted(old(file.content), data, file.content, ok) else ok && file.content == old(file.content)
      ensures file.reliable ==> ok
    {
      var known := FindMessage(a, msg.txHash);
      if known {
        return false, true;
      }
      ok := AppendMessage(a, msg, peerKey);
      return true, ok;
    }

    method SetLastSyncedHeight(height: u64) returns (ok: bool)
      modifies this, file
      ensures data == old(data).(syncedHeight := height) && Persisted(old(file.content), data, file.content, ok)
      ensures file.reliable ==> ok
    {
      data := data.(syncedHeight := height);
      ok := Persist();
    }

    /** Memory is cleared first; the file may survive a failing delete. */
    method Wipe() returns (ok: bool)
      modifies this, file
      ensures data == NO_CHATS
      ensures file.content == (if ok then Absent else old(file.content)) && (file.reliable ==> ok)
    {
      data := NO_CHATS;
      ok := *;
      ok := ok || file.reliable;
      if ok {
        file.content := Absent;
      }
    }
  }

  // ---------------------------------------------------------------- SyncHistory

  /** The saved keys that decode (wallet.go, DecodeRecipientX25519). */
  function SavedKeys(d: Chats): map<Bytes, Bytes> {
    map a | a in d.contacts && DecodeAddress(d.contacts[a].key).Some? :: DecodeAddress(d.contacts[a].key).value
  }

  /** The store after a scan of the blocks between the checkpoint and `height`, all saved. */
  function Synced(c: Crypto, w: Wallet, d: Chats, chain: seq<BlockPB>, height: u64): Chats
    requires d.syncedHeight <= height <= |chain|
  {
    Recorded(d, Scan(c, w, Some(SavedKeys(d)), Items(chain[d.syncedHeight..height])).1).(syncedHeight := height)
  }

  lemma NothingNew(c: Crypto, w: Wallet, d: Chats, chain: seq<BlockPB>)
    requires d.syncedHeight <= |chain|
    ensures Synced(c, w, d, chain, d.syncedHeight) == d
  {
    assert chain[d.syncedHeight..d.syncedHeight] == [];
  }

  /**
   SyncHistory. Whether it succeeds, fails or is cut off, memory holds the events of one scan from
   the checkpoint up to some height, and the checkpoint moves to that height only if the scan and
   every save of a message succeeded. Only then can the file hold the new checkpoint.
   */
  method SyncHistory(c: Crypto, w: Wallet, store: ChatStore, chain: seq<BlockPB>, held: nat, up: bool)
    returns (ok: bool, ghost height: u64, ghost appendFailed: bool)
    requires InOrder(chain) && held <= |chain|
    modifies store, store.file
    ensures old(store.data).syncedHeight <= height
    ensures up && store.file.reliable ==> ok
    ensures
      var d := old(store.data);
      var events := if height == d.syncedHeight || height > |chain| then []
                    else Scan(c, w, Some(SavedKeys(d)), Items(chain[d.syncedHeight..height])).1;
      && store.data in {Recorded(d, events), Recorded(d, events).(syncedHeight := height)}
      && (ok && height <= |chain| ==> store.data == Synced(c, w, d, chain, height))
      && (ok ==> !appendFailed && held <= height && store.data == Recorded(d, events).(syncedHeight := height)
                 && store.file.content == Snapshot(store.data))
      && (appendFailed ==> !ok && store.data == Recorded(d, events))
  {
    var from := store.data.syncedHeight;
    var known: map<Bytes, Bytes> := map[];
    var rest := store.data.contacts.Keys;
    while rest != {}
      invariant rest <= store.data.contacts.Keys
      invariant known == map a | a in SavedKeys(store.data) && a !in rest :: SavedKeys(store.data)[a]
    {
      var a :| a in rest;
      var key := DecodeAddress(store.data.contacts[a].key);
      if key.Some? {
        known := known[a := key.value];
      }
      rest := rest - {a};
    }
    assert known == SavedKeys(store.data);
    var next, _, events, fetched := FetchHistory(c, w, from, Some(known), chain, held, up);
    height := next;
    ghost var d0 := store.data;
    var failed := false;
    hide Scan, HistoryAppended, Items;
    for i := 0 to |events|
      invariant store.data == Recorded(d0, events[..i]) && (store.file.reliable ==> !failed)
    {
      assert events[..i + 1][..i] == events[..i];
      var _, saved := store.AppendHistoryMessage(events[i].peer, MessageOf(events[i]), HexEncode(events[i].peerKey));
      if !saved {
        failed := true;
      }
    }
    assert events[..|events|] == events;
    appendFailed := failed;
    assert Recorded(d0, events).syncedHeight == from by {
      RecordedKeeps(d0, events);
    }
    if !fetched || failed {
      return false, height, appendFailed;
    }
    if from <= |chain| {
      NothingNew(c, w, d0, chain);
    }
    ok := store.SetLastSyncedHeight(next);
  }
}
