/**
 The texts behind the hashes. The store tells messages apart by transaction hash alone
 (chat_store.go, hasMessage), and a live message brings whatever hash its gateway claims
 (client.go, consume): this module says when a stored hash stands for its own message.
 */
module HeldTexts {
  import opened Base
  import opened Text
  import opened Blocks
  import opened Wire
  import opened Histories
  import opened ChatStores

  /** The text of a message that the wallet can open. */
  function TextOf(w: Wallet, m: SmsRequest): Bytes
    requires Opens(w, m)
  {
    DecryptIncoming(w, m).value
  }

  predicate HasText(d: Chats, a: Bytes, hash: Bytes, text: Bytes) {
    hash != [] && exists i :: 0 <= i < |MessagesOf(d, a)| && MessagesOf(d, a)[i].txHash == hash && MessagesOf(d, a)[i].text == text
  }

  /** Every message to this wallet in `items` that it can open is in the sender's conversation, under its hash and with its text. */
  ghost predicate HoldsAll(c: Crypto, w: Wallet, d: Chats, items: seq<Item>) {
    forall it: Item :: it in items && Opens(w, it.tx) ==> HasText(d, it.tx.fromAddress, TxHashFromPb(c, it.tx), TextOf(w, it.tx))
  }

  ghost predicate NothingLost(c: Crypto, w: Wallet, chain: seq<BlockPB>, d: Chats) {
    d.syncedHeight <= |chain| && HoldsAll(c, w, d, Items(chain[..d.syncedHeight]))
  }

  /** A message stored for `a` under the hash of one that `a` sent carries the text of that one. */
  ghost predicate Fits(c: Crypto, w: Wallet, items: seq<Item>, a: Bytes, msg: StoredMessage) {
    forall it: Item :: it in items && Opens(w, it.tx) && it.tx.fromAddress == a && TxHashFromPb(c, it.tx) == msg.txHash ==>
      msg.text == TextOf(w, it.tx)
  }

  ghost predicate TextsTrue(c: Crypto, w: Wallet, items: seq<Item>, d: Chats) {
    forall a, i :: 0 <= i < |MessagesOf(d, a)| ==> Fits(c, w, items, a, MessagesOf(d, a)[i])
  }

  /** Where every stored text is true, a hash held is a message held. */
  lemma TrueHashIsMessage(c: Crypto, w: Wallet, d: Chats, items: seq<Item>, all: seq<Item>)
    requires HoldsHashes(c, w, d, items) && TextsTrue(c, w, all, d) && forall it: Item :: it in items ==> it in all
    ensures HoldsAll(c, w, d, items)
  {
    hide Opens, TxHashFromPb, DecryptIncoming;
    forall it: Item | it in items && Opens(w, it.tx)
      ensures HasText(d, it.tx.fromAddress, TxHashFromPb(c, it.tx), TextOf(w, it.tx))
    {
      var a, hash := it.tx.fromAddress, TxHashFromPb(c, it.tx);
      assert HasMessage(d, a, hash);
      var i :| 0 <= i < |MessagesOf(d, a)| && MessagesOf(d, a)[i].txHash == hash;
      assert Fits(c, w, all, a, MessagesOf(d, a)[i]);
    }
  }

  lemma MessageHeldIsHashHeld(c: Crypto, w: Wallet, d: Chats, items: seq<Item>)
    requires HoldsAll(c, w, d, items)
    ensures HoldsHashes(c, w, d, items)
  {
    hide Opens, TxHashFromPb, DecryptIncoming;
    forall i | 0 <= i < |items| && Opens(w, items[i].tx)
      ensures HasMessage(d, items[i].tx.fromAddress, TxHashFromPb(c, items[i].tx))
    {
      assert HasText(d, items[i].tx.fromAddress, TxHashFromPb(c, items[i].tx), TextOf(w, items[i].tx));
    }
  }

  // ---------------------------------------------------------------- what a hash tells

  /** The bytes that a transaction's hash is taken of. */
  function HashedBytes(m: SmsRequest): Bytes {
    TxSigningBytes(Rebuilt(m)) + m.signature
  }

  /** The signatures are valid, as CommitBlock has checked, and no two of the hashed strings collide. */
  ghost predicate Distinct(c: Crypto, items: seq<Item>) {
    && SignaturesHave64Bytes(c)
    && (forall it: Item :: it in items ==> TxVerify(c, Rebuilt(it.tx)))
    && NoCollision(c, set it | it in items :: HashedBytes(it.tx))
  }

  /** One hash: sender, and where the recipients are equally long, all that decryption reads. */
  lemma OneHashOneMessage(c: Crypto, m: SmsRequest, m': SmsRequest)
    requires NoCollision(c, {HashedBytes(m), HashedBytes(m')}) && TxHashFromPb(c, m) == TxHashFromPb(c, m')
    requires |m.fromAddress| == |m'.fromAddress| && |m.signature| == |m'.signature|
    ensures m.fromAddress == m'.fromAddress
    ensures |m.toAddress| == |m'.toAddress| ==> Rebuilt(m).(signature := []) == Rebuilt(m').(signature := [])
  {
    var t, t' := Rebuilt(m), Rebuilt(m');
    HexInjective(c.sha(HashedBytes(m)), c.sha(HashedBytes(m')));
    assert HashedBytes(m) in {HashedBytes(m), HashedBytes(m')} && HashedBytes(m') in {HashedBytes(m), HashedBytes(m')};
    hide TxSigningBytes, HexEncode, CopyInto;
    PrefixCancels(TxSigningBytes(t), TxSigningBytes(t'), t.signature, t'.signature);
    SameInputSameSlot(t, t');
    TxSigningBytesInjective(t, t');
  }

  lemma RebuiltOpensAlike(w: Wallet, m: SmsRequest, m': SmsRequest)
    requires Rebuilt(m).(signature := []) == Rebuilt(m').(signature := [])
    requires DecryptIncoming(w, m).Some? && DecryptIncoming(w, m').Some?
    ensures DecryptIncoming(w, m) == DecryptIncoming(w, m')
  {
    assert CopyInto(m.nonceAead, 12) == m.nonceAead[..12] == m.nonceAead;
    assert CopyInto(m'.nonceAead, 12) == m'.nonceAead[..12] == m'.nonceAead;
    assert CopyInto(m.ephemeralPubkey, 32) == m.ephemeralPubkey[..32] == m.ephemeralPubkey;
    assert CopyInto(m'.ephemeralPubkey, 32) == m'.ephemeralPubkey[..32] == m'.ephemeralPubkey;
    assert Rebuilt(m).(signature := []).ciphertext == m.ciphertext && Rebuilt(m').(signature := []).ciphertext == m'.ciphertext;
  }

  /** What a scan reports fits: under the hash of an openable message it reports that message and no own one. */
  lemma VisitFits(c: Crypto, w: Wallet, known: Keys, items: seq<Item>, it: Item)
    requires Distinct(c, items) && it in items
    ensures var e := Visit(c, w, known, it).1;
      e.Some? ==> Fits(c, w, items, e.value.peer, MessageOf(e.value))
  {
    var e := Visit(c, w, known, it).1;
    if e.Some? {
      hide Rebuilt, HashedBytes, TxHashFromPb, NoCollision, TxVerify, DecryptIncoming, DecryptOutgoing;
      forall it': Item | it' in items && Opens(w, it'.tx) && it'.tx.fromAddress == e.value.peer && TxHashFromPb(c, it'.tx) == e.value.txHash
        ensures e.value.plaintext == TextOf(w, it'.tx)
      {
        SameItem(c, w, items, it, it');
      }
    }
  }

  lemma SenderAndSignature(c: Crypto, items: seq<Item>, it: Item)
    requires Distinct(c, items) && it in items
    ensures |it.tx.fromAddress| == 64 && |it.tx.signature| == 64
  {
    VerifiedSizes(c, Rebuilt(it.tx));
  }

  lemma FewerCollide(c: Crypto, items: seq<Item>, it: Item, it': Item)
    requires Distinct(c, items) && it in items && it' in items
    ensures NoCollision(c, {HashedBytes(it.tx), HashedBytes(it'.tx)})
  {
    hide HashedBytes, TxVerify;
  }

  lemma SameItem(c: Crypto, w: Wallet, items: seq<Item>, it: Item, it': Item)
    requires Distinct(c, items) && it in items && it' in items && TxHashFromPb(c, it.tx) == TxHashFromPb(c, it'.tx)
    ensures it.tx.fromAddress == it'.tx.fromAddress
    ensures Opens(w, it.tx) && Opens(w, it'.tx) ==> TextOf(w, it.tx) == TextOf(w, it'.tx)
  {
    SenderAndSignature(c, items, it);
    SenderAndSignature(c, items, it');
    FewerCollide(c, items, it, it');
    hide Rebuilt, HashedBytes, TxHashFromPb, NoCollision, TxVerify, DecryptIncoming;
    OneHashOneMessage(c, it.tx, it'.tx);
    if Opens(w, it.tx) && Opens(w, it'.tx) {
      RebuiltOpensAlike(w, it.tx, it'.tx);
    }
  }

  // ---------------------------------------------------------------- what keeps the texts true

  lemma AppendKeepsTexts(c: Crypto, w: Wallet, items: seq<Item>, d: Chats, a: Bytes, msg: StoredMessage, key: Bytes)
    requires TextsTrue(c, w, items, d) && Fits(c, w, items, a, msg)
    ensures TextsTrue(c, w, items, Appended(d, a, msg, key)) && TextsTrue(c, w, items, HistoryAppended(d, a, msg, key))
  {
    hide Fits;
    var d' := Appended(d, a, msg, key);
    forall b, i | 0 <= i < |MessagesOf(d', b)| ensures Fits(c, w, items, b, MessagesOf(d', b)[i]) {
      assert i < |MessagesOf(d, b)| ==> MessagesOf(d', b)[i] == MessagesOf(d, b)[i];
    }
  }

  lemma SameConversations(c: Crypto, w: Wallet, items: seq<Item>, d: Chats, d': Chats)
    requires TextsTrue(c, w, items, d) && forall a :: MessagesOf(d', a) == MessagesOf(d, a)
    ensures TextsTrue(c, w, items, d')
  {
    hide Fits;
  }

  ghost predicate AllFit(c: Crypto, w: Wallet, items: seq<Item>, events: seq<HistoryEvent>) {
    forall e :: e in events ==> Fits(c, w, items, e.peer, MessageOf(e))
  }

  lemma {:induction false} ScanFits(c: Crypto, w: Wallet, known: Keys, items: seq<Item>, all: seq<Item>)
    requires Distinct(c, all) && forall it: Item :: it in items ==> it in all
    ensures AllFit(c, w, all, Scan(c, w, known, items).1)
    decreases |items|
  {
    if items != [] {
      VisitFits(c, w, known, all, items[0]);
      hide Visit, Fits, MessageOf, Distinct;
      ScanFits(c, w, Visit(c, w, known, items[0]).0, items[1..], all);
    }
  }

  lemma {:induction false} RecordedTexts(c: Crypto, w: Wallet, items: seq<Item>, d: Chats, events: seq<HistoryEvent>)
    requires TextsTrue(c, w, items, d) && AllFit(c, w, items, events)
    ensures TextsTrue(c, w, items, Recorded(d, events))
    decreases |events|
  {
    if events != [] {
      hide TextsTrue, Fits, HistoryAppended, HexEncode;
      var init, e := events[..|events| - 1], events[|events| - 1];
      RecordedTexts(c, w, items, d, init);
      AppendKeepsTexts(c, w, items, Recorded(d, init), e.peer, MessageOf(e), HexEncode(e.peerKey));
    }
  }

  lemma {:induction false} StretchOfItems(chain: seq<BlockPB>, lo: nat, hi: nat)
    requires lo <= hi <= |chain|
    ensures forall it: Item :: it in Items(chain[lo..hi]) ==> it in Items(chain)
  {
    assert chain == chain[..lo] + (chain[lo..hi] + chain[hi..]);
    ItemsAppend(chain[..lo], chain[lo..hi] + chain[hi..]);
    ItemsAppend(chain[lo..hi], chain[hi..]);
  }

  /**
   One successful sync over a store whose texts are true: every message this wallet can open below the new
   checkpoint is in the store with its text, if every one below the old checkpoint was.
   */
  lemma SyncKeepsNothingLost(c: Crypto, w: Wallet, known: Keys, chain: seq<BlockPB>, d: Chats, height: nat)
    requires DigestsHave32Bytes(c) && Distinct(c, Items(chain)) && d.syncedHeight <= height <= |chain| <= MAX_U64
    requires NothingLost(c, w, chain, d) && TextsTrue(c, w, Items(chain), d)
    ensures var d' := Recorded(d, Scan(c, w, known, Items(chain[d.syncedHeight..height])).1).(syncedHeight := height);
      NothingLost(c, w, chain, d') && TextsTrue(c, w, Items(chain), d')
  {
    var items := Items(chain[d.syncedHeight..height]);
    var events := Scan(c, w, known, items).1;
    MessageHeldIsHashHeld(c, w, d, Items(chain[..d.syncedHeight]));
    SyncKeepsHashes(c, w, known, chain, d, height);
    StretchOfItems(chain, d.syncedHeight, height);
    StretchOfItems(chain, 0, height);
    assert chain[0..height] == chain[..height];
    hide TextsTrue, HoldsAll, HoldsHashes, Recorded, Scan, Items, Distinct, AllFit;
    ScanFits(c, w, known, items, Items(chain));
    RecordedTexts(c, w, Items(chain), d, events);
    var d' := Recorded(d, events).(syncedHeight := height);
    forall a ensures MessagesOf(d', a) == MessagesOf(Recorded(d, events), a) {
    }
    SameConversations(c, w, Items(chain), Recorded(d, events), d');
    TrueHashIsMessage(c, w, d', Items(chain[..height]), Items(chain));
  }

  // ---------------------------------------------------------------- live messages

  /** What consume and Start's callback make of a delivery: the hash is the gateway's claim. */
  function Delivered(w: Wallet, m: SmsRequest, claimed: Bytes, now: i64): Option<StoredMessage> {
    var plain := DecryptIncoming(w, m);
    if plain.None? then None else Some(StoredMessage(Incoming, plain.value, claimed, now))
  }

  /** The check that consume does not make: the claimed hash is the hash of the delivered message, which is to this wallet. */
  predicate Rechecked(c: Crypto, w: Wallet, m: SmsRequest, claimed: Bytes) {
    m.toAddress == w.address && |m.signature| == 64 && claimed == TxHashFromPb(c, m)
  }

  /** A delivery that passes this check fits every chain, unless its hashed bytes collide with a transaction's there. */
  lemma RecheckedFits(c: Crypto, w: Wallet, items: seq<Item>, m: SmsRequest, claimed: Bytes, now: i64)
    requires Distinct(c, items) && Rechecked(c, w, m, claimed) && Delivered(w, m, claimed, now).Some?
    requires forall it: Item :: it in items ==> NoCollision(c, {HashedBytes(m), HashedBytes(it.tx)})
    ensures Fits(c, w, items, m.fromAddress, Delivered(w, m, claimed, now).value)
  {
    hide Rebuilt, HashedBytes, TxHashFromPb, NoCollision, DecryptIncoming, Distinct;
    forall it: Item | it in items && Opens(w, it.tx) && it.tx.fromAddress == m.fromAddress && TxHashFromPb(c, it.tx) == claimed
      ensures DecryptIncoming(w, m).value == TextOf(w, it.tx)
    {
      SenderAndSignature(c, items, it);
      OneHashOneMessage(c, m, it.tx);
      RebuiltOpensAlike(w, m, it.tx);
    }
  }

  /** Unchecked, a delivery under the hash of a message of its sender fits exactly if the two texts are the same. */
  lemma DeliveryFits(c: Crypto, w: Wallet, items: seq<Item>, m: SmsRequest, it: Item, now: i64)
    requires Distinct(c, items) && it in items && Opens(w, it.tx) && Opens(w, m) && m.fromAddress == it.tx.fromAddress
    ensures Fits(c, w, items, m.fromAddress, Delivered(w, m, TxHashFromPb(c, it.tx), now).value)
      <==> TextOf(w, m) == TextOf(w, it.tx)
  {
    hide Rebuilt, HashedBytes, TxHashFromPb, NoCollision, TxVerify, Distinct;
    forall it': Item | it' in items && Opens(w, it'.tx) && TxHashFromPb(c, it'.tx) == TxHashFromPb(c, it.tx)
      ensures TextOf(w, it'.tx) == TextOf(w, it.tx)
    {
      SameItem(c, w, items, it, it');
    }
  }
}
