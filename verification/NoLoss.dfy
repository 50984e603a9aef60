/**
 Which messages a device over time really holds: the hashes are never lost (SyncRuns), the texts behind
 them exactly if live messages come under their own hashes.
 */
module NoLosses {
  import opened Base
  import opened Text
  import opened Blocks
  import opened Wire
  import opened Histories
  import opened ChatStores
  import opened HeldTexts
  import opened SyncRuns

  // ---------------------------------------------------------------- texts over runs

  ghost predicate TrueInside(c: Crypto, w: Wallet, items: seq<Item>, s: Device) {
    TextsTrue(c, w, items, s.chats) && (s.disk.Snapshot? ==> TextsTrue(c, w, items, s.disk.data))
  }

  /** No hash is missing and every text is true, seen from a chain that this one may still grow into. */
  ghost predicate Sound(c: Crypto, w: Wallet, all: seq<BlockPB>, s: Device) {
    Safe(c, w, s) && s.chain <= all && TrueInside(c, w, Items(all), s)
  }

  /** Nothing below the checkpoint is lost, in memory and in whatever snapshot the file holds. */
  ghost predicate Whole(c: Crypto, w: Wallet, s: Device) {
    NothingLost(c, w, s.chain, s.chats) && (s.disk.Snapshot? ==> NothingLost(c, w, s.chain, s.disk.data))
  }

  /** A live message under the hash of one that its peer sent carries the text of that one. */
  ghost predicate LiveFits(c: Crypto, w: Wallet, items: seq<Item>, e: Event) {
    e.Live? ==> Fits(c, w, items, e.peer, e.message)
  }

  ghost predicate Truthful(c: Crypto, w: Wallet, items: seq<Item>, events: seq<Event>) {
    forall e :: e in events ==> LiveFits(c, w, items, e)
  }

  lemma PrefixItems(chain: seq<BlockPB>, all: seq<BlockPB>)
    requires chain <= all
    ensures forall it: Item :: it in Items(chain) ==> it in Items(all)
  {
    StretchOfItems(all, 0, |chain|);
    assert all[0..|chain|] == chain;
  }

  lemma HeldIsWhole(c: Crypto, w: Wallet, chain: seq<BlockPB>, all: seq<BlockPB>, d: Chats)
    requires chain <= all && NoHashMissing(c, w, chain, d) && TextsTrue(c, w, Items(all), d)
    ensures NothingLost(c, w, chain, d)
  {
    PrefixItems(chain[..d.syncedHeight], all);
    hide HoldsHashes, TextsTrue, HoldsAll, Items;
    TrueHashIsMessage(c, w, d, Items(chain[..d.syncedHeight]), Items(all));
  }

  lemma SoundIsWhole(c: Crypto, w: Wallet, all: seq<BlockPB>, s: Device)
    requires Sound(c, w, all, s)
    ensures Whole(c, w, s)
  {
    hide NoHashMissing, TextsTrue, NothingLost;
    HeldIsWhole(c, w, s.chain, all, s.chats);
    if s.disk.Snapshot? {
      HeldIsWhole(c, w, s.chain, all, s.disk.data);
    }
  }

  lemma BlankTexts(c: Crypto, w: Wallet, items: seq<Item>)
    ensures TextsTrue(c, w, items, NO_CHATS)
  {
  }

  lemma ItemIsOnChain(chain: seq<BlockPB>, h: nat, i: nat)
    requires h < |chain| && i < |chain[h].transactions|
    ensures Item(chain[h].height, chain[h].transactions[i]) in Items(chain)
  {
    StretchOfItems(chain, 0, h + 1);
    ItemsOneMore(chain, 0, h);
    var it := ItemsOf(chain[h])[i];
    assert it in Items(chain[0..h]) + ItemsOf(chain[h]);
  }

  /** Chats whose texts are true keep the device so, however the save ends. */
  lemma ChatsKeepTexts(c: Crypto, w: Wallet, items: seq<Item>, s: Device, chats: Chats, save: Save)
    requires TrueInside(c, w, items, s) && TextsTrue(c, w, items, chats)
    ensures TrueInside(c, w, items, s.(chats := chats, disk := SaveTo(s.disk, chats, save)))
  {
    hide TextsTrue;
  }

  lemma StepKeepsTexts(c: Crypto, w: Wallet, items: seq<Item>, s: Device, save: Save)
    requires Distinct(c, items) && TrueInside(c, w, items, s) && forall it: Item :: it in Items(s.chain) ==> it in items
    requires s.sync.Some? && s.sync.value.height < |s.chain|
    ensures TrueInside(c, w, items, Step(c, w, s, s.sync.value, save))
  {
    var p := s.sync.value;
    if p.index < |s.chain[p.height].transactions| {
      var it := Item(s.chain[p.height].height, s.chain[p.height].transactions[p.index]);
      ItemIsOnChain(s.chain, p.height, p.index);
      StepShape(c, w, s, save);
      VisitFits(c, w, p.known, items, it);
      hide Step, Visit, Fits, TextsTrue, HistoryAppended, HasMessage, SaveTo, Distinct, Items, HexEncode;
      var event := Visit(c, w, p.known, it).1;
      if event.Some? {
        var e := event.value;
        AppendKeepsTexts(c, w, items, s.chats, e.peer, MessageOf(e), HexEncode(e.peerKey));
        ChatsKeepTexts(c, w, items, s, HistoryAppended(s.chats, e.peer, MessageOf(e), HexEncode(e.peerKey)), save);
      }
    }
  }

  lemma EndKeepsTexts(c: Crypto, w: Wallet, items: seq<Item>, s: Device, p: Progress, save: Save)
    requires TrueInside(c, w, items, s) && p.height <= MAX_U64
    ensures TrueInside(c, w, items, End(s, p, save))
  {
    var chats := s.chats.(syncedHeight := p.height);
    forall a ensures MessagesOf(chats, a) == MessagesOf(s.chats, a) {
    }
    SameConversations(c, w, items, s.chats, chats);
    hide TextsTrue;
    ChatsKeepTexts(c, w, items, s, chats, save);
  }

  lemma EditKeepsTexts(c: Crypto, w: Wallet, items: seq<Item>, d: Chats, contact: Contact)
    requires TextsTrue(c, w, items, d)
    ensures TextsTrue(c, w, items, Upserted(d, contact))
  {
    forall a ensures MessagesOf(Upserted(d, contact), a) == MessagesOf(d, a) {
    }
    SameConversations(c, w, items, d, Upserted(d, contact));
  }

  lemma NextKeepsTexts(c: Crypto, w: Wallet, items: seq<Item>, s: Device, e: Event)
    requires Distinct(c, items) && TrueInside(c, w, items, s) && forall it: Item :: it in Items(s.chain) ==> it in items
    requires LiveFits(c, w, items, e)
    ensures TrueInside(c, w, items, Next(c, w, s, e))
  {
    BlankTexts(c, w, items);
    hide TextsTrue, Fits, Distinct, Step, End, Upserted, Appended, HistoryAppended, SaveTo, InOrder, Items, HasMessage, Visit;
    if s.open {
      match e
      case SyncStep(save) =>
        if s.sync.Some? && s.sync.value.height < |s.chain| {
          StepKeepsTexts(c, w, items, s, save);
        }
      case SyncEnd(save) =>
        if s.sync.Some? && s.sync.value.index == 0 && s.sync.value.height <= MAX_U64 {
          EndKeepsTexts(c, w, items, s, s.sync.value, save);
        }
      case Live(peer, message, key, save) =>
        AppendKeepsTexts(c, w, items, s.chats, peer, message, key);
        ChatsKeepTexts(c, w, items, s, Appended(s.chats, peer, message, key), save);
      case Edit(contact, save) =>
        EditKeepsTexts(c, w, items, s.chats, contact);
        ChatsKeepTexts(c, w, items, s, Upserted(s.chats, contact), save);
      case _ =>
    }
  }

  lemma {:induction false} RunIsSound(c: Crypto, w: Wallet, all: seq<BlockPB>, s: Device, events: seq<Event>)
    requires DigestsHave32Bytes(c) && Distinct(c, Items(all)) && Sound(c, w, all, s)
    requires Guarded(c, w, s, events) && Truthful(c, w, Items(all), events) && Run(c, w, s, events).chain <= all
    ensures Sound(c, w, all, Run(c, w, s, events))
    decreases |events|
  {
    if events != [] {
      hide Safe, Next, TrueInside, Distinct, LiveFits, Items, DigestsHave32Bytes;
      var s1 := Next(c, w, s, events[0]);
      NextIsSafe(c, w, s, events[0]);
      PrefixItems(s.chain, all);
      NextKeepsTexts(c, w, Items(all), s, events[0]);
      ChainOnlyGrows(c, w, s1, events[1..]);
      RunIsSound(c, w, all, s1, events[1..]);
    }
  }

  /**
   No loss: after any run of successful, failed and interrupted syncs, truthful live messages, edits, crashes,
   restarts and logouts between syncs, every message that this wallet can open below the checkpoint is in the
   store under its hash and with its text, in memory and in whatever snapshot the file holds.
   */
  lemma NoLoss(c: Crypto, w: Wallet, s: Device, events: seq<Event>)
    requires var all := Run(c, w, s, events).chain;
      DigestsHave32Bytes(c) && Distinct(c, Items(all)) && Sound(c, w, all, s) && Truthful(c, w, Items(all), events)
    requires Guarded(c, w, s, events)
    ensures Whole(c, w, Run(c, w, s, events))
  {
    var s' := Run(c, w, s, events);
    hide Sound, Whole, Distinct, Truthful, Run, Guarded;
    RunIsSound(c, w, s'.chain, s, events);
    SoundIsWhole(c, w, s'.chain, s');
  }

  /** A fresh install is such a start, with any chain before it and any growth after it. */
  lemma InstalledIsSound(c: Crypto, w: Wallet, chain: seq<BlockPB>, all: seq<BlockPB>)
    requires InOrder(chain) && chain <= all
    ensures Sound(c, w, all, Installed(chain))
  {
    InstalledIsSafe(c, w, chain);
    BlankTexts(c, w, Items(all));
  }

  // ---------------------------------------------------------------- a live message under another's hash

  /** The conversation has the hash, and only with this text. */
  ghost predicate Shadowed(d: Chats, a: Bytes, hash: Bytes, text: Bytes) {
    HasMessage(d, a, hash) && forall i :: 0 <= i < |MessagesOf(d, a)| && MessagesOf(d, a)[i].txHash == hash ==> MessagesOf(d, a)[i].text == text
  }

  lemma ShadowedHidesOthers(d: Chats, a: Bytes, hash: Bytes, text: Bytes, other: Bytes)
    requires Shadowed(d, a, hash, text) && other != text
    ensures !HasText(d, a, hash, other)
  {
  }

  lemma HistoryKeepsShadow(d: Chats, b: Bytes, msg: StoredMessage, key: Bytes, a: Bytes, hash: Bytes, text: Bytes)
    requires Shadowed(d, a, hash, text)
    ensures Shadowed(HistoryAppended(d, b, msg, key), a, hash, text)
  {
    HistoryAppendKeeps(d, b, msg, key);
    var d' := HistoryAppended(d, b, msg, key);
    forall i | 0 <= i < |MessagesOf(d', a)| && MessagesOf(d', a)[i].txHash == hash ensures MessagesOf(d', a)[i].text == text {
      assert i < |MessagesOf(d, a)| ==> MessagesOf(d', a)[i] == MessagesOf(d, a)[i];
    }
  }

  lemma SyncStepKeepsShadow(c: Crypto, w: Wallet, s: Device, a: Bytes, hash: Bytes, text: Bytes)
    requires Shadowed(s.chats, a, hash, text)
    ensures Shadowed(Next(c, w, s, SyncStep(Written)).chats, a, hash, text)
  {
    if s.open && s.sync.Some? && s.sync.value.height < |s.chain| && s.sync.value.index < |s.chain[s.sync.value.height].transactions| {
      var p := s.sync.value;
      var event := Visit(c, w, p.known, Item(s.chain[p.height].height, s.chain[p.height].transactions[p.index])).1;
      StepShape(c, w, s, Written);
      hide Step, Visit, HistoryAppended, HasMessage, Shadowed, HexEncode;
      if event.Some? {
        HistoryKeepsShadow(s.chats, event.value.peer, MessageOf(event.value), HexEncode(event.value.peerKey), a, hash, text);
      }
    }
  }

  lemma {:induction false} ScanKeepsShadow(c: Crypto, w: Wallet, s: Device, steps: seq<Event>, a: Bytes, hash: Bytes, text: Bytes)
    requires Shadowed(s.chats, a, hash, text) && forall e :: e in steps ==> e == SyncStep(Written)
    ensures Shadowed(Run(c, w, s, steps).chats, a, hash, text)
    decreases |steps|
  {
    if steps != [] {
      hide Shadowed, Next;
      SyncStepKeepsShadow(c, w, s, a, hash, text);
      assert steps[0] in steps && forall e :: e in steps[1..] ==> e in steps;
      ScanKeepsShadow(c, w, Next(c, w, s, steps[0]), steps[1..], a, hash, text);
    }
  }

  predicate PlainSync(events: seq<Event>) {
    forall e :: e in events ==> e in {SyncStart, SyncStep(Written), SyncEnd(Written)}
  }

  lemma {:induction false} NoWipeIsGuarded(c: Crypto, w: Wallet, s: Device, events: seq<Event>)
    requires forall e :: e in events ==> !e.Wipe?
    ensures Guarded(c, w, s, events)
    decreases |events|
  {
    hide Next;
    if events != [] {
      NoWipeIsGuarded(c, w, Next(c, w, s, events[0]), events[1..]);
    }
  }

  lemma LastStep(c: Crypto, w: Wallet, s: Device, e: Event)
    ensures Run(c, w, s, [e]) == Next(c, w, s, e)
  {
    assert [e][1..] == [];
    assert Run(c, w, Next(c, w, s, e), []) == Next(c, w, s, e);
    hide Next;
  }

  /** The start of a sync. */
  lemma StartsThere(c: Crypto, w: Wallet, s: Device)
    requires s.open && s.sync.None?
    ensures Next(c, w, s, SyncStart) == s.(sync := Some(Progress(s.chats.syncedHeight, 0, Some(SavedKeys(s.chats)), false)))
  {
  }

  /** The end of a sync that stands at the end of the chain. */
  lemma EndsThere(c: Crypto, w: Wallet, s: Device)
    requires InOrder(s.chain) && s.open && s.sync.Some? && !s.sync.value.failed && s.sync.value.height == |s.chain| && s.sync.value.index == 0
    ensures var s' := Next(c, w, s, SyncEnd(Written));
      s'.chain == s.chain && s'.chats == s.chats.(syncedHeight := |s.chain|) && s'.disk == Snapshot(s'.chats)
  {
  }

  /** One live message on a fresh install. */
  lemma FirstLive(c: Crypto, w: Wallet, chain: seq<BlockPB>, a: Bytes, msg: StoredMessage)
    requires msg.txHash != []
    ensures var s := Next(c, w, Installed(chain), Live(a, msg, [], Written));
      && s.open && s.sync.None? && s.chain == chain && s.chats.syncedHeight == 0
      && Shadowed(s.chats, a, msg.txHash, msg.text)
  {
    var d := Appended(NO_CHATS, a, msg, []);
    assert MessagesOf(d, a) == [msg];
    assert MessagesOf(d, a)[0].txHash == msg.txHash;
    hide Introduced;
  }

  /**
   On a fresh install the live message arrives, then one plain sync runs to its end: the checkpoint stands at
   the tip and is saved, no hash is missing, and the real message is nowhere in the conversation.
   */
  ghost predicate LosesText(c: Crypto, w: Wallet, chain: seq<BlockPB>, it: Item, msg: StoredMessage, sync: seq<Event>)
    requires Opens(w, it.tx)
  {
    var a := it.tx.fromAddress;
    var events := [Live(a, msg, [], Written)] + sync;
    var s := Run(c, w, Installed(chain), events);
    && PlainSync(sync) && Guarded(c, w, Installed(chain), events) && Safe(c, w, s)
    && s.chain == chain && s.chats.syncedHeight == |chain| && s.disk == Snapshot(s.chats)
    && !HasText(s.chats, a, TxHashFromPb(c, it.tx), TextOf(w, it.tx)) && !NothingLost(c, w, chain, s.chats)
  }

  /** Every live message under the hash of one that its peer really sent, with another text, has such a run. */
  lemma FalseLive(c: Crypto, w: Wallet, chain: seq<BlockPB>, it: Item, msg: StoredMessage)
    requires DigestsHave32Bytes(c) && InOrder(chain) && it in Items(chain) && Opens(w, it.tx)
    requires msg.txHash == TxHashFromPb(c, it.tx) && msg.text != TextOf(w, it.tx)
    ensures exists sync: seq<Event> :: LosesText(c, w, chain, it, msg, sync)
  {
    hide Next, Run, Opens, TxHashFromPb, Safe, Items, InOrder, HasMessage, HasText, Shadowed, DecryptIncoming;
    var a := it.tx.fromAddress;
    HashNotEmpty(c, it.tx);
    FirstLive(c, w, chain, a, msg);
    var live := Live(a, msg, [], Written);
    var steps := SyncOver(c, w, Next(c, w, Installed(chain), live), a, msg.txHash, msg.text);
    var sync := [SyncStart] + (steps + [SyncEnd(Written)]);
    LiveAndSync(c, w, Installed(chain), live, steps);
    var s := Run(c, w, Installed(chain), [live] + sync);
    ShadowedHidesOthers(s.chats, a, msg.txHash, msg.text, TextOf(w, it.tx));
    NoWipeIsGuarded(c, w, Installed(chain), [live] + sync);
    InstalledIsSafe(c, w, chain);
    NoHashLost(c, w, Installed(chain), [live] + sync);
    assert chain[..|chain|] == chain;
    assert LosesText(c, w, chain, it, msg, sync);
  }

  /** A first sync whose saves all succeed, to its end. */
  lemma SyncOver(c: Crypto, w: Wallet, s: Device, a: Bytes, hash: Bytes, text: Bytes) returns (steps: seq<Event>)
    requires InOrder(s.chain) && s.open && s.sync.None? && s.chats.syncedHeight == 0 && Shadowed(s.chats, a, hash, text)
    ensures forall e :: e in steps ==> e == SyncStep(Written)
    ensures var s' := Next(c, w, Run(c, w, Next(c, w, s, SyncStart), steps), SyncEnd(Written));
      && s'.chain == s.chain && s'.chats.syncedHeight == |s.chain| && s'.disk == Snapshot(s'.chats)
      && Shadowed(s'.chats, a, hash, text)
  {
    hide Run, InOrder, HasMessage, Shadowed, SavedKeys, Next;
    StartsThere(c, w, s);
    var s2 := Next(c, w, s, SyncStart);
    steps := ScanToTheEnd(c, w, s2);
    ScanKeepsShadow(c, w, s2, steps, a, hash, text);
    EndsThere(c, w, Run(c, w, s2, steps));
    SameShadow(Run(c, w, s2, steps).chats, |s.chain|, a, hash, text);
  }

  lemma LiveAndSync(c: Crypto, w: Wallet, s: Device, live: Event, steps: seq<Event>)
    ensures Run(c, w, s, [live] + ([SyncStart] + (steps + [SyncEnd(Written)])))
      == Next(c, w, Run(c, w, Next(c, w, Next(c, w, s, live), SyncStart), steps), SyncEnd(Written))
  {
    hide Next;
    var s1 := Next(c, w, s, live);
    var s2 := Next(c, w, s1, SyncStart);
    var rest := steps + [SyncEnd(Written)];
    var sync := [SyncStart] + rest;
    assert ([live] + sync)[1..] == sync && sync[1..] == rest;
    assert Run(c, w, s, [live] + sync) == Run(c, w, s1, sync) == Run(c, w, s2, rest);
    RunAppend(c, w, s2, steps, [SyncEnd(Written)]);
    LastStep(c, w, Run(c, w, s2, steps), SyncEnd(Written));
  }

  lemma SameShadow(d: Chats, height: u64, a: Bytes, hash: Bytes, text: Bytes)
    requires Shadowed(d, a, hash, text)
    ensures Shadowed(d.(syncedHeight := height), a, hash, text)
  {
    assert MessagesOf(d.(syncedHeight := height), a) == MessagesOf(d, a);
  }

  /** Two real messages of one sender are enough: one of them delivered under the other's hash. */
  lemma SwappedDelivery(c: Crypto, w: Wallet, chain: seq<BlockPB>, sent: Item, other: Item, now: i64)
    requires DigestsHave32Bytes(c) && InOrder(chain) && sent in Items(chain) && other in Items(chain)
    requires Opens(w, sent.tx) && Opens(w, other.tx) && sent.tx.fromAddress == other.tx.fromAddress
    requires TextOf(w, sent.tx) != TextOf(w, other.tx)
    ensures var msg := Delivered(w, sent.tx, TxHashFromPb(c, other.tx), now);
      msg.Some? && exists sync: seq<Event> :: LosesText(c, w, chain, other, msg.value, sync)
  {
    hide TxHashFromPb, Items, InOrder, LosesText;
    FalseLive(c, w, chain, other, Delivered(w, sent.tx, TxHashFromPb(c, other.tx), now).value);
  }

  predicate FromLives(events: seq<Event>, lives: iset<(Bytes, StoredMessage)>) {
    forall e :: e in events && e.Live? ==> (e.peer, e.message) in lives
  }

  /** Over this chain, no guarded run whose live messages are among `lives` loses a message. */
  ghost predicate NeverLoses(c: Crypto, w: Wallet, chain: seq<BlockPB>, lives: iset<(Bytes, StoredMessage)>) {
    forall events: seq<Event> :: NoGrowth(events) && FromLives(events, lives) && Guarded(c, w, Installed(chain), events) ==>
      Whole(c, w, Run(c, w, Installed(chain), events))
  }

  /** Exactly the live messages that fit the chain are harmless. */
  lemma NoLossExactly(c: Crypto, w: Wallet, chain: seq<BlockPB>, lives: iset<(Bytes, StoredMessage)>)
    requires DigestsHave32Bytes(c) && InOrder(chain) && Distinct(c, Items(chain))
    ensures NeverLoses(c, w, chain, lives) <==> forall l :: l in lives ==> Fits(c, w, Items(chain), l.0, l.1)
  {
    hide Opens, TxHashFromPb, Items, InOrder, Distinct, Run, Guarded, DecryptIncoming, NothingLost, Fits;
    if l :| l in lives && !Fits(c, w, Items(chain), l.0, l.1) {
      MisfitLoses(c, w, chain, lives, l.0, l.1);
    } else {
      InstalledIsSound(c, w, chain, chain);
      forall events: seq<Event> | NoGrowth(events) && FromLives(events, lives) && Guarded(c, w, Installed(chain), events)
        ensures Whole(c, w, Run(c, w, Installed(chain), events))
      {
        SameChain(c, w, Installed(chain), events);
        AllTruthful(c, w, Items(chain), events, lives);
        hide Sound, Whole, Truthful, NoGrowth, FromLives;
        NoLoss(c, w, Installed(chain), events);
      }
    }
  }

  lemma AllTruthful(c: Crypto, w: Wallet, items: seq<Item>, events: seq<Event>, lives: iset<(Bytes, StoredMessage)>)
    requires FromLives(events, lives) && forall l :: l in lives ==> Fits(c, w, items, l.0, l.1)
    ensures Truthful(c, w, items, events)
  {
    hide Fits;
    forall e | e in events ensures LiveFits(c, w, items, e) {
      if e.Live? {
        assert Fits(c, w, items, (e.peer, e.message).0, (e.peer, e.message).1);
      }
    }
  }

  lemma MisfitLoses(c: Crypto, w: Wallet, chain: seq<BlockPB>, lives: iset<(Bytes, StoredMessage)>, a: Bytes, msg: StoredMessage)
    requires DigestsHave32Bytes(c) && InOrder(chain) && (a, msg) in lives && !Fits(c, w, Items(chain), a, msg)
    ensures !NeverLoses(c, w, chain, lives)
  {
    hide Opens, TxHashFromPb, Items, InOrder, Run, Guarded, DecryptIncoming, NothingLost, HasText, Safe;
    var it: Item :| it in Items(chain) && Opens(w, it.tx) && it.tx.fromAddress == a && TxHashFromPb(c, it.tx) == msg.txHash
      && msg.text != TextOf(w, it.tx);
    FalseLive(c, w, chain, it, msg);
    var sync: seq<Event> :| LosesText(c, w, chain, it, msg, sync);
    var events := [Live(a, msg, [], Written)] + sync;
    assert NoGrowth(events) && FromLives(events, lives);
    assert !Whole(c, w, Run(c, w, Installed(chain), events));
  }

  /** A delivery whose claimed hash was recomputed, and which collides with no transaction of the chain. */
  ghost predicate IsRechecked(c: Crypto, w: Wallet, items: seq<Item>, a: Bytes, msg: StoredMessage) {
    exists m: SmsRequest :: m.fromAddress == a && Rechecked(c, w, m, msg.txHash)
      && Delivered(w, m, msg.txHash, msg.timestamp) == Some(msg)
      && forall it: Item :: it in items ==> NoCollision(c, {HashedBytes(m), HashedBytes(it.tx)})
  }

  /** With that check in consume, no run over the chain loses a message. */
  lemma RecheckedNeverLoses(c: Crypto, w: Wallet, chain: seq<BlockPB>, lives: iset<(Bytes, StoredMessage)>)
    requires DigestsHave32Bytes(c) && InOrder(chain) && Distinct(c, Items(chain))
    requires forall l :: l in lives ==> IsRechecked(c, w, Items(chain), l.0, l.1)
    ensures NeverLoses(c, w, chain, lives)
  {
    hide Items, InOrder, Distinct, Fits, NoCollision, HashedBytes, NeverLoses;
    forall l | l in lives ensures Fits(c, w, Items(chain), l.0, l.1) {
      assert IsRechecked(c, w, Items(chain), l.0, l.1);
      var m: SmsRequest :| m.fromAddress == l.0 && Rechecked(c, w, m, l.1.txHash)
        && Delivered(w, m, l.1.txHash, l.1.timestamp) == Some(l.1)
        && forall it: Item :: it in Items(chain) ==> NoCollision(c, {HashedBytes(m), HashedBytes(it.tx)});
      RecheckedFits(c, w, Items(chain), m, l.1.txHash, l.1.timestamp);
    }
    NoLossExactly(c, w, chain, lives);
  }

  lemma {:induction false} SameChain(c: Crypto, w: Wallet, s: Device, events: seq<Event>)
    requires NoGrowth(events)
    ensures Run(c, w, s, events).chain == s.chain
    decreases |events|
  {
    if events != [] {
      NextSameChain(c, w, s, events[0]);
      hide Next;
      SameChain(c, w, Next(c, w, s, events[0]), events[1..]);
    }
  }

  lemma NextSameChain(c: Crypto, w: Wallet, s: Device, e: Event)
    requires !e.Grow?
    ensures Next(c, w, s, e).chain == s.chain
  {
    hide InOrder, Visit, HasMessage, Introduced, MessagesOf;
  }

  // ---------------------------------------------------------------- logging out during a sync

  /**
   A logout clears the chats while the sync goes on (main.go clears before it cancels). If the sync
   then ends, the checkpoint stands and nothing is lost exactly if no block below it held a message
   for this wallet.
   */
  lemma WipeDuringSync(c: Crypto, w: Wallet, s: Device, deleted: bool, save: Save)
    requires InOrder(s.chain) && s.open && s.sync.Some? && s.sync.value.index == 0 && s.sync.value.height <= |s.chain|
    requires !s.sync.value.failed
    ensures var s' := Run(c, w, s, [Wipe(deleted), SyncEnd(save)]);
      && s'.chats == NO_CHATS.(syncedHeight := s.sync.value.height)
      && (NothingLost(c, w, s'.chain, s'.chats) <==>
            forall it: Item :: it in Items(s.chain[..s.sync.value.height]) ==> !Opens(w, it.tx))
  {
    var h := s.sync.value.height;
    var s1 := Next(c, w, s, Wipe(deleted));
    var s2 := Next(c, w, s1, SyncEnd(save));
    assert [Wipe(deleted), SyncEnd(save)][1..] == [SyncEnd(save)];
    LastStep(c, w, s1, SyncEnd(save));
    assert Run(c, w, s, [Wipe(deleted), SyncEnd(save)]) == Run(c, w, s1, [SyncEnd(save)]) == s2;
    forall a, hash, text ensures !HasText(s2.chats, a, hash, text) {
    }
    hide HasText, Opens, Items;
  }

  /** On this chain, no interleaving whatever loses a message. */
  ghost predicate AlwaysSafe(c: Crypto, w: Wallet, chain: seq<BlockPB>) {
    forall events: seq<Event> :: NoGrowth(events) ==> NothingLost(c, w, chain, Run(c, w, Installed(chain), events).chats)
  }

  /** Without the guard, exactly the chains with nothing for this wallet are safe. */
  lemma UnguardedIsSafeOnlyIfEmpty(c: Crypto, w: Wallet, chain: seq<BlockPB>)
    requires InOrder(chain)
    ensures AlwaysSafe(c, w, chain) <==> forall it: Item :: it in Items(chain) ==> !Opens(w, it.tx)
  {
    assert chain[..|chain|] == chain;
    if AlwaysSafe(c, w, chain) {
      var start := Next(c, w, Installed(chain), SyncStart);
      var scan := ScanToTheEnd(c, w, start);
      var tail := [Wipe(true), SyncEnd(Written)];
      var events := [SyncStart] + scan + tail;
      assert events[1..] == scan + tail;
      RunAppend(c, w, start, scan, tail);
      hide Next, NothingLost;
      assert NothingLost(c, w, chain, Run(c, w, Installed(chain), events).chats);
      WipeDuringSync(c, w, Run(c, w, start, scan), true, Written);
    } else {
      var events: seq<Event> :|
        NoGrowth(events) && !NothingLost(c, w, chain, Run(c, w, Installed(chain), events).chats);
      HeightsStayInside(c, w, Installed(chain), events);
      SameChain(c, w, Installed(chain), events);
      StretchOfItems(chain, 0, Run(c, w, Installed(chain), events).chats.syncedHeight);
    }
  }

  ghost predicate Inside(s: Device) {
    && s.chats.syncedHeight <= |s.chain|
    && (s.disk.Snapshot? ==> s.disk.data.syncedHeight <= |s.chain|)
    && (s.sync.Some? ==> s.sync.value.height <= |s.chain|)
  }

  lemma {:induction false} HeightsStayInside(c: Crypto, w: Wallet, s: Device, events: seq<Event>)
    requires Inside(s) && NoGrowth(events)
    ensures Inside(Run(c, w, s, events))
    decreases |events|
  {
    if events != [] {
      NextInside(c, w, s, events[0]);
      hide Next, Inside;
      HeightsStayInside(c, w, Next(c, w, s, events[0]), events[1..]);
    }
  }

  lemma NextInside(c: Crypto, w: Wallet, s: Device, e: Event)
    requires Inside(s) && !e.Grow?
    ensures Inside(Next(c, w, s, e))
  {
    hide HasMessage, Visit, Introduced, InOrder, MessagesOf;
  }
}
