/** The sync of a device, transaction by transaction, against the sync as one call. */
module SyncSteps {
  import opened Base
  import opened Text
  import opened Blocks
  import opened Wire
  import opened Histories
  import opened ChatStores
  import opened SyncRuns

  /** What a sync that began at height `from` has passed. */
  function PassedSince(chain: seq<BlockPB>, from: nat, p: Progress): seq<Item>
    requires from <= p.height <= |chain| && (p.height < |chain| ==> p.index <= |chain[p.height].transactions|)
  {
    Items(chain[from..p.height]) + if p.height < |chain| then ItemsOf(chain[p.height])[..p.index] else []
  }

  /** The device stands in a sync that began with `d`: its keys and chats are those of one scan of what it has passed. */
  ghost predicate MidScan(c: Crypto, w: Wallet, chain: seq<BlockPB>, d: Chats, s: Device) {
    && s.open && s.chain == chain && s.sync.Some? && d.syncedHeight <= s.sync.value.height <= |chain|
    && (if s.sync.value.height < |chain| then s.sync.value.index <= |chain[s.sync.value.height].transactions| else s.sync.value.index == 0)
    && var (keys, events) := Scan(c, w, Some(SavedKeys(d)), PassedSince(chain, d.syncedHeight, s.sync.value));
       s.sync.value.known == keys && s.chats == Recorded(d, events)
  }

  lemma StartsScan(c: Crypto, w: Wallet, s: Device)
    requires s.open && s.sync.None? && s.chats.syncedHeight <= |s.chain|
    ensures MidScan(c, w, s.chain, s.chats, Next(c, w, s, SyncStart))
  {
    var h := s.chats.syncedHeight;
    assert s.chain[h..h] == [];
    if h < |s.chain| {
      assert ItemsOf(s.chain[h])[..0] == [];
    }
    assert PassedSince(s.chain, h, Progress(h, 0, Some(SavedKeys(s.chats)), false)) == [];
  }

  lemma BlockPassedSince(chain: seq<BlockPB>, from: nat, p: Progress)
    requires from <= p.height < |chain| && p.index == |chain[p.height].transactions|
    ensures PassedSince(chain, from, p.(height := p.height + 1, index := 0)) == PassedSince(chain, from, p)
  {
    hide Items;
    var h := p.height;
    ItemsOneMore(chain, from, h);
    assert ItemsOf(chain[h])[..p.index] == ItemsOf(chain[h]);
    if h + 1 < |chain| {
      assert ItemsOf(chain[h + 1])[..0] == [];
    }
  }

  lemma OnePassedSince(chain: seq<BlockPB>, from: nat, p: Progress)
    requires from <= p.height < |chain| && p.index < |chain[p.height].transactions|
    ensures PassedSince(chain, from, p.(index := p.index + 1))
      == PassedSince(chain, from, p) + [Item(chain[p.height].height, chain[p.height].transactions[p.index])]
  {
    hide Items;
    var items := ItemsOf(chain[p.height]);
    assert items[..p.index + 1] == items[..p.index] + [items[p.index]];
  }

  lemma SamePassed(chain: seq<BlockPB>, from: nat, p: Progress, q: Progress)
    requires from <= p.height <= |chain| && (p.height < |chain| ==> p.index <= |chain[p.height].transactions|)
    requires q.height == p.height && q.index == p.index
    ensures PassedSince(chain, from, q) == PassedSince(chain, from, p)
  {
  }

  lemma RecordedOneMore(d: Chats, events: seq<HistoryEvent>, e: HistoryEvent)
    ensures Recorded(d, events + [e]) == HistoryAppended(Recorded(d, events), e.peer, MessageOf(e), HexEncode(e.peerKey))
    ensures Recorded(d, events + []) == Recorded(d, events)
  {
    hide HistoryAppended, HexEncode, MessageOf;
    assert (events + [e])[..|events|] == events && events + [] == events;
  }

  /** One scan, one item further. */
  lemma ScanOneMore(c: Crypto, w: Wallet, known: Keys, items: seq<Item>, it: Item)
    ensures var (keys, events) := Scan(c, w, known, items);
      var (keys', event) := Visit(c, w, keys, it);
      Scan(c, w, known, items + [it]) == (keys', events + Listed(event))
  {
    hide Visit, Scan;
    ScanResumes(c, w, known, items, [it]);
    ScanOne(c, w, Scan(c, w, known, items).0, it);
  }

  /** What one step past a transaction does to keys and chats. */
  lemma StepEffect(c: Crypto, w: Wallet, s: Device, save: Save)
    requires s.open && s.sync.Some? && s.sync.value.height < |s.chain|
    requires s.sync.value.index < |s.chain[s.sync.value.height].transactions|
    ensures var p, s' := s.sync.value, Next(c, w, s, SyncStep(save));
      var (keys, event) := Visit(c, w, p.known, Item(s.chain[p.height].height, s.chain[p.height].transactions[p.index]));
      && s'.open && s'.chain == s.chain && s'.sync.Some?
      && s'.sync.value.height == p.height && s'.sync.value.index == p.index + 1 && s'.sync.value.known == keys
      && s'.chats == if event.None? then s.chats
                     else HistoryAppended(s.chats, event.value.peer, MessageOf(event.value), HexEncode(event.value.peerKey))
  {
    hide Visit, Appended, HexEncode, HasMessage, SaveTo;
  }

  lemma StepKeepsScan(c: Crypto, w: Wallet, chain: seq<BlockPB>, d: Chats, s: Device, save: Save)
    requires MidScan(c, w, chain, d, s)
    ensures MidScan(c, w, chain, d, Next(c, w, s, SyncStep(save)))
  {
    hide Scan, Visit, Recorded, PassedSince, HistoryAppended, SavedKeys, HexEncode, MessageOf;
    var p := s.sync.value;
    if p.height < |chain| {
      if p.index == |chain[p.height].transactions| {
        BlockPassedSince(chain, d.syncedHeight, p);
      } else {
        var it := Item(chain[p.height].height, chain[p.height].transactions[p.index]);
        var (keys, events) := Scan(c, w, Some(SavedKeys(d)), PassedSince(chain, d.syncedHeight, p));
        var event := Visit(c, w, keys, it).1;
        StepEffect(c, w, s, save);
        OnePassedSince(chain, d.syncedHeight, p);
        SamePassed(chain, d.syncedHeight, p.(index := p.index + 1), Next(c, w, s, SyncStep(save)).sync.value);
        ScanOneMore(c, w, Some(SavedKeys(d)), PassedSince(chain, d.syncedHeight, p), it);
        RecordedOneMore(d, events, if event.Some? then event.value else HistoryEvent(0, [], 0, true, [], [], []));
      }
    }
  }

  lemma {:induction false} StepsKeepScan(c: Crypto, w: Wallet, chain: seq<BlockPB>, d: Chats, s: Device, steps: seq<Event>)
    requires MidScan(c, w, chain, d, s) && OnlySteps(steps)
    ensures MidScan(c, w, chain, d, Run(c, w, s, steps))
    decreases |steps|
  {
    hide MidScan, Next;
    if steps != [] {
      assert steps[0] in steps && forall e :: e in steps[1..] ==> e in steps;
      StepKeepsScan(c, w, chain, d, s, steps[0].save);
      StepsKeepScan(c, w, chain, d, Next(c, w, s, steps[0]), steps[1..]);
    }
  }

  /**
   A sync that nothing interrupts and that has reached the end of the chain: its small steps leave what one
   scan with the saved keys makes of the store, whichever saves failed; ending it moves the checkpoint to the
   tip and saves everything, unless one did.
   */
  lemma StepsMakeSync(c: Crypto, w: Wallet, s: Device, steps: seq<Event>)
    requires InOrder(s.chain) && s.open && s.sync.None? && s.chats.syncedHeight <= |s.chain| && OnlySteps(steps)
    ensures var s1 := Run(c, w, Next(c, w, s, SyncStart), steps);
      s1.sync.Some? && (s1.sync.value.height == |s.chain| ==>
        var s2, synced := Next(c, w, s1, SyncEnd(Written)), Synced(c, w, s.chats, s.chain, |s.chain|);
        && s1.chats == synced.(syncedHeight := s.chats.syncedHeight)
        && s2 == if s1.sync.value.failed then s1.(sync := None) else s1.(chats := synced, disk := Snapshot(synced), sync := None))
  {
    hide Run, Scan, Recorded, Items, SavedKeys;
    StartsScan(c, w, s);
    StepsKeepScan(c, w, s.chain, s.chats, Next(c, w, s, SyncStart), steps);
    var s1 := Run(c, w, Next(c, w, s, SyncStart), steps);
    if s1.sync.value.height == |s.chain| {
      assert PassedSince(s.chain, s.chats.syncedHeight, s1.sync.value) == Items(s.chain[s.chats.syncedHeight..|s.chain|]);
      RecordedKeeps(s.chats, Scan(c, w, Some(SavedKeys(s.chats)), Items(s.chain[s.chats.syncedHeight..|s.chain|])).1);
    }
  }

  /** A live message is stored at the end of its conversation whatever is there already. */
  lemma LiveIsStored(c: Crypto, w: Wallet, s: Device, peer: Bytes, message: StoredMessage, key: Bytes, save: Save, b: Bytes)
    requires s.open
    ensures var s' := Next(c, w, s, Live(peer, message, key, save));
      && MessagesOf(s'.chats, b) == MessagesOf(s.chats, b) + (if b == peer then [message] else [])
      && s'.chats.syncedHeight == s.chats.syncedHeight && s'.sync == s.sync && s'.chain == s.chain
      && (save.Written? ==> s'.disk == Snapshot(s'.chats))
  {
  }

  /** An edited contact is in the book afterwards; no conversation and no other contact changes. */
  lemma EditIsStored(c: Crypto, w: Wallet, s: Device, contact: Contact, save: Save, b: Bytes)
    requires s.open
    ensures var s' := Next(c, w, s, Edit(contact, save));
      && contact.address in s'.chats.contacts && s'.chats.contacts[contact.address] == contact
      && MessagesOf(s'.chats, b) == MessagesOf(s.chats, b) && s'.chats.syncedHeight == s.chats.syncedHeight
      && s'.sync == s.sync && s'.chain == s.chain && (save.Written? ==> s'.disk == Snapshot(s'.chats))
  {
  }
}
