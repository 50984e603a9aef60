/**
 A device over time: syncs transaction by transaction, live messages, edits, restarts and logouts in
 any interleaving, with every save free to fail, against a growing chain.
 */
module SyncRuns {
  import opened Base
  import opened Text
  import opened Blocks
  import opened Wire
  import opened Histories
  import opened ChatStores

  /** A sync that has recorded everything below `height` and the first `index` transactions there. */
  datatype Progress = Progress(height: nat, index: nat, known: Keys, failed: bool)

  /** `open` says whether the app has a chat store at all. */
  datatype Device = Device(chain: seq<BlockPB>, chats: Chats, disk: Disk, sync: Option<Progress>, open: bool)

  /** How a persist ends, or how the app is killed during it. */
  datatype Save = Written | Untouched | Emptied | CutShort

  datatype Event =
    | Grow(blocks: seq<BlockPB>)
    | SyncStart
    | SyncStep(save: Save)
    | SyncEnd(save: Save)
    | SyncAbort
    | Live(peer: Bytes, message: StoredMessage, key: Bytes, save: Save)
    | Edit(contact: Contact, save: Save)
    | Restart(readable: bool)
    | Wipe(deleted: bool)

  function SaveTo(disk: Disk, d: Chats, save: Save): (after: Disk)
    ensures Persisted(disk, d, after, save.Written?)
  {
    match save
    case Written => Snapshot(d)
    case Untouched => disk
    case Emptied => Empty
    case CutShort => Corrupt
  }

  /** The scan moves past one transaction, or past the end of a block. */
  function Step(c: Crypto, w: Wallet, s: Device, p: Progress, save: Save): Device
    requires p.height < |s.chain|
  {
    var b := s.chain[p.height];
    if p.index >= |b.transactions| then s.(sync := Some(p.(height := p.height + 1, index := 0)))
    else
      var (known, event) := Visit(c, w, p.known, Item(b.height, b.transactions[p.index]));
      var p' := p.(index := p.index + 1, known := known);
      if event.None? then s.(sync := Some(p'))
      else
        var e := event.value;
        var chats := HistoryAppended(s.chats, e.peer, MessageOf(e), HexEncode(e.peerKey));
        if HasMessage(s.chats, e.peer, e.txHash) then s.(sync := Some(p'))
        else s.(chats := chats, disk := SaveTo(s.disk, chats, save), sync := Some(p'.(failed := p.failed || !save.Written?)))
  }

  /** The server had no block at the scan's height: the checkpoint moves unless a save had failed. */
  function End(s: Device, p: Progress, save: Save): Device
    requires p.height <= MAX_U64
  {
    if p.failed then s.(sync := None)
    else
      var chats := s.chats.(syncedHeight := p.height);
      s.(chats := chats, disk := SaveTo(s.disk, chats, save), sync := None)
  }

  /** The process is gone and NewChatStore reads the file; one that it cannot read or parse leaves the app without a store. */
  function Reopened(s: Device, readable: bool): Device {
    s.(chats := if readable && s.disk.Snapshot? then s.disk.data else NO_CHATS, sync := None, open := readable && !s.disk.Corrupt?)
  }

  /** An event that is not possible in `s` changes nothing. Without a store only the chain and a restart go on. */
  function Next(c: Crypto, w: Wallet, s: Device, e: Event): Device {
    if !s.open && !e.Grow? && !e.Restart? then s else
    match e
    case Grow(blocks) => if InOrder(s.chain + blocks) then s.(chain := s.chain + blocks) else s
    case SyncStart =>
      if s.sync.Some? then s else s.(sync := Some(Progress(s.chats.syncedHeight, 0, Some(SavedKeys(s.chats)), false)))
    case SyncStep(save) =>
      if s.sync.Some? && s.sync.value.height < |s.chain| then Step(c, w, s, s.sync.value, save) else s
    case SyncEnd(save) =>
      if s.sync.Some? && s.sync.value.index == 0 && s.sync.value.height <= MAX_U64 then End(s, s.sync.value, save) else s
    case SyncAbort => s.(sync := None)
    case Live(peer, message, key, save) =>
      var chats := Appended(s.chats, peer, message, key);
      s.(chats := chats, disk := SaveTo(s.disk, chats, save))
    case Edit(contact, save) =>
      var chats := Upserted(s.chats, contact);
      s.(chats := chats, disk := SaveTo(s.disk, chats, save))
    case Restart(readable) => Reopened(s, readable)
    case Wipe(deleted) => s.(chats := NO_CHATS, disk := if deleted then Absent else s.disk)
  }

  function Run(c: Crypto, w: Wallet, s: Device, events: seq<Event>): Device
    decreases |events|
  {
    if events == [] then s else Run(c, w, Next(c, w, s, events[0]), events[1..])
  }

  /** No logout while a sync is running. */
  predicate Guarded(c: Crypto, w: Wallet, s: Device, events: seq<Event>)
    decreases |events|
  {
    events == [] || ((events[0].Wipe? ==> s.sync.None?) && Guarded(c, w, Next(c, w, s, events[0]), events[1..]))
  }

  function Installed(chain: seq<BlockPB>): Device {
    Device(chain, NO_CHATS, Absent, None, true)
  }

  // ---------------------------------------------------------------- what guarded runs keep

  /** Everything the scan has passed, from genesis on. */
  function Passed(chain: seq<BlockPB>, p: Progress): seq<Item>
    requires p.height <= |chain| && (p.height < |chain| ==> p.index <= |chain[p.height].transactions|)
  {
    Items(chain[..p.height]) + if p.height < |chain| then ItemsOf(chain[p.height])[..p.index] else []
  }

  ghost predicate SyncHolds(c: Crypto, w: Wallet, chain: seq<BlockPB>, d: Chats, p: Progress) {
    && p.height <= |chain|
    && (if p.height < |chain| then p.index <= |chain[p.height].transactions| else p.index == 0)
    && HoldsHashes(c, w, d, Passed(chain, p))
  }

  ghost predicate Safe(c: Crypto, w: Wallet, s: Device) {
    && InOrder(s.chain)
    && NoHashMissing(c, w, s.chain, s.chats)
    && (s.disk.Snapshot? ==> NoHashMissing(c, w, s.chain, s.disk.data))
    && (s.sync.Some? ==> SyncHolds(c, w, s.chain, s.chats, s.sync.value))
  }

  lemma SaveKeepsSafe(c: Crypto, w: Wallet, chain: seq<BlockPB>, disk: Disk, d: Chats, save: Save)
    requires NoHashMissing(c, w, chain, d)
    requires disk.Snapshot? ==> NoHashMissing(c, w, chain, disk.data)
    ensures var after := SaveTo(disk, d, save); after.Snapshot? ==> NoHashMissing(c, w, chain, after.data)
  {
  }

  lemma HoldsHashesKept(c: Crypto, w: Wallet, d: Chats, d': Chats, items: seq<Item>)
    requires HoldsHashes(c, w, d, items) && forall a, hash :: HasMessage(d, a, hash) ==> HasMessage(d', a, hash)
    ensures HoldsHashes(c, w, d', items)
  {
    hide HasMessage, Opens;
  }

  /** Chats that keep every message keep the device safe. */
  lemma KeepingIsSafe(c: Crypto, w: Wallet, s: Device, chats: Chats, save: Save)
    requires Safe(c, w, s) && Keeps(s.chats, chats)
    ensures Safe(c, w, s.(chats := chats, disk := SaveTo(s.disk, chats, save)))
  {
    KeepsAllHashes(c, w, s.chain, s.chats, chats);
    SaveKeepsSafe(c, w, s.chain, s.disk, chats, save);
    if s.sync.Some? {
      HoldsHashesKept(c, w, s.chats, chats, Passed(s.chain, s.sync.value));
    }
  }

  lemma UpsertKeeps(d: Chats, contact: Contact)
    ensures Keeps(d, Upserted(d, contact))
  {
    forall a ensures MessagesOf(Upserted(d, contact), a) == MessagesOf(d, a) {
    }
  }

  lemma {:induction false} ChainOnlyGrows(c: Crypto, w: Wallet, s: Device, events: seq<Event>)
    ensures s.chain <= Run(c, w, s, events).chain
    decreases |events|
  {
    if events != [] {
      NextChain(c, w, s, events[0]);
      ChainOnlyGrows(c, w, Next(c, w, s, events[0]), events[1..]);
    }
  }

  lemma NextChain(c: Crypto, w: Wallet, s: Device, e: Event)
    ensures s.chain <= Next(c, w, s, e).chain
  {
    hide InOrder, Visit, HasMessage, Introduced, MessagesOf;
  }

  lemma GrowIsSafe(c: Crypto, w: Wallet, s: Device, blocks: seq<BlockPB>)
    requires Safe(c, w, s) && InOrder(s.chain + blocks)
    ensures Safe(c, w, s.(chain := s.chain + blocks))
  {
    hide HoldsHashes, Items;
    var chain := s.chain + blocks;
    forall h | 0 <= h <= |s.chain| ensures chain[..h] == s.chain[..h] {
    }
    if s.sync.Some? {
      var p := s.sync.value;
      if p.height == |s.chain| < |chain| {
        assert ItemsOf(chain[p.height])[..0] == [];
      }
      assert Passed(chain, p) == Passed(s.chain, p);
    }
  }

  /** The end of a block adds nothing. */
  lemma BlockPassed(chain: seq<BlockPB>, p: Progress)
    requires p.height < |chain| && p.index == |chain[p.height].transactions|
    ensures Passed(chain, p.(height := p.height + 1, index := 0)) == Passed(chain, p)
  {
    var h := p.height;
    assert chain[..h + 1][..h] == chain[..h];
    assert ItemsOf(chain[h])[..p.index] == ItemsOf(chain[h]);
    if h + 1 < |chain| {
      assert ItemsOf(chain[h + 1])[..0] == [];
    }
  }

  lemma OnePassed(chain: seq<BlockPB>, p: Progress)
    requires p.height < |chain| && p.index < |chain[p.height].transactions|
    ensures Passed(chain, p.(index := p.index + 1))
      == Passed(chain, p) + [Item(chain[p.height].height, chain[p.height].transactions[p.index])]
  {
    var items := ItemsOf(chain[p.height]);
    assert items[..p.index + 1] == items[..p.index] + [items[p.index]];
  }

  lemma StepIsSafe(c: Crypto, w: Wallet, s: Device, save: Save)
    requires DigestsHave32Bytes(c) && Safe(c, w, s) && s.sync.Some? && s.sync.value.height < |s.chain|
    ensures Safe(c, w, Step(c, w, s, s.sync.value, save))
  {
    var p := s.sync.value;
    var b := s.chain[p.height];
    hide NoHashMissing, HoldsHashes, Passed, HasMessage, HistoryAppended, InOrder, Visit;
    if p.index == |b.transactions| {
      BlockPassed(s.chain, p);
    } else {
      ItemIsSafe(c, w, s, save);
    }
  }

  /** What one transaction does to the device besides the move past it. */
  ghost predicate Records(c: Crypto, w: Wallet, s: Device, it: Item, save: Save, s': Device)
    requires s.sync.Some?
  {
    var event := Visit(c, w, s.sync.value.known, it).1;
    if event.None? || HasMessage(s.chats, event.value.peer, event.value.txHash) then
      s'.chats == s.chats && s'.disk == s.disk
    else
      var e := event.value;
      s'.chats == HistoryAppended(s.chats, e.peer, MessageOf(e), HexEncode(e.peerKey)) && s'.disk == SaveTo(s.disk, s'.chats, save)
  }

  lemma StepShape(c: Crypto, w: Wallet, s: Device, save: Save)
    requires s.sync.Some? && s.sync.value.height < |s.chain|
    requires s.sync.value.index < |s.chain[s.sync.value.height].transactions|
    ensures var p := s.sync.value;
      var s' := Step(c, w, s, p, save);
      && s'.chain == s.chain && s'.sync.Some?
      && s'.sync.value.height == p.height && s'.sync.value.index == p.index + 1
      && Records(c, w, s, Item(s.chain[p.height].height, s.chain[p.height].transactions[p.index]), save, s')
  {
    hide Visit, HasMessage, HistoryAppended, SaveTo, HexEncode;
  }

  /** What a sync has passed depends on its position alone. */
  lemma SamePosition(c: Crypto, w: Wallet, chain: seq<BlockPB>, d: Chats, p: Progress, q: Progress)
    requires SyncHolds(c, w, chain, d, p) && q.height == p.height && q.index == p.index
    ensures SyncHolds(c, w, chain, d, q)
  {
    hide HoldsHashes;
    assert Passed(chain, q) == Passed(chain, p);
  }

  lemma ItemIsSafe(c: Crypto, w: Wallet, s: Device, save: Save)
    requires DigestsHave32Bytes(c) && Safe(c, w, s) && s.sync.Some? && s.sync.value.height < |s.chain|
    requires s.sync.value.index < |s.chain[s.sync.value.height].transactions|
    ensures Safe(c, w, Step(c, w, s, s.sync.value, save))
  {
    hide NoHashMissing, HoldsHashes, Passed, HasMessage, HistoryAppended, InOrder, Visit, SyncHolds, SaveTo, Step, HexEncode, MessageOf;
    var p := s.sync.value;
    var s' := Step(c, w, s, p, save);
    var it := Item(s.chain[p.height].height, s.chain[p.height].transactions[p.index]);
    StepShape(c, w, s, save);
    VisitHolds(c, w, s.chats, p.known, it);
    MoveOn(c, w, s, it);
    var event := Visit(c, w, p.known, it).1;
    if event.Some? {
      RecordIsSafe(c, w, s, it, event.value, save);
      AlreadyThere(s.chats, event.value);
    }
    SamePosition(c, w, s.chain, s'.chats, p.(index := p.index + 1), s'.sync.value);
  }

  /** Past a transaction whose message, if any, memory already holds. */
  lemma MoveOn(c: Crypto, w: Wallet, s: Device, it: Item)
    requires Safe(c, w, s) && s.sync.Some? && s.sync.value.height < |s.chain|
    requires s.sync.value.index < |s.chain[s.sync.value.height].transactions|
    requires it == Item(s.chain[s.sync.value.height].height, s.chain[s.sync.value.height].transactions[s.sync.value.index])
    ensures var p := s.sync.value;
      HoldsHashes(c, w, s.chats, [it]) ==> SyncHolds(c, w, s.chain, s.chats, p.(index := p.index + 1))
  {
    var p := s.sync.value;
    hide NoHashMissing, HoldsHashes, Passed, HasMessage, InOrder;
    OnePassed(s.chain, p);
    if HoldsHashes(c, w, s.chats, [it]) {
      HoldsHashesMore(c, w, s.chats, s.chats, Passed(s.chain, p), [it]);
    }
  }

  /** The callback for one event, then past its transaction. */
  lemma RecordIsSafe(c: Crypto, w: Wallet, s: Device, it: Item, e: HistoryEvent, save: Save)
    requires Safe(c, w, s) && s.sync.Some? && s.sync.value.height < |s.chain|
    requires s.sync.value.index < |s.chain[s.sync.value.height].transactions|
    requires it == Item(s.chain[s.sync.value.height].height, s.chain[s.sync.value.height].transactions[s.sync.value.index])
    requires HoldsHashes(c, w, HistoryAppended(s.chats, e.peer, MessageOf(e), HexEncode(e.peerKey)), [it])
    ensures var p := s.sync.value;
      var chats := HistoryAppended(s.chats, e.peer, MessageOf(e), HexEncode(e.peerKey));
      var s' := s.(chats := chats, disk := SaveTo(s.disk, chats, save));
      Safe(c, w, s') && SyncHolds(c, w, s.chain, chats, p.(index := p.index + 1))
  {
    var chats := HistoryAppended(s.chats, e.peer, MessageOf(e), HexEncode(e.peerKey));
    var s' := s.(chats := chats, disk := SaveTo(s.disk, chats, save));
    hide HoldsHashes, Passed, HasMessage, HistoryAppended, SyncHolds, NoHashMissing, InOrder;
    HistoryAppendKeeps(s.chats, e.peer, MessageOf(e), HexEncode(e.peerKey));
    KeepingIsSafe(c, w, s, chats, save);
    MoveOn(c, w, s', it);
  }

  lemma AlreadyThere(d: Chats, e: HistoryEvent)
    ensures HasMessage(d, e.peer, e.txHash) ==> HistoryAppended(d, e.peer, MessageOf(e), HexEncode(e.peerKey)) == d
  {
  }

  /** After the visit of one transaction, its message (if it is one) is held. */
  lemma VisitHolds(c: Crypto, w: Wallet, d: Chats, known: Keys, it: Item)
    requires DigestsHave32Bytes(c)
    ensures var event := Visit(c, w, known, it).1;
      if event.Some? then HoldsHashes(c, w, HistoryAppended(d, event.value.peer, MessageOf(event.value), HexEncode(event.value.peerKey)), [it])
      else HoldsHashes(c, w, d, [it])
  {
    HashNotEmpty(c, it.tx);
    var event := Visit(c, w, known, it).1;
    if event.Some? {
      HistoryAppendKeeps(d, event.value.peer, MessageOf(event.value), HexEncode(event.value.peerKey));
    }
  }

  lemma EndIsSafe(c: Crypto, w: Wallet, s: Device, save: Save)
    requires Safe(c, w, s) && s.sync.Some? && s.sync.value.index == 0 && s.sync.value.height <= MAX_U64
    ensures Safe(c, w, End(s, s.sync.value, save))
  {
    var p := s.sync.value;
    if !p.failed {
      var chats := s.chats.(syncedHeight := p.height);
      SameMessages(s.chats, p.height);
      if p.height < |s.chain| {
        assert ItemsOf(s.chain[p.height])[..0] == [];
      }
      assert Passed(s.chain, p) == Items(s.chain[..p.height]);
      HoldsHashesKept(c, w, s.chats, chats, Items(s.chain[..p.height]));
      SaveKeepsSafe(c, w, s.chain, s.disk, chats, save);
    }
  }

  lemma BlankIsSafe(c: Crypto, w: Wallet, chain: seq<BlockPB>)
    ensures NoHashMissing(c, w, chain, NO_CHATS)
  {
    assert chain[..0] == [];
  }

  lemma NextIsSafe(c: Crypto, w: Wallet, s: Device, e: Event)
    requires DigestsHave32Bytes(c) && Safe(c, w, s) && (e.Wipe? ==> s.sync.None?)
    ensures Safe(c, w, Next(c, w, s, e))
  {
    BlankIsSafe(c, w, s.chain);
    hide NoHashMissing, HasMessage, Appended, Upserted, HistoryAppended, InOrder, Step, End;
    if !s.open && !e.Grow? && !e.Restart? {
      return;
    }
    match e
    case Grow(blocks) =>
      if InOrder(s.chain + blocks) {
        GrowIsSafe(c, w, s, blocks);
      }
    case SyncStart =>
      if s.sync.None? {
        StartHolds(c, w, s);
      }
    case SyncStep(save) =>
      if s.sync.Some? && s.sync.value.height < |s.chain| {
        StepIsSafe(c, w, s, save);
      }
    case SyncEnd(save) =>
      if s.sync.Some? && s.sync.value.index == 0 && s.sync.value.height <= MAX_U64 {
        EndIsSafe(c, w, s, save);
      }
    case SyncAbort =>
    case Live(peer, message, key, save) =>
      AppendKeeps(s.chats, peer, message, key);
      KeepingIsSafe(c, w, s, Appended(s.chats, peer, message, key), save);
    case Edit(contact, save) =>
      UpsertKeeps(s.chats, contact);
      KeepingIsSafe(c, w, s, Upserted(s.chats, contact), save);
    case Restart(readable) =>
    case Wipe(deleted) =>
  }

  lemma StartHolds(c: Crypto, w: Wallet, s: Device)
    requires Safe(c, w, s)
    ensures SyncHolds(c, w, s.chain, s.chats, Progress(s.chats.syncedHeight, 0, Some(SavedKeys(s.chats)), false))
  {
    var h := s.chats.syncedHeight;
    var p := Progress(h, 0, Some(SavedKeys(s.chats)), false);
    if h < |s.chain| {
      assert ItemsOf(s.chain[h])[..0] == [];
    }
    assert Passed(s.chain, p) == Items(s.chain[..h]);
  }

  /**
   Over any run of successful, failed and interrupted syncs, live messages of any kind, edits, crashes,
   restarts and logouts between syncs: for every message that this wallet can open below the checkpoint, its
   hash is in the sender's conversation, in memory and in whatever snapshot the file holds.
   */
  lemma {:induction false} NoHashLost(c: Crypto, w: Wallet, s: Device, events: seq<Event>)
    requires DigestsHave32Bytes(c) && Safe(c, w, s) && Guarded(c, w, s, events)
    ensures Safe(c, w, Run(c, w, s, events))
    decreases |events|
  {
    if events != [] {
      hide Safe, Next;
      NextIsSafe(c, w, s, events[0]);
      NoHashLost(c, w, Next(c, w, s, events[0]), events[1..]);
    }
  }

  lemma InstalledIsSafe(c: Crypto, w: Wallet, chain: seq<BlockPB>)
    requires InOrder(chain)
    ensures Safe(c, w, Installed(chain))
  {
    BlankIsSafe(c, w, chain);
  }

  // ---------------------------------------------------------------- a save that fails

  ghost predicate Failing(s: Device, height: u64) {
    s.open && s.sync.Some? && s.sync.value.failed && s.chats.syncedHeight == height
  }

  predicate OnlySteps(events: seq<Event>) {
    forall e :: e in events ==> e.SyncStep?
  }

  lemma StepStaysFailing(c: Crypto, w: Wallet, s: Device, save: Save, height: u64)
    requires Failing(s, height)
    ensures Failing(Next(c, w, s, SyncStep(save)), height)
  {
    hide Visit, HasMessage, Introduced, MessagesOf;
  }

  lemma {:induction false} ScanStaysFailing(c: Crypto, w: Wallet, s: Device, steps: seq<Event>, height: u64)
    requires Failing(s, height) && OnlySteps(steps)
    ensures Failing(Run(c, w, s, steps), height)
    decreases |steps|
  {
    hide Failing, Next;
    if steps != [] {
      assert steps[0] in steps && forall e :: e in steps[1..] ==> e in steps;
      StepStaysFailing(c, w, s, steps[0].save, height);
      ScanStaysFailing(c, w, Next(c, w, s, steps[0]), steps[1..], height);
    }
  }

  /**
   If the save of one message fails during a sync, that sync ends without moving the checkpoint and without
   another save, whatever became of the other messages: the next sync scans the same blocks again.
   */
  lemma FailedSaveHoldsCheckpoint(c: Crypto, w: Wallet, s: Device, save: Save, steps: seq<Event>, last: Save)
    requires s.open && s.sync.Some? && !save.Written? && OnlySteps(steps)
    requires Next(c, w, s, SyncStep(save)).chats != s.chats
    ensures var s1 := Run(c, w, Next(c, w, s, SyncStep(save)), steps);
      var s2 := Next(c, w, s1, SyncEnd(last));
      s2.chats == s1.chats && s2.disk == s1.disk && s2.chats.syncedHeight == s.chats.syncedHeight
  {
    hide Visit, HasMessage, Introduced, MessagesOf, Run;
    var s0 := Next(c, w, s, SyncStep(save));
    assert Failing(s0, s.chats.syncedHeight);
    ScanStaysFailing(c, w, s0, steps, s.chats.syncedHeight);
  }

  // ---------------------------------------------------------------- a file cut short

  /** Whatever happens, a device that restarts on a file cut short has no store again: no event repairs the file. */
  lemma {:induction false} CutShortStaysClosed(c: Crypto, w: Wallet, s: Device, readable: bool, events: seq<Event>)
    requires s.disk.Corrupt?
    ensures var s' := Run(c, w, Reopened(s, readable), events);
      s' == Device(s'.chain, NO_CHATS, Corrupt, None, false)
  {
    ClosedStaysClosed(c, w, Reopened(s, readable), events);
  }

  lemma {:induction false} ClosedStaysClosed(c: Crypto, w: Wallet, s: Device, events: seq<Event>)
    requires s == Device(s.chain, NO_CHATS, Corrupt, None, false)
    ensures var s' := Run(c, w, s, events); s' == Device(s'.chain, NO_CHATS, Corrupt, None, false)
    decreases |events|
  {
    if events != [] {
      ClosedStaysClosed(c, w, Next(c, w, s, events[0]), events[1..]);
    }
  }

  // ---------------------------------------------------------------- building runs

  lemma {:induction false} RunAppend(c: Crypto, w: Wallet, s: Device, a: seq<Event>, b: seq<Event>)
    ensures Run(c, w, s, a + b) == Run(c, w, Run(c, w, s, a), b)
    decreases |a|
  {
    hide Next;
    if a == [] {
      assert a + b == b;
    } else {
      assert (a + b)[1..] == a[1..] + b;
      RunAppend(c, w, Next(c, w, s, a[0]), a[1..], b);
    }
  }

  predicate NoGrowth(events: seq<Event>) {
    forall e :: e in events ==> !e.Grow?
  }

  function LeftInBlock(chain: seq<BlockPB>, p: Progress): int {
    if p.height < |chain| then |chain[p.height].transactions| - p.index else 0
  }

  /** A running sync whose saves succeed can be led to the end of the chain. */
  lemma {:induction false} ScanToTheEnd(c: Crypto, w: Wallet, s: Device) returns (events: seq<Event>)
    requires InOrder(s.chain) && s.open && s.sync.Some? && !s.sync.value.failed && s.sync.value.height <= |s.chain|
    requires s.sync.value.height == |s.chain| ==> s.sync.value.index == 0
    ensures forall e :: e in events ==> e == SyncStep(Written)
    ensures var s' := Run(c, w, s, events);
      s'.open && s'.chain == s.chain && s'.sync.Some? && !s'.sync.value.failed && s'.sync.value.height == |s.chain| && s'.sync.value.index == 0
    decreases |s.chain| - s.sync.value.height, LeftInBlock(s.chain, s.sync.value)
  {
    if s.sync.value.height == |s.chain| {
      events := [];
    } else {
      hide HasMessage, HistoryAppended, Visit;
      var s1 := Next(c, w, s, SyncStep(Written));
      var rest := ScanToTheEnd(c, w, s1);
      events := [SyncStep(Written)] + rest;
      assert events[1..] == rest;
    }
  }
}
