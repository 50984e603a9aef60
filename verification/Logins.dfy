/**
 One device, one identity after another (app/fyne/cmd/app/main.go): a logout clears the chats, tries to
 delete the file and ends the session; the next login opens whatever file is left.
 */
module Logins {
  import opened Base
  import opened Blocks
  import opened Wire
  import opened Histories
  import opened ChatStores
  import opened HeldTexts
  import opened SyncRuns
  import opened NoLosses

  /** Logging out and in again; `deleted` says whether the file could be deleted. */
  function Relogin(c: Crypto, w: Wallet, s: Device, deleted: bool): Device {
    Next(c, w, Next(c, w, Next(c, w, s, Wipe(deleted)), SyncAbort), Restart(true))
  }

  /** The time of one identity, up to its logout. */
  datatype Session = Session(wallet: Wallet, events: seq<Event>, deleted: bool)

  function After(c: Crypto, s: Device, x: Session): Device {
    Relogin(c, x.wallet, Run(c, x.wallet, s, x.events), x.deleted)
  }

  function Sessions(c: Crypto, s: Device, sessions: seq<Session>): Device
    decreases |sessions|
  {
    if sessions == [] then s else Sessions(c, After(c, s, sessions[0]), sessions[1..])
  }

  /** The file that survived names none of these messages for wallet `w`. */
  ghost predicate HoldsNothingFor(c: Crypto, w: Wallet, items: seq<Item>, d: Chats) {
    forall it: Item :: it in items && Opens(w, it.tx) ==> !HasMessage(d, it.tx.fromAddress, TxHashFromPb(c, it.tx))
  }

  /** No message for `w` lies below the checkpoint. */
  ghost predicate NothingBelow(w: Wallet, chain: seq<BlockPB>, h: nat) {
    h <= |chain| && forall it: Item :: it in Items(chain[..h]) ==> !Opens(w, it.tx)
  }

  lemma NothingHeldNothingBelow(c: Crypto, w: Wallet, chain: seq<BlockPB>, d: Chats)
    requires d.syncedHeight <= |chain| && HoldsNothingFor(c, w, Items(chain[..d.syncedHeight]), d)
    ensures NoHashMissing(c, w, chain, d) <==> NothingBelow(w, chain, d.syncedHeight)
  {
    hide HasMessage, Opens, TxHashFromPb, Items;
    var items := Items(chain[..d.syncedHeight]);
    if NoHashMissing(c, w, chain, d) {
      forall it: Item | it in items ensures !Opens(w, it.tx) {
        var i :| 0 <= i < |items| && items[i] == it;
      }
    }
  }

  lemma NamesNothingFalse(c: Crypto, w: Wallet, items: seq<Item>, d: Chats)
    requires DigestsHave32Bytes(c) && HoldsNothingFor(c, w, items, d)
    ensures TextsTrue(c, w, items, d)
  {
    hide Opens, TxHashFromPb, DecryptIncoming, DigestsHave32Bytes;
    forall a, i, it: Item | 0 <= i < |MessagesOf(d, a)| && it in items && Opens(w, it.tx) && it.tx.fromAddress == a
      && TxHashFromPb(c, it.tx) == MessagesOf(d, a)[i].txHash
      ensures false
    {
      HashNotEmpty(c, it.tx);
    }
  }

  /** A logout from the main screen, where there is a store. */
  lemma ReloginState(c: Crypto, w: Wallet, s: Device, deleted: bool)
    requires s.open
    ensures Relogin(c, w, s, deleted)
      == if deleted then Device(s.chain, NO_CHATS, Absent, None, true)
         else Device(s.chain, if s.disk.Snapshot? then s.disk.data else NO_CHATS, s.disk, None, !s.disk.Corrupt?)
  {
  }

  /**
   The next identity `w'` starts safe exactly if the file was deleted, held no snapshot, or its checkpoint lies
   below every message for `w'`: the surviving checkpoint of the last identity is taken for the new one's own.
   If the file names no message for `w'` at all, that is exactly when it starts sound, and so loses nothing later.
   */
  lemma ReloginIsSafeExactly(c: Crypto, w: Wallet, w': Wallet, s: Device, all: seq<BlockPB>, deleted: bool)
    requires DigestsHave32Bytes(c) && Safe(c, w, s) && s.open && s.chain <= all
    requires s.disk.Snapshot? ==> HoldsNothingFor(c, w', Items(s.chain[..s.disk.data.syncedHeight]), s.disk.data)
    ensures var starts := deleted || !s.disk.Snapshot? || NothingBelow(w', s.chain, s.disk.data.syncedHeight);
      var s' := Relogin(c, w, s, deleted);
      && (Safe(c, w', s') <==> starts)
      && ((s.disk.Snapshot? ==> HoldsNothingFor(c, w', Items(all), s.disk.data)) ==> (Sound(c, w', all, s') <==> starts))
  {
    ReloginState(c, w, s, deleted);
    BlankIsSafe(c, w', s.chain);
    BlankTexts(c, w', Items(all));
    if s.disk.Snapshot? {
      NothingHeldNothingBelow(c, w', s.chain, s.disk.data);
      if HoldsNothingFor(c, w', Items(all), s.disk.data) {
        NamesNothingFalse(c, w', Items(all), s.disk.data);
      }
    }
    hide NoHashMissing, InOrder, HoldsNothingFor, NothingBelow, Relogin, TextsTrue, Items;
  }

  /** Each session keeps the guard and ends with a logout, from an open store, that deletes the file. */
  ghost predicate Clean(c: Crypto, s: Device, sessions: seq<Session>)
    decreases |sessions|
  {
    sessions == [] ||
    (var x := sessions[0];
     x.deleted && Guarded(c, x.wallet, s, x.events) && Run(c, x.wallet, s, x.events).open && Clean(c, After(c, s, x), sessions[1..]))
  }

  /** Over any such succession of identities, the one that follows starts sound, whoever it is. */
  lemma {:induction false} CleanLogoutsAreSafe(c: Crypto, w: Wallet, s: Device, sessions: seq<Session>, all: seq<BlockPB>)
    requires DigestsHave32Bytes(c) && Clean(c, s, sessions) && |sessions| > 0 && Safe(c, sessions[0].wallet, s)
    requires Sessions(c, s, sessions).chain <= all
    ensures Sound(c, w, all, Sessions(c, s, sessions))
    decreases |sessions|
  {
    var x, rest := sessions[0], sessions[1..];
    var s1 := Run(c, x.wallet, s, x.events);
    NoHashLost(c, x.wallet, s, x.events);
    ReloginState(c, x.wallet, s1, true);
    if rest != [] {
      InstalledIsSafe(c, rest[0].wallet, s1.chain);
      hide Safe, Run, Guarded, Relogin, Sound;
      CleanLogoutsAreSafe(c, w, After(c, s, x), rest, all);
    } else {
      InstalledIsSound(c, w, s1.chain, all);
    }
  }
}
