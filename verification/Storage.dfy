/**
 The node's store (internal/storage): one byte-keyed key-value space that behaves like three
 independent maps.
 */
module Storage {
  import opened Base
  import opened Blocks
  import opened Ledgers

  /** A stored value: the JSON of a block, or raw bytes. */
  datatype Blob = Json(block: Block) | Raw(bytes: Bytes)

  type KV = map<Bytes, Blob>

  const PREFIX_BLOCK: Bytes := [98, 108, 107, 58]  // "blk:"
  const PREFIX_NONCE: Bytes := [110, 110, 99, 58]  // "nnc:"
  const KEY_HEAD: Bytes := [104, 101, 97, 100]     // "head"

  function BlockKey(height: u64): Bytes {
    PREFIX_BLOCK + BigEndian(height, 8)
  }

  function NonceKey(address: Bytes): Bytes {
    PREFIX_NONCE + address
  }

  lemma BlockKeyInjective(g: u64, h: u64)
    requires BlockKey(g) == BlockKey(h)
    ensures g == h
  {
    PrefixCancels(PREFIX_BLOCK, PREFIX_BLOCK, BigEndian(g, 8), BigEndian(h, 8));
    Be64RoundTrip(g);
    Be64RoundTrip(h);
  }

  lemma NonceKeyInjective(a: Bytes, b: Bytes)
    requires NonceKey(a) == NonceKey(b)
    ensures a == b
  {
    PrefixCancels(PREFIX_NONCE, PREFIX_NONCE, a, b);
  }

  /** No key of one family is a key of another, whatever the address. */
  lemma KeyFamiliesDisjoint(h: u64, a: Bytes)
    ensures BlockKey(h) != NonceKey(a) && BlockKey(h) != KEY_HEAD && NonceKey(a) != KEY_HEAD
  {
    assert BlockKey(h)[0] == 98 && NonceKey(a)[0] == 110 && KEY_HEAD[0] == 104;
  }

  // ---------------------------------------------------------------- reads and writes of the key space

  function ReadBlock(db: KV, h: u64): Option<Block> {
    if BlockKey(h) in db && db[BlockKey(h)].Json? then Some(db[BlockKey(h)].block) else None
  }

  function ReadHead(db: KV): nat {
    if KEY_HEAD in db && db[KEY_HEAD].Raw? then FromBigEndian(db[KEY_HEAD].bytes) else 0
  }

  function ReadNonce(db: KV, a: Bytes): nat {
    if NonceKey(a) in db && db[NonceKey(a)].Raw? then FromBigEndian(db[NonceKey(a)].bytes) else 0
  }

  function WriteTo(db: KV, w: Write): KV {
    match w
    case SetNonce(a, n) => db[NonceKey(a) := Raw(BigEndian(n, 8))]
    case PutBlock(b) =>
      var db1 := db[BlockKey(b.height) := Json(b)];
      if b.height >= ReadHead(db1) then db1[KEY_HEAD := Raw(BigEndian(b.height, 8))] else db1
  }

  function WriteAll(db: KV, ws: seq<Write>): KV
    decreases |ws|
  {
    if ws == [] then db else WriteAll(WriteTo(db, ws[0]), ws[1..])
  }

  /** The key space holds exactly the three maps. */
  ghost predicate Represents(db: KV, L: Ledger) {
    && (forall h: u64 :: ReadBlock(db, h) == if h in L.blocks then Some(L.blocks[h]) else None)
    && (forall a :: ReadNonce(db, a) == LastNonce(L, a))
    && ReadHead(db) == Head(L)
  }

  lemma WriteNonceRefines(db: KV, L: Ledger, a: Bytes, n: u64)
    requires Represents(db, L)
    ensures Represents(WriteTo(db, SetNonce(a, n)), Apply(L, SetNonce(a, n)))
  {
    var db', L' := WriteTo(db, SetNonce(a, n)), Apply(L, SetNonce(a, n));
    forall h: u64 ensures ReadBlock(db', h) == if h in L'.blocks then Some(L'.blocks[h]) else None {
      KeyFamiliesDisjoint(h, a);
      assert ReadBlock(db', h) == ReadBlock(db, h);
    }
    forall b ensures ReadNonce(db', b) == LastNonce(L', b) {
      if b == a {
        Be64RoundTrip(n);
      } else {
        if NonceKey(b) == NonceKey(a) {
          NonceKeyInjective(a, b);
        }
        assert ReadNonce(db', b) == ReadNonce(db, b);
      }
    }
    KeyFamiliesDisjoint(0, a);
  }

  lemma WriteBlockRefines(db: KV, L: Ledger, b: Block)
    requires Represents(db, L)
    ensures Represents(WriteTo(db, PutBlock(b)), Apply(L, PutBlock(b)))
  {
    var db1 := db[BlockKey(b.height) := Json(b)];
    KeyFamiliesDisjoint(b.height, []);
    assert ReadHead(db1) == ReadHead(db);
    var db', L' := WriteTo(db, PutBlock(b)), Apply(L, PutBlock(b));
    forall h: u64 ensures ReadBlock(db', h) == if h in L'.blocks then Some(L'.blocks[h]) else None {
      KeyFamiliesDisjoint(h, []);
      if h != b.height {
        if BlockKey(h) == BlockKey(b.height) {
          BlockKeyInjective(h, b.height);
        }
        assert ReadBlock(db', h) == ReadBlock(db, h);
      }
    }
    forall a ensures ReadNonce(db', a) == LastNonce(L', a) {
      KeyFamiliesDisjoint(b.height, a);
      assert ReadNonce(db', a) == ReadNonce(db, a);
    }
    Be64RoundTrip(b.height);
  }

  lemma WriteRefines(db: KV, L: Ledger, w: Write)
    requires Represents(db, L)
    ensures Represents(WriteTo(db, w), Apply(L, w))
  {
    match w
    case SetNonce(a, n) => WriteNonceRefines(db, L, a, n);
    case PutBlock(b) => WriteBlockRefines(db, L, b);
  }

  /** After any sequence of writes, every read of the key space gives the three maps' answer. */
  lemma {:induction false} KeySpaceRefinesMaps(db: KV, L: Ledger, ws: seq<Write>)
    requires Represents(db, L)
    ensures Represents(WriteAll(db, ws), ApplyAll(L, ws))
    decreases |ws|
  {
    if ws != [] {
      WriteRefines(db, L, ws[0]);
      KeySpaceRefinesMaps(WriteTo(db, ws[0]), Apply(L, ws[0]), ws[1..]);
    }
  }

  lemma EmptySpace()
    ensures Represents(map[], FRESH)
  {
  }

  // ---------------------------------------------------------------- the store object

  /** storage.Store. A call may fail (`ok` false) unless the store is reliable, and then it has changed nothing. */
  class Store {
    const reliable: bool
    var db: KV
    ghost var ledger: Ledger

    ghost predicate Valid()
      reads this
    {
      Represents(db, ledger)
    }

    constructor (reliable: bool)
      ensures Valid() && ledger == FRESH && this.reliable == reliable
    {
      EmptySpace();
      this.reliable := reliable;
      db, ledger := map[], FRESH;
    }

    /** Whether the next call succeeds. */
    method Answers() returns (ok: bool)
      ensures reliable ==> ok
    {
      ok := *;
      ok := ok || reliable;
    }

    method PutBlock(b: Block) returns (ok: bool)
      requires Valid()
      modifies this
      ensures reliable ==> ok
      ensures Valid() && ledger == if ok then Apply(old(ledger), Write.PutBlock(b)) else old(ledger)
    {
      ok := Answers();
      if !ok {
        return;
      }
      ghost var before := db;
      var txn := db[BlockKey(b.height) := Json(b)];
      var curHead := 0;
      if KEY_HEAD in txn && txn[KEY_HEAD].Raw? {
        curHead := FromBigEndian(txn[KEY_HEAD].bytes);
      }
      if b.height >= curHead {
        txn := txn[KEY_HEAD := Raw(BigEndian(b.height, 8))];
      }
      WriteBlockRefines(before, ledger, b);
      db, ledger := txn, Apply(ledger, Write.PutBlock(b));
    }

    method GetBlock(height: u64) returns (ok: bool, r: Option<Block>)
      requires Valid()
      ensures reliable ==> ok
      ensures ok ==> r == if height in ledger.blocks then Some(ledger.blocks[height]) else None
      ensures !ok ==> r == None
    {
      ok := Answers();
      r := None;
      if !ok {
        return;
      }
      if BlockKey(height) in db && db[BlockKey(height)].Json? {
        r := Some(db[BlockKey(height)].block);
      }
      assert r == ReadBlock(db, height);
    }

    method Head() returns (ok: bool, height: nat)
      requires Valid()
      ensures reliable ==> ok
      ensures ok ==> height == Ledgers.Head(ledger)
    {
      ok := Answers();
      height := 0;
      if KEY_HEAD in db && db[KEY_HEAD].Raw? {
        height := FromBigEndian(db[KEY_HEAD].bytes);
      }
    }

    method LastNonce(address: Bytes) returns (ok: bool, nonce: nat)
      requires Valid()
      ensures reliable ==> ok
      ensures ok ==> nonce == Ledgers.LastNonce(ledger, address)
    {
      ok := Answers();
      nonce := 0;
      if NonceKey(address) in db && db[NonceKey(address)].Raw? {
        nonce := FromBigEndian(db[NonceKey(address)].bytes);
      }
      assert nonce == ReadNonce(db, address);
    }

    method SetLastNonce(address: Bytes, nonce: u64) returns (ok: bool)
      requires Valid()
      modifies this
      ensures reliable ==> ok
      ensures Valid() && ledger == if ok then Apply(old(ledger), SetNonce(address, nonce)) else old(ledger)
    {
      ok := Answers();
      if ok {
        WriteNonceRefines(db, ledger, address, nonce);
        db := db[NonceKey(address) := Raw(BigEndian(nonce, 8))];
        ledger := Apply(ledger, SetNonce(address, nonce));
      }
    }
  }
}
