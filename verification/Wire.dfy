/**
 The gateway's wire forms (internal/grpcserver/convert.go, GetBlocks in server.go, txHashFromPB in
 pkg/client/tx.go).
 */
module Wire {
  import opened Base
  import opened Blocks
  import opened Ledgers
  import opened Storage
  import opened Chains

  /** A transaction on the wire: the two fixed-size fields are byte strings of any length. */
  datatype SmsRequest = SmsRequest(
    fromAddress: Bytes,
    toAddress: Bytes,
    ciphertext: Bytes,
    nonceAead: Bytes,
    ephemeralPubkey: Bytes,
    nonce: u64,
    timestamp: i64,
    signature: Bytes)

  datatype BlockPB = BlockPB(
    height: u64,
    prevHash: Bytes,
    timestamp: i64,
    proposer: Bytes,
    transactions: seq<SmsRequest>,
    merkleRoot: Bytes,
    commitSigs: seq<ValidatorSig>)

  function PbFromTx(t: Transaction): SmsRequest {
    SmsRequest(t.from, t.to, t.ciphertext, t.nonceAead, t.ephemeral, t.nonce, t.timestamp, t.signature)
  }

  function TxFromPb(m: SmsRequest): Option<Transaction> {
    if |m.nonceAead| != 12 || |m.ephemeralPubkey| != 32 then None
    else Some(Transaction(m.fromAddress, m.toAddress, m.ciphertext, m.nonceAead, m.ephemeralPubkey, m.nonce, m.timestamp, m.signature))
  }

  function BlockToPb(b: Block): BlockPB {
    BlockPB(b.height, b.prevHash, b.timestamp, b.proposer,
            seq(|b.transactions|, i requires 0 <= i < |b.transactions| => PbFromTx(b.transactions[i])),
            b.merkleRoot, b.commitSigs)
  }

  /** Every transaction has its two fixed sizes. */
  predicate Decodable(p: BlockPB) {
    forall i :: 0 <= i < |p.transactions| ==> TxFromPb(p.transactions[i]).Some?
  }

  /** BlockFromPB, filling its slices by index. */
  method BlockFromPb(p: BlockPB) returns (r: Option<Block>)
    ensures r.Some? <==> Decodable(p)
    ensures r.Some? ==> BlockToPb(r.value) == p
  {
    var txs: seq<Transaction> := [];
    for i := 0 to |p.transactions|
      invariant |txs| == i
      invariant forall k :: 0 <= k < i ==> TxFromPb(p.transactions[k]) == Some(txs[k])
    {
      var tx := TxFromPb(p.transactions[i]);
      if tx.None? {
        return None;
      }
      txs := txs + [tx.value];
    }
    r := Some(Block(p.height, p.prevHash, p.timestamp, p.proposer, txs, p.merkleRoot, p.commitSigs));
    assert BlockToPb(r.value).transactions == p.transactions;
  }

  /** A block survives the wire: its form decodes, and only to the block itself. */
  lemma WireRoundTrip(b: Block, b': Block)
    ensures Decodable(BlockToPb(b))
    ensures BlockToPb(b) == BlockToPb(b') ==> b == b'
  {
    if BlockToPb(b) == BlockToPb(b') {
      forall i | 0 <= i < |b.transactions| ensures |b'.transactions| == |b.transactions| && b.transactions[i] == b'.transactions[i] {
        assert BlockToPb(b).transactions[i] == PbFromTx(b.transactions[i]);
        assert BlockToPb(b').transactions[i] == PbFromTx(b'.transactions[i]);
      }
      assert |BlockToPb(b).transactions| == |b.transactions| && |BlockToPb(b').transactions| == |b'.transactions|;
    }
  }

  /** Go's copy into a fixed-size array: cut or padded with zeros. */
  function CopyInto(b: Bytes, n: nat): (r: Bytes)
    ensures |r| == n
  {
    if |b| >= n then b[..n] else b + seq(n - |b|, _ => 0)
  }

  /** The transaction that txHashFromPB rebuilds to hash it. */
  function Rebuilt(m: SmsRequest): Transaction {
    Transaction(m.fromAddress, m.toAddress, m.ciphertext, CopyInto(m.nonceAead, 12), CopyInto(m.ephemeralPubkey, 32),
                m.nonce, m.timestamp, m.signature)
  }

  /** txHashFromPB. */
  function TxHashFromPb(c: Crypto, m: SmsRequest): Bytes {
    TxHash(c, Rebuilt(m))
  }

  /** The client computes the node's own transaction hash. */
  lemma ClientHashIsNodeHash(c: Crypto, t: Transaction, m: SmsRequest)
    ensures TxHashFromPb(c, PbFromTx(t)) == TxHash(c, t)
    ensures TxFromPb(m).Some? ==> TxHashFromPb(c, m) == TxHash(c, TxFromPb(m).value)
  {
    assert t.nonceAead[..12] == t.nonceAead && t.ephemeral[..32] == t.ephemeral;
    if TxFromPb(m).Some? {
      assert m.nonceAead[..12] == m.nonceAead && m.ephemeralPubkey[..32] == m.ephemeralPubkey;
    }
  }

  // ---------------------------------------------------------------- GetBlocks

  const MAX_GET_BLOCKS_BATCH := 500

  function BatchLimit(maxBlocks: u32): (n: nat)
    ensures 0 < n <= MAX_GET_BLOCKS_BATCH
  {
    if maxBlocks == 0 || maxBlocks > MAX_GET_BLOCKS_BATCH then MAX_GET_BLOCKS_BATCH else maxBlocks
  }

  /** The blocks present at h, h + 1, ..., at most `limit` of them. */
  function Contiguous(blocks: map<u64, Block>, h: u64, limit: nat): seq<Block>
    decreases limit
  {
    if limit == 0 || h !in blocks then [] else [blocks[h]] + Contiguous(blocks, NextHeight(h), limit - 1)
  }

  function ToWire(bs: seq<Block>): (r: seq<BlockPB>)
    ensures |r| == |bs|
  {
    seq(|bs|, i requires 0 <= i < |bs| => BlockToPb(bs[i]))
  }

  /** The reply of a gateway that holds `blocks`. */
  function Served(blocks: map<u64, Block>, fromHeight: u64, maxBlocks: u32): seq<BlockPB> {
    ToWire(Contiguous(blocks, fromHeight, BatchLimit(maxBlocks)))
  }

  lemma WireOneMore(bs: seq<Block>, b: Option<Block>)
    ensures bs == [] ==> ToWire(bs) == []
    ensures b.Some? ==> ToWire(bs + [b.value]) == ToWire(bs) + [BlockToPb(b.value)]
  {
  }

  lemma NextOfRange(blocks: map<u64, Block>, h: u64, limit: nat)
    ensures limit == 0 || h !in blocks ==> Contiguous(blocks, h, limit) == []
    ensures limit > 0 && h in blocks ==> Contiguous(blocks, h, limit) == [blocks[h]] + Contiguous(blocks, NextHeight(h), limit - 1)
  {
  }

  /** GetBlocks: a loop over heights with an early stop at the first gap. */
  method GetBlocks(chain: Chain, fromHeight: u64, maxBlocks: u32) returns (ok: bool, r: seq<BlockPB>)
    requires chain.Valid()
    ensures chain.store.reliable ==> ok
    ensures ok ==> r == Served(chain.store.ledger.blocks, fromHeight, maxBlocks)
  {
    var limit := BatchLimit(maxBlocks);
    hide Represents, BlockToPb, ToWire, Contiguous;
    WireOneMore([], None);
    r := [];
    ghost var bs: seq<Block> := [];
    var h := fromHeight;
    ghost var all := Contiguous(chain.store.ledger.blocks, fromHeight, limit);
    while |r| < limit
      invariant |r| == |bs| <= limit && r == ToWire(bs)
      invariant all == bs + Contiguous(chain.store.ledger.blocks, h, limit - |bs|)
      decreases limit - |r|
    {
      var ok1, b := chain.store.GetBlock(h);
      if !ok1 {
        return false, [];
      }
      NextOfRange(chain.store.ledger.blocks, h, limit - |bs|);
      if b.None? {
        break;
      }
      WireOneMore(bs, b);
      bs, r := bs + [b.value], r + [BlockToPb(b.value)];
      h := NextHeight(h);
    }
    NextOfRange(chain.store.ledger.blocks, h, limit - |bs|);
    assert all == bs + [] == bs;
    return true, r;
  }

  /** On a gap-free chain: exactly the blocks from `h` on, as many as the limit allows. */
  lemma {:induction false} ContiguousIsRange(L: Ledger, tip: u64, h: u64, limit: nat)
    requires GapFree(L, tip) && tip < MAX_U64
    ensures var bs := Contiguous(L.blocks, h, limit);
      && |bs| == (if h > tip then 0 else if tip - h + 1 <= limit then tip - h + 1 else limit)
      && forall k: nat :: k < |bs| ==> h + k <= tip && bs[k] == L.blocks[h + k]
    decreases limit
  {
    if limit > 0 && h <= tip {
      ContiguousIsRange(L, tip, NextHeight(h), limit - 1);
    }
  }

  /** What a gateway with a gap-free chain answers: from `h` on, as many as asked, never over 500; asked for none, up to 500. */
  lemma ReplyExactly(L: Ledger, tip: u64, h: u64, maxBlocks: u32)
    requires GapFree(L, tip) && tip < MAX_U64
    ensures var reply := Served(L.blocks, h, maxBlocks);
      && (forall k: nat :: k < |reply| ==> h + k <= tip && reply[k] == BlockToPb(L.blocks[h + k]))
      && |reply| <= 500 && (maxBlocks > 0 ==> |reply| <= maxBlocks)
      && (|reply| < 500 && (maxBlocks == 0 || |reply| < maxBlocks) ==> h + |reply| > tip)
  {
    hide Contiguous, BlockToPb, GapFree;
    GapFreeHolds(L, tip);
    ContiguousIsRange(L, tip, h, BatchLimit(maxBlocks));
  }

  lemma GapFreeHolds(L: Ledger, tip: u64)
    requires GapFree(L, tip)
    ensures forall k: u64 :: k <= tip ==> k in L.blocks
  {
  }

  /** A field of another size than the chain's is cut, or filled up with zeros. */
  lemma CopyIntoExactly(b: Bytes, n: nat)
    ensures forall i :: 0 <= i < n ==> CopyInto(b, n)[i] == if i < |b| then b[i] else 0
  {
  }
}
