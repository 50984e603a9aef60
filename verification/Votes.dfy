/**
 Votes and the keys under which an engine files them (consensus/types.go, consensus/pbft.go).
 */
module Votes {
  import opened Base
  import opened Text
  import opened Blocks

  datatype VoteType = Prevote | Precommit

  datatype Vote = Vote(kind: VoteType, height: u64, round: u32, blockHash: Bytes, voter: Bytes, signature: Bytes)

  function VoteTypeByte(k: VoteType): byte {
    match k
    case Prevote => 1
    case Precommit => 2
  }

  /** Vote.SigningBytes. */
  function SigningBytes(kind: VoteType, height: u64, round: u32, hash: Bytes): Bytes {
    [VoteTypeByte(kind)] + BigEndian(height, 8) + BigEndian(round, 4) + hash
  }

  predicate VoteVerify(c: Crypto, v: Vote) {
    SignedBy(c, v.voter, SigningBytes(v.kind, v.height, v.round, v.blockHash), v.signature)
  }

  /** Vote.SigningBytes as the code builds it, one append at a time. */
  method BuildSigningBytes(v: Vote) returns (buf: Bytes)
    ensures buf == SigningBytes(v.kind, v.height, v.round, v.blockHash)
  {
    buf := [VoteTypeByte(v.kind)];
    buf := AppendBigEndian(buf, v.height, 8);
    buf := AppendBigEndian(buf, v.round, 4);
    buf := buf + v.blockHash;
  }

  /** Nothing a voter signs can be read as a different vote. */
  lemma SigningBytesInjective(k: VoteType, h: u64, r: u32, x: Bytes, k': VoteType, h': u64, r': u32, x': Bytes)
    requires SigningBytes(k, h, r, x) == SigningBytes(k', h', r', x')
    ensures k == k' && h == h' && r == r' && x == x'
  {
    var a, a' := BigEndian(h, 8), BigEndian(h', 8);
    var b, b' := BigEndian(r, 4), BigEndian(r', 4);
    assert SigningBytes(k, h, r, x) == [VoteTypeByte(k)] + (a + (b + x));
    assert SigningBytes(k', h', r', x') == [VoteTypeByte(k')] + (a' + (b' + x'));
    PrefixCancels([VoteTypeByte(k)], [VoteTypeByte(k')], a + (b + x), a' + (b' + x'));
    PrefixCancels(a, a', b + x, b' + x');
    PrefixCancels(b, b', x, x');
    Be64RoundTrip(h);
    Be64RoundTrip(h');
    Be32RoundTrip(r);
    Be32RoundTrip(r');
  }

  /**
   The two separately written precommit encodings agree, so a stored vote is a valid certificate
   entry for exactly the block it names.
   */
  lemma PrecommitIsCommitSig(c: Crypto, b: Block, v: Vote)
    requires v.kind == Precommit && v.height == b.height && v.blockHash == BlockHash(c, b)
    ensures VoteVerify(c, v) <==> ValidCommitSig(c, b, ValidatorSig(v.voter, v.round, v.signature))
  {
  }

  // ---------------------------------------------------------------- round keys

  const SLASH: byte := 47

  /** "height/round", in decimal. */
  function RoundKey(height: u64, round: u32): Bytes {
    Decimal(height) + [SLASH] + Decimal(round)
  }

  /** The prefix gc compares with: "height/". */
  function HeightPrefix(height: u64): Bytes {
    Decimal(height) + [SLASH]
  }

  lemma RoundKeyInjective(h: u64, r: u32, h': u64, r': u32)
    requires RoundKey(h, r) == RoundKey(h', r')
    ensures h == h' && r == r'
  {
    CutIsUnique(SLASH, Decimal(h), Decimal(r), Decimal(h'), Decimal(r'));
    DecimalInjective(h, h');
    DecimalInjective(r, r');
  }

  /** gc's prefix test picks out exactly the keys of its height: "1/" is no prefix of "11/0". */
  lemma PrefixSelectsHeight(h: u64, h': u64, r': u32)
    ensures HasPrefix(RoundKey(h', r'), HeightPrefix(h)) <==> h == h'
  {
    var key, p := RoundKey(h', r'), HeightPrefix(h);
    if HasPrefix(key, p) {
      assert key == Decimal(h) + [SLASH] + key[|p|..];
      CutIsUnique(SLASH, Decimal(h), key[|p|..], Decimal(h'), Decimal(r'));
      DecimalInjective(h, h');
    }
    if h == h' {
      assert key[..|p|] == p;
    }
  }

  // ---------------------------------------------------------------- proposals

  datatype Proposal = Proposal(block: Block, round: u32, proposerSig: Bytes)

  function ProposalBytes(p: Proposal): Bytes {
    HeaderBytes(p.block) + BigEndian(p.round, 4)
  }

  /**
   One key signs both proposals and votes. Below height 2^56 a proposal starts with a zero byte
   and a vote never does.
   */
  lemma ProposalIsNoVote(p: Proposal, k: VoteType, h: u64, r: u32, x: Bytes)
    requires p.block.height < 0x100_0000_0000_0000
    ensures ProposalBytes(p) != SigningBytes(k, h, r, x)
  {
    FirstByteIsZero(p.block.height);
    assert ProposalBytes(p)[0] == BigEndian(p.block.height, 8)[0];
    assert SigningBytes(k, h, r, x)[0] == VoteTypeByte(k);
  }

  lemma FirstByteIsZero(v: u64)
    requires v < 0x100_0000_0000_0000
    ensures BigEndian(v, 8)[0] == 0
  {
    var a := v / 256;
    var b := a / 256;
    var d := b / 256;
    var e := d / 256;
    var f := e / 256;
    var g := f / 256;
    var h := g / 256;
    assert h == 0;
    assert BigEndian(h, 1) == [0];
    assert BigEndian(g, 2)[0] == 0;
    assert BigEndian(f, 3)[0] == 0;
    assert BigEndian(e, 4)[0] == 0;
    assert BigEndian(d, 5)[0] == 0;
    assert BigEndian(b, 6)[0] == 0;
    assert BigEndian(a, 7)[0] == 0;
  }
}
