/**
 Bytes, the machine integers of the Go code, and their big-endian encodings.

 A Go string is a sequence of bytes, so `Bytes` models both `string` and `[]byte`.
 */
module Base {

  newtype byte = x: int | 0 <= x < 256

  type Bytes = seq<byte>

  type u32 = x: int | 0 <= x < 0x1_0000_0000
  type u64 = x: int | 0 <= x < 0x1_0000_0000_0000_0000
  type i64 = x: int | -0x8000_0000_0000_0000 <= x < 0x8000_0000_0000_0000

  const MAX_U32: u32 := 0xFFFF_FFFF
  const MAX_U64: u64 := 0xFFFF_FFFF_FFFF_FFFF

  /** Go's `[12]byte` and `[32]byte`. */
  type Bytes12 = b: Bytes | |b| == 12 witness seq(12, _ => 0)
  type Bytes32 = b: Bytes | |b| == 32 witness seq(32, _ => 0)

  datatype Option<+T> = None | Some(value: T)

  /** Go's conversion `uint64(t)`: two's complement. */
  function U64OfI64(t: i64): (u: u64)
    ensures u == t || u == t + 0x1_0000_0000_0000_0000
  {
    if t < 0 then t + 0x1_0000_0000_0000_0000 else t
  }

  function Pow256(k: nat): (p: nat)
    ensures p > 0
  {
    if k == 0 then 1 else 256 * Pow256(k - 1)
  }

  /** The last `k` base-256 digits of `v`, most significant first. */
  function BigEndian(v: nat, k: nat): (b: Bytes)
    ensures |b| == k
  {
    if k == 0 then [] else BigEndian(v / 256, k - 1) + [(v % 256) as byte]
  }

  function FromBigEndian(b: Bytes): nat {
    if b == [] then 0 else 256 * FromBigEndian(b[..|b| - 1]) + b[|b| - 1] as nat
  }

  lemma {:induction false} BigEndianRoundTrip(v: nat, k: nat)
    requires v < Pow256(k)
    ensures FromBigEndian(BigEndian(v, k)) == v
  {
    if k > 0 {
      BigEndianRoundTrip(v / 256, k - 1);
      var b := BigEndian(v, k);
      assert b[..|b| - 1] == BigEndian(v / 256, k - 1);
    }
  }

  lemma PowersOf256()
    ensures Pow256(4) == 0x1_0000_0000
    ensures Pow256(8) == 0x1_0000_0000_0000_0000
  {
    assert Pow256(2) == 256 * 256;
    assert Pow256(4) == 256 * 256 * Pow256(2);
    assert Pow256(6) == 256 * 256 * Pow256(4);
    assert Pow256(8) == 256 * 256 * Pow256(6);
  }

  /** The 8-byte form decodes to the number it was made from. */
  lemma Be64RoundTrip(v: u64)
    ensures FromBigEndian(BigEndian(v, 8)) == v
  {
    PowersOf256();
    BigEndianRoundTrip(v, 8);
  }

  lemma Be32RoundTrip(v: u32)
    ensures FromBigEndian(BigEndian(v, 4)) == v
  {
    PowersOf256();
    BigEndianRoundTrip(v, 4);
  }

  /** The shifting loop of appendU64 and appendU32: fill from the last byte, then shift right by 8. */
  method AppendBigEndian(b: Bytes, v: nat, width: nat) returns (r: Bytes)
    ensures r == b + BigEndian(v, width)
  {
    var t := new byte[width];
    var w, i := v, width;
    while i > 0
      invariant 0 <= i <= width
      invariant BigEndian(v, width) == BigEndian(w, i) + t[i..]
    {
      i := i - 1;
      t[i] := (w % 256) as byte;
      assert BigEndian(w, i + 1) + t[i + 1..] == BigEndian(w / 256, i) + ([t[i]] + t[i + 1..]);
      assert t[i..] == [t[i]] + t[i + 1..];
      w := w / 256;
    }
    r := b + t[..];
  }

  /** `p` starts `s`. */
  predicate HasPrefix(s: Bytes, p: Bytes) {
    |p| <= |s| && s[..|p|] == p
  }

  lemma PrefixCancels(p: Bytes, q: Bytes, a: Bytes, b: Bytes)
    requires |p| == |q| && p + a == q + b
    ensures p == q && a == b
  {
    assert (p + a)[..|p|] == p && (q + b)[..|q|] == q;
    assert (p + a)[|p|..] == a && (q + b)[|q|..] == b;
  }

  /** A set no bigger than the list its members come from. */
  lemma {:induction false} ListBoundsSet<T>(s: set<T>, list: seq<T>)
    requires forall x :: x in s ==> x in list
    ensures |s| <= |list|
  {
    if list == [] {
      assert s == {};
    } else {
      var rest := s - {list[0]};
      forall x | x in rest ensures x in list[1..] {
        assert x in list;
      }
      ListBoundsSet(rest, list[1..]);
      assert s <= rest + {list[0]};
      SubsetSize(s, rest + {list[0]});
    }
  }

  lemma {:induction false} SubsetSize<T>(a: set<T>, b: set<T>)
    requires a <= b
    ensures |a| <= |b|
  {
    if a != {} {
      var x :| x in a;
      SubsetSize(a - {x}, b - {x});
    }
  }

  /** |a| + |b| is what their union and their intersection share out. */
  lemma UnionAndIntersection<T>(a: set<T>, b: set<T>)
    ensures |a + b| + |a * b| == |a| + |b|
  {
    assert a + b == (a - b) + b;
    assert a == (a - b) + a * b;
  }
}
