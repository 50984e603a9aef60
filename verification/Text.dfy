/**
 The text encodings the node relies on: lower-case hexadecimal, decimal numbers, and the order in
 which Go compares strings.
 */
module Text {
  import opened Base

  // ---------------------------------------------------------------- hexadecimal

  function HexDigit(n: int): (c: byte)
    requires 0 <= n < 16
  {
    if n < 10 then (48 + n) as byte else (87 + n) as byte
  }

  /** encoding/hex accepts both cases. */
  function HexValue(c: byte): (r: Option<int>)
    ensures r.Some? ==> 0 <= r.value < 16
  {
    if 48 <= c <= 57 then Some(c as int - 48)
    else if 97 <= c <= 102 then Some(c as int - 87)
    else if 65 <= c <= 70 then Some(c as int - 55)
    else None
  }

  function HexEncode(b: Bytes): (t: Bytes)
    ensures |t| == 2 * |b|
  {
    if b == [] then []
    else [HexDigit(b[0] as int / 16), HexDigit(b[0] as int % 16)] + HexEncode(b[1..])
  }

  function HexDecode(t: Bytes): (r: Option<Bytes>) {
    if t == [] then Some([])
    else if |t| == 1 then None
    else
      var hi, lo, rest := HexValue(t[0]), HexValue(t[1]), HexDecode(t[2..]);
      if hi.Some? && lo.Some? && rest.Some? then
        Some([(16 * hi.value + lo.value) as byte] + rest.value)
      else
        None
  }

  lemma {:induction false} HexRoundTrip(b: Bytes)
    ensures HexDecode(HexEncode(b)) == Some(b)
  {
    if b != [] {
      HexRoundTrip(b[1..]);
      var t := HexEncode(b);
      assert t[2..] == HexEncode(b[1..]);
      assert [b[0]] + b[1..] == b;
    }
  }

  function UpperCase(t: Bytes): (r: Bytes)
    ensures |r| == |t|
  {
    seq(|t|, i requires 0 <= i < |t| => if 97 <= t[i] <= 122 then t[i] - 32 else t[i])
  }

  /** Upper-case digits decode as lower-case ones do. */
  lemma {:induction false} HexIgnoresCase(t: Bytes)
    ensures HexDecode(UpperCase(t)) == HexDecode(t)
    decreases |t|
  {
    if |t| > 1 {
      HexIgnoresCase(t[2..]);
      assert UpperCase(t)[2..] == UpperCase(t[2..]);
    }
  }

  lemma {:induction false} HexDecodeHalves(t: Bytes)
    ensures HexDecode(t).Some? ==> |t| == 2 * |HexDecode(t).value|
    decreases |t|
  {
    if |t| > 1 {
      HexDecodeHalves(t[2..]);
    }
  }

  lemma HexInjective(a: Bytes, b: Bytes)
    requires HexEncode(a) == HexEncode(b)
    ensures a == b
  {
    HexRoundTrip(a);
    HexRoundTrip(b);
  }

  /** Hex text never holds a colon, nor white space. */
  lemma {:induction false} HexIsPlain(b: Bytes)
    ensures forall c :: c in HexEncode(b) ==> 48 <= c <= 57 || 97 <= c <= 102
  {
    if b != [] {
      HexIsPlain(b[1..]);
    }
  }

  // ---------------------------------------------------------------- decimal numbers

  /** What fmt prints for %d of an unsigned number. */
  function Decimal(n: nat): (t: Bytes)
    ensures |t| > 0
    ensures forall c :: c in t ==> 48 <= c <= 57
  {
    if n < 10 then [(48 + n) as byte] else Decimal(n / 10) + [(48 + n % 10) as byte]
  }

  function FromDecimal(t: Bytes): int {
    if t == [] then 0 else 10 * FromDecimal(t[..|t| - 1]) + (t[|t| - 1] as int - 48)
  }

  lemma {:induction false} DecimalRoundTrip(n: nat)
    ensures FromDecimal(Decimal(n)) == n
  {
    if n >= 10 {
      DecimalRoundTrip(n / 10);
      var t := Decimal(n);
      assert t[..|t| - 1] == Decimal(n / 10);
    } else {
      var t := Decimal(n);
      assert t[..|t| - 1] == [];
    }
  }

  lemma DecimalInjective(m: nat, n: nat)
    requires Decimal(m) == Decimal(n)
    ensures m == n
  {
    DecimalRoundTrip(m);
    DecimalRoundTrip(n);
  }

  /** A text cut at its first separator has only one reading. */
  lemma CutIsUnique(sep: byte, a: Bytes, x: Bytes, b: Bytes, y: Bytes)
    requires sep !in a && sep !in b
    requires a + [sep] + x == b + [sep] + y
    ensures a == b && x == y
  {
    var s, t := a + [sep] + x, b + [sep] + y;
    assert s[|a|] == sep && t[|b|] == sep;
    if |a| < |b| {
      assert false;
    } else if |b| < |a| {
      assert false;
    }
    assert s[..|a|] == a && t[..|b|] == b;
    assert s[|a| + 1..] == x && t[|b| + 1..] == y;
  }

  // ---------------------------------------------------------------- string order

  /** Go's `a <= b` on strings. */
  predicate TextLeq(a: Bytes, b: Bytes) {
    a == [] || (b != [] && (a[0] < b[0] || (a[0] == b[0] && TextLeq(a[1..], b[1..]))))
  }

  /** Go's `a < b` on strings. */
  predicate TextLess(a: Bytes, b: Bytes) {
    TextLeq(a, b) && a != b
  }

  /** The texts agree before position `k`, where the first one ends or has the lower byte. */
  predicate LowerAt(a: Bytes, b: Bytes, k: nat) {
    && k <= |a| && k < |b| && a[..k] == b[..k]
    && (k == |a| || a[k] < b[k])
  }

  lemma LowerAtShift(a: Bytes, b: Bytes, k: nat)
    requires a != [] && b != [] && a[0] == b[0]
    ensures LowerAt(a[1..], b[1..], k) <==> LowerAt(a, b, k + 1)
  {
    if k < |a| && k < |b| {
      assert a[..k + 1] == [a[0]] + a[1..][..k] && b[..k + 1] == [b[0]] + b[1..][..k];
    }
  }

  /** Strings are ordered by the first byte in which they differ, a beginning before what it begins. */
  lemma {:induction false} TextLessExactly(a: Bytes, b: Bytes)
    ensures TextLess(a, b) <==> exists k: nat :: LowerAt(a, b, k)
    decreases |a|
  {
    hide LowerAt;
    if a == [] || b == [] || a[0] != b[0] {
      LessAtOnce(a, b);
    } else {
      assert a == [a[0]] + a[1..] && b == [b[0]] + b[1..];
      TextLessExactly(a[1..], b[1..]);
      LaterThanFirst(a, b);
      if k: nat :| LowerAt(a[1..], b[1..], k) {
        LowerAtShift(a, b, k);
      }
      if k: nat :| LowerAt(a, b, k) && k > 0 {
        LowerAtShift(a, b, k - 1);
      }
    }
  }

  lemma LessAtOnce(a: Bytes, b: Bytes)
    requires a == [] || b == [] || a[0] != b[0]
    ensures TextLess(a, b) <==> LowerAt(a, b, 0)
    ensures forall k: nat :: LowerAt(a, b, k) ==> LowerAt(a, b, 0)
  {
    forall k: nat | LowerAt(a, b, k) ensures LowerAt(a, b, 0) {
      if k > 0 {
        LowerLater(a, b, k);
      }
    }
  }

  lemma LowerLater(a: Bytes, b: Bytes, k: nat)
    requires LowerAt(a, b, k) && k > 0
    ensures a[0] == b[0]
  {
    assert a[..k][0] == a[0] && b[..k][0] == b[0];
  }

  lemma LaterThanFirst(a: Bytes, b: Bytes)
    requires a != [] && b != [] && a[0] == b[0]
    ensures !LowerAt(a, b, 0)
  {
  }

  lemma {:induction false} TextLeqReflexive(a: Bytes)
    ensures TextLeq(a, a)
  {
    if a != [] {
      TextLeqReflexive(a[1..]);
    }
  }

  lemma {:induction false} TextLeqTotal(a: Bytes, b: Bytes)
    ensures TextLeq(a, b) || TextLeq(b, a)
  {
    if a != [] && b != [] && a[0] == b[0] {
      TextLeqTotal(a[1..], b[1..]);
    }
  }

  lemma {:induction false} TextLeqAntisymmetric(a: Bytes, b: Bytes)
    requires TextLeq(a, b) && TextLeq(b, a)
    ensures a == b
  {
    if a != [] {
      TextLeqAntisymmetric(a[1..], b[1..]);
      assert a == [a[0]] + a[1..] && b == [b[0]] + b[1..];
    }
  }

  lemma {:induction false} TextLeqTransitive(a: Bytes, b: Bytes, c: Bytes)
    requires TextLeq(a, b) && TextLeq(b, c)
    ensures TextLeq(a, c)
  {
    if a != [] && a[0] == b[0] && b[0] == c[0] {
      TextLeqTransitive(a[1..], b[1..], c[1..]);
    }
  }

  predicate SortedTexts(s: seq<Bytes>) {
    forall i, j :: 0 <= i < j < |s| ==> TextLeq(s[i], s[j])
  }

  function InsertText(x: Bytes, s: seq<Bytes>): (r: seq<Bytes>)
    ensures multiset(r) == multiset(s) + multiset{x}
  {
    if s == [] then [x]
    else if TextLeq(x, s[0]) then
      [x] + s
    else
      assert s == [s[0]] + s[1..];
      [s[0]] + InsertText(x, s[1..])
  }

  /** What sort.Strings leaves behind. */
  function SortTexts(s: seq<Bytes>): (r: seq<Bytes>)
    ensures multiset(r) == multiset(s)
    ensures |r| == |s|
  {
    if s == [] then [] else
      assert s == [s[0]] + s[1..];
      var r := InsertText(s[0], SortTexts(s[1..]));
      assert |multiset(r)| == |r|;
      r
  }

  lemma {:induction false} InsertTextSorted(x: Bytes, s: seq<Bytes>)
    requires SortedTexts(s)
    ensures SortedTexts(InsertText(x, s))
  {
    if s == [] {
    } else if TextLeq(x, s[0]) {
      forall j | 0 <= j < |s| ensures TextLeq(x, s[j]) {
        if j > 0 {
          TextLeqTransitive(x, s[0], s[j]);
        }
      }
    } else {
      InsertTextSorted(x, s[1..]);
      TextLeqTotal(x, s[0]);
      var r := InsertText(x, s[1..]);
      forall j | 0 <= j < |r| ensures TextLeq(s[0], r[j]) {
        assert r[j] in multiset(r);
        assert r[j] == x || r[j] in s[1..];
        if r[j] != x {
          var k :| 0 <= k < |s[1..]| && s[1..][k] == r[j];
          assert s[k + 1] == r[j];
        }
      }
    }
  }

  lemma {:induction false} SortTextsSorted(s: seq<Bytes>)
    ensures SortedTexts(SortTexts(s))
  {
    if s != [] {
      SortTextsSorted(s[1..]);
      InsertTextSorted(s[0], SortTexts(s[1..]));
    }
  }

  lemma HeadIsLeast(s: seq<Bytes>, x: Bytes)
    requires SortedTexts(s) && x in s
    ensures TextLeq(s[0], x)
  {
    TextLeqReflexive(x);
    var i :| 0 <= i < |s| && s[i] == x;
  }

  lemma TailMultiset<T>(s: seq<T>)
    requires s != []
    ensures multiset(s[1..]) == multiset(s) - multiset{s[0]}
  {
    assert s == [s[0]] + s[1..];
  }

  /** A sorted arrangement is determined by what it holds. */
  lemma {:induction false} SortedIsUnique(s: seq<Bytes>, t: seq<Bytes>)
    requires SortedTexts(s) && SortedTexts(t) && multiset(s) == multiset(t)
    ensures s == t
  {
    assert |multiset(s)| == |s| && |multiset(t)| == |t|;
    if s != [] {
      assert s[0] == t[0] by {
        assert s[0] in multiset(t) && t[0] in multiset(s);
        HeadIsLeast(s, t[0]);
        HeadIsLeast(t, s[0]);
        TextLeqAntisymmetric(s[0], t[0]);
      }
      TailMultiset(s);
      TailMultiset(t);
      SortedIsUnique(s[1..], t[1..]);
      assert s == [s[0]] + s[1..] && t == [t[0]] + t[1..];
    }
  }

  lemma SortingForgetsOrder(s: seq<Bytes>, t: seq<Bytes>)
    requires multiset(s) == multiset(t)
    ensures SortTexts(s) == SortTexts(t)
  {
    SortTextsSorted(s);
    SortTextsSorted(t);
    SortedIsUnique(SortTexts(s), SortTexts(t));
  }
}
