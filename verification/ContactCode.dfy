/**
 Contact codes (pkg/client/contactcode.go): two 32-byte keys as one pasteable text, over the
 unpadded URL-safe base64 of section 5 of RFC 4648.
 */
module ContactCodes {
  import opened Base
  import opened Text
  import opened Blocks

  // ---------------------------------------------------------------- base64url without padding

  type sextet = n: int | 0 <= n < 64

  function B64Digit(n: sextet): (c: byte) {
    if n < 26 then (65 + n) as byte
    else if n < 52 then (71 + n) as byte
    else if n < 62 then (n - 4) as byte
    else if n == 62 then 45
    else 95
  }

  function B64Value(c: byte): Option<sextet> {
    if 65 <= c <= 90 then Some(c as int - 65)
    else if 97 <= c <= 122 then Some(c as int - 71)
    else if 48 <= c <= 57 then Some(c as int + 4)
    else if c == 45 then Some(62)
    else if c == 95 then Some(63)
    else None
  }

  lemma B64DigitRoundTrip(n: sextet)
    ensures B64Value(B64Digit(n)) == Some(n)
  {
  }

  /** One, two or three bytes as two, three or four 6-bit numbers; spare low bits are zero. */
  function Sextets(b: Bytes): (d: seq<sextet>)
    requires 1 <= |b| <= 3
    ensures |d| == |b| + 1
  {
    if |b| == 1 then
      var n := b[0] as int * 16;
      [n / 64, n % 64]
    else if |b| == 2 then
      var n := (b[0] as int * 256 + b[1] as int) * 4;
      [n / 4096, n / 64 % 64, n % 64]
    else
      var n := b[0] as int * 65536 + b[1] as int * 256 + b[2] as int;
      [n / 262144, n / 4096 % 64, n / 64 % 64, n % 64]
  }

  /** The way back; spare low bits are ignored. */
  function Octets(d: seq<sextet>): Bytes
    requires 2 <= |d| <= 4
  {
    if |d| == 2 then [((d[0] as int * 64 + d[1] as int) / 16) as byte]
    else if |d| == 3 then
      var n := (d[0] as int * 4096 + d[1] as int * 64 + d[2] as int) / 4;
      [(n / 256) as byte, (n % 256) as byte]
    else
      var n := d[0] as int * 262144 + d[1] as int * 4096 + d[2] as int * 64 + d[3] as int;
      [(n / 65536) as byte, (n / 256 % 256) as byte, (n % 256) as byte]
  }

  function Spell(d: seq<sextet>): (t: Bytes)
    ensures |t| == |d|
  {
    if d == [] then [] else [B64Digit(d[0])] + Spell(d[1..])
  }

  function EncodeGroup(b: Bytes): (t: Bytes)
    requires 1 <= |b| <= 3
    ensures |t| == |b| + 1
  {
    Spell(Sextets(b))
  }

  function B64Encode(b: Bytes): (t: Bytes)
    ensures b != [] ==> t != []
  {
    if b == [] then [] else if |b| <= 3 then EncodeGroup(b) else EncodeGroup(b[..3]) + B64Encode(b[3..])
  }

  function Values(t: Bytes): (r: Option<seq<sextet>>)
    ensures r.Some? ==> |r.value| == |t|
  {
    if t == [] then Some([])
    else
      var d, rest := B64Value(t[0]), Values(t[1..]);
      if d.None? || rest.None? then None else Some([d.value] + rest.value)
  }

  /** A lone digit is an error. */
  function DecodeGroup(t: Bytes): Option<Bytes>
    requires 1 <= |t| <= 4
  {
    var d := Values(t);
    if d.None? || |t| == 1 then None else Some(Octets(d.value))
  }

  function B64Decode(t: Bytes): Option<Bytes> {
    if t == [] then Some([])
    else if |t| <= 4 then DecodeGroup(t)
    else
      var group, rest := DecodeGroup(t[..4]), B64Decode(t[4..]);
      if group.None? || rest.None? then None else Some(group.value + rest.value)
  }

  /** Go's decoder skips line breaks anywhere. */
  function SkipLineBreaks(t: Bytes): Bytes {
    if t == [] then [] else (if t[0] == 10 || t[0] == 13 then [] else [t[0]]) + SkipLineBreaks(t[1..])
  }

  function RawUrlDecode(t: Bytes): Option<Bytes> {
    B64Decode(SkipLineBreaks(t))
  }

  lemma Div64Twice(n: nat)
    ensures n / 4096 == n / 64 / 64
  {
  }

  /** Three bytes are four 6-bit digits. */
  lemma GroupRoundTrip(b0: int, b1: int, b2: int)
    requires 0 <= b0 < 256 && 0 <= b1 < 256 && 0 <= b2 < 256
    ensures var n := b0 * 65536 + b1 * 256 + b2;
      var d0, d1, d2, d3 := n / 262144, n / 4096 % 64, n / 64 % 64, n % 64;
      0 <= d0 < 64 && n == d0 * 262144 + d1 * 4096 + d2 * 64 + d3
  {
    var n := b0 * 65536 + b1 * 256 + b2;
    Div64Twice(n);
    Div64Twice(n / 64);
    assert n / 64 == n / 4096 * 64 + n / 64 % 64;
    assert n / 262144 == n / 64 / 4096;
    assert n / 4096 == n / 262144 * 64 + n / 4096 % 64;
  }

  lemma GroupBytes(b0: int, b1: int, b2: int)
    requires 0 <= b0 < 256 && 0 <= b1 < 256 && 0 <= b2 < 256
    ensures var n := b0 * 65536 + b1 * 256 + b2;
      n / 65536 == b0 && n / 256 % 256 == b1 && n % 256 == b2
  {
    var n := b0 * 65536 + b1 * 256 + b2;
    assert n / 256 == b0 * 256 + b1;
  }

  lemma PairRoundTrip(b0: int, b1: int)
    requires 0 <= b0 < 256 && 0 <= b1 < 256
    ensures var n := (b0 * 256 + b1) * 4;
      var d0, d1, d2 := n / 4096, n / 64 % 64, n % 64;
      && 0 <= d0 < 64 && n == d0 * 4096 + d1 * 64 + d2
      && n / 4 / 256 == b0 && n / 4 % 256 == b1
  {
    var n := (b0 * 256 + b1) * 4;
    Div64Twice(n);
    assert n / 4 == b0 * 256 + b1;
  }

  lemma {:induction false} ValuesOfSpelling(d: seq<sextet>)
    ensures Values(Spell(d)) == Some(d)
    decreases |d|
  {
    if d != [] {
      ValuesOfSpelling(d[1..]);
      OneMoreValue(d[0], d[1..], Spell(d[1..]));
      hide B64Digit, B64Value, Values;
      assert d == [d[0]] + d[1..];
    }
  }

  lemma OneMoreValue(first: sextet, rest: seq<sextet>, t: Bytes)
    requires Values(t) == Some(rest)
    ensures Values([B64Digit(first)] + t) == Some([first] + rest)
  {
    B64DigitRoundTrip(first);
    hide B64Digit, B64Value;
    assert ([B64Digit(first)] + t)[1..] == t;
  }

  lemma OctetsOfSextets(b: Bytes)
    requires 1 <= |b| <= 3
    ensures Octets(Sextets(b)) == b
  {
    if |b| == 1 {
      assert b == [b[0]];
    } else if |b| == 2 {
      PairRoundTrip(b[0] as int, b[1] as int);
      assert b == [b[0], b[1]];
    } else {
      OctetsOfThree(b);
    }
  }

  lemma OctetsOfThree(b: Bytes)
    requires |b| == 3
    ensures Octets(Sextets(b)) == b
  {
    GroupRoundTrip(b[0] as int, b[1] as int, b[2] as int);
    GroupBytes(b[0] as int, b[1] as int, b[2] as int);
    assert b == [b[0], b[1], b[2]];
  }

  lemma GroupSurvives(b: Bytes)
    requires 1 <= |b| <= 3
    ensures DecodeGroup(EncodeGroup(b)) == Some(b)
  {
    ValuesOfSpelling(Sextets(b));
    OctetsOfSextets(b);
    hide Values, Spell, Sextets, Octets;
  }

  lemma {:induction false} B64RoundTrip(b: Bytes)
    ensures B64Decode(B64Encode(b)) == Some(b)
  {
    hide EncodeGroup, DecodeGroup;
    if b == [] {
    } else if |b| <= 3 {
      GroupSurvives(b);
    } else {
      GroupSurvives(b[..3]);
      B64RoundTrip(b[3..]);
      var t := B64Encode(b);
      assert t[..4] == EncodeGroup(b[..3]) && t[4..] == B64Encode(b[3..]);
      assert b == b[..3] + b[3..];
    }
  }

  /** Letters, digits, '-' and '_': the URL-safe alphabet. */
  predicate Plain(c: byte) {
    48 <= c <= 57 || 65 <= c <= 90 || 97 <= c <= 122 || c == 45 || c == 95
  }

  lemma B64DigitIsPlain()
    ensures forall n: sextet :: Plain(B64Digit(n))
  {
  }

  lemma {:induction false} SpellingIsPlain(d: seq<sextet>)
    ensures forall c :: c in Spell(d) ==> Plain(c)
    decreases |d|
  {
    if d != [] {
      B64DigitIsPlain();
      hide B64Digit, Plain;
      SpellingIsPlain(d[1..]);
    }
  }

  lemma {:induction false} B64IsPlain(b: Bytes)
    ensures forall c :: c in B64Encode(b) ==> Plain(c)
  {
    hide Plain, Spell, Sextets;
    if |b| > 3 {
      SpellingIsPlain(Sextets(b[..3]));
      B64IsPlain(b[3..]);
    } else if b != [] {
      SpellingIsPlain(Sextets(b));
    }
  }

  lemma {:induction false} NoLineBreaks(t: Bytes)
    requires forall c :: c in t ==> c != 10 && c != 13
    ensures SkipLineBreaks(t) == t
  {
    if t != [] {
      assert t == [t[0]] + t[1..];
      assert forall c :: c in t[1..] ==> c in t;
      assert t[0] in t;
      NoLineBreaks(t[1..]);
    }
  }

  // ---------------------------------------------------------------- white space

  /** The UTF-8 forms of Unicode's white space. */
  const WHITE_SPACE: seq<Bytes> :=
    [[9], [10], [11], [12], [13], [32],
     [0xC2, 0x85], [0xC2, 0xA0], [0xE1, 0x9A, 0x80],
     [0xE2, 0x80, 0x80], [0xE2, 0x80, 0x81], [0xE2, 0x80, 0x82], [0xE2, 0x80, 0x83], [0xE2, 0x80, 0x84],
     [0xE2, 0x80, 0x85], [0xE2, 0x80, 0x86], [0xE2, 0x80, 0x87], [0xE2, 0x80, 0x88], [0xE2, 0x80, 0x89],
     [0xE2, 0x80, 0x8A], [0xE2, 0x80, 0xA8], [0xE2, 0x80, 0xA9], [0xE2, 0x80, 0xAF], [0xE2, 0x81, 0x9F],
     [0xE3, 0x80, 0x80]]

  predicate IsSpace(s: Bytes) {
    s in WHITE_SPACE
  }

  predicate StartsWithSpace(t: Bytes, n: nat) {
    n <= |t| && IsSpace(t[..n])
  }

  predicate EndsInSpace(t: Bytes, n: nat) {
    n <= |t| && IsSpace(t[|t| - n..])
  }

  /** The length of the white-space character that `t` starts with, 0 if none. */
  function SpaceAtFront(t: Bytes): (n: nat)
    ensures n <= |t|
  {
    if StartsWithSpace(t, 1) then 1 else if StartsWithSpace(t, 2) then 2 else if StartsWithSpace(t, 3) then 3 else 0
  }

  function SpaceAtEnd(t: Bytes): (n: nat)
    ensures n <= |t|
  {
    if EndsInSpace(t, 1) then 1 else if EndsInSpace(t, 2) then 2 else if EndsInSpace(t, 3) then 3 else 0
  }

  function TrimLeft(t: Bytes): Bytes
    decreases |t|
  {
    if SpaceAtFront(t) == 0 then t else TrimLeft(t[SpaceAtFront(t)..])
  }

  function TrimRight(t: Bytes): Bytes
    decreases |t|
  {
    if SpaceAtEnd(t) == 0 then t else TrimRight(t[..|t| - SpaceAtEnd(t)])
  }

  function TrimSpace(t: Bytes): Bytes {
    TrimRight(TrimLeft(t))
  }

  /** Printable ASCII, the blank excepted. */
  predicate Visible(c: byte) {
    33 <= c <= 126
  }

  predicate Blank(c: byte) {
    9 <= c <= 13 || c == 32
  }

  lemma VisibleIsNoSpace(s: Bytes)
    requires s != [] && (Visible(s[0]) || Visible(s[|s| - 1]))
    ensures !IsSpace(s)
  {
  }

  lemma BlankIsSpace(c: byte)
    ensures Blank(c) ==> IsSpace([c])
  {
  }

  lemma PrefixNoSpace(t: Bytes, n: nat)
    requires 1 <= n && t != [] && Visible(t[0])
    ensures !StartsWithSpace(t, n)
  {
    hide IsSpace, Visible;
    if n <= |t| {
      var s := t[..n];
      assert s[0] == t[0];
      VisibleIsNoSpace(s);
    }
  }

  lemma SuffixNoSpace(t: Bytes, n: nat)
    requires 1 <= n && t != [] && Visible(t[|t| - 1])
    ensures !EndsInSpace(t, n)
  {
    hide IsSpace, Visible;
    if n <= |t| {
      var s := t[|t| - n..];
      assert s[n - 1] == t[|t| - 1];
      VisibleIsNoSpace(s);
    }
  }

  lemma NoSpaceAtFront(t: Bytes)
    requires t != [] && Visible(t[0])
    ensures SpaceAtFront(t) == 0
  {
    hide StartsWithSpace, Visible;
    PrefixNoSpace(t, 1);
    PrefixNoSpace(t, 2);
    PrefixNoSpace(t, 3);
  }

  lemma NoSpaceAtEnd(t: Bytes)
    requires t != [] && Visible(t[|t| - 1])
    ensures SpaceAtEnd(t) == 0
  {
    hide EndsInSpace, Visible;
    SuffixNoSpace(t, 1);
    SuffixNoSpace(t, 2);
    SuffixNoSpace(t, 3);
  }

  lemma OneSpaceAtEither(c: byte, t: Bytes)
    requires Blank(c)
    ensures SpaceAtFront([c] + t) == 1 && SpaceAtEnd(t + [c]) == 1
  {
    BlankIsSpace(c);
    hide IsSpace, Blank;
    assert ([c] + t)[..1] == [c] && (t + [c])[|t|..] == [c];
  }

  lemma {:induction false} TrimLeftBlanks(l: Bytes, core: Bytes)
    requires (forall c :: c in l ==> Blank(c)) && core != [] && Visible(core[0])
    ensures TrimLeft(l + core) == core
    decreases |l|
  {
    hide SpaceAtFront, Blank, Visible;
    if l == [] {
      assert l + core == core;
      NoSpaceAtFront(core);
    } else {
      var rest := l[1..] + core;
      assert l + core == [l[0]] + rest;
      OneSpaceAtEither(l[0], rest);
      TrimLeftBlanks(l[1..], core);
      assert (l + core)[1..] == rest;
    }
  }

  lemma {:induction false} TrimRightBlanks(core: Bytes, r: Bytes)
    requires (forall c :: c in r ==> Blank(c)) && core != [] && Visible(core[|core| - 1])
    ensures TrimRight(core + r) == core
    decreases |r|
  {
    hide SpaceAtEnd, Blank, Visible;
    if r == [] {
      assert core + r == core;
      NoSpaceAtEnd(core);
    } else {
      var last := |r| - 1;
      var rest := core + r[..last];
      assert core + r == rest + [r[last]];
      OneSpaceAtEither(r[last], rest);
      TrimRightBlanks(core, r[..last]);
      assert (core + r)[..|rest|] == rest;
    }
  }

  /** Blanks around a text of visible characters come off, and nothing else. */
  lemma TrimBlanks(l: Bytes, core: Bytes, r: Bytes)
    requires (forall c :: c in l ==> Blank(c)) && (forall c :: c in r ==> Blank(c))
    requires core != [] && Visible(core[0]) && Visible(core[|core| - 1])
    ensures TrimSpace(l + core + r) == core
  {
    assert l + core + r == l + (core + r);
    TrimLeftBlanks(l, core + r);
    TrimRightBlanks(core, r);
  }

  /** Unicode's white space, by code point. */
  predicate WhiteCodePoint(cp: nat) {
    9 <= cp <= 13 || cp == 0x20 || cp == 0x85 || cp == 0xA0 || cp == 0x1680 || 0x2000 <= cp <= 0x200A
    || cp == 0x2028 || cp == 0x2029 || cp == 0x202F || cp == 0x205F || cp == 0x3000
  }

  /** UTF-8 below 0x10000. */
  function Utf8(cp: nat): (t: Bytes)
    requires cp < 0x10000
    ensures 1 <= |t| <= 3
  {
    if cp < 0x80 then [cp as byte]
    else if cp < 0x800 then [(0xC0 + cp / 64) as byte, (0x80 + cp % 64) as byte]
    else [(0xE0 + cp / 4096) as byte, (0x80 + cp / 64 % 64) as byte, (0x80 + cp % 64) as byte]
  }

  lemma SpaceShape(s: Bytes)
    requires IsSpace(s)
    ensures 1 <= |s| <= 3
    ensures |s| == 1 ==> s[0] < 0x80
    ensures |s| == 2 ==> s[0] == 0xC2
    ensures |s| == 3 ==> 0xE1 <= s[0] <= 0xE3
  {
  }

  /** Where the character stands in the list. */
  function WhiteIndex(cp: nat): (k: nat)
    requires WhiteCodePoint(cp)
    ensures k < |WHITE_SPACE|
  {
    if cp <= 13 then cp - 9
    else if cp == 0x20 then 5
    else if cp == 0x85 then 6
    else if cp == 0xA0 then 7
    else if cp == 0x1680 then 8
    else if cp <= 0x200A then 9 + cp - 0x2000
    else if cp == 0x2028 then 20
    else if cp == 0x2029 then 21
    else if cp == 0x202F then 22
    else if cp == 0x205F then 23
    else 24
  }

  lemma WhiteIsListed(cp: nat)
    requires WhiteCodePoint(cp)
    ensures cp < 0x10000 && IsSpace(Utf8(cp))
  {
    assert WHITE_SPACE[WhiteIndex(cp)] == Utf8(cp);
  }

  lemma WhiteParts(cp: nat)
    requires WhiteCodePoint(cp)
    ensures cp < 0x10000
    ensures |Utf8(cp)| > 1 ==> Utf8(cp)[0] >= 0x80 && Utf8(cp)[|Utf8(cp)| - 1] >= 0x80
    ensures |Utf8(cp)| > 2 ==> Utf8(cp)[0] != 0xC2 && Utf8(cp)[1] != 0xC2
  {
  }

  lemma NoShorterSpace(cp: nat)
    requires WhiteCodePoint(cp)
    ensures cp < 0x10000
    ensures |Utf8(cp)| > 1 ==> !IsSpace(Utf8(cp)[..1]) && !IsSpace(Utf8(cp)[|Utf8(cp)| - 1..])
    ensures |Utf8(cp)| > 2 ==> !IsSpace(Utf8(cp)[..2]) && !IsSpace(Utf8(cp)[1..])
  {
    hide IsSpace, WhiteCodePoint, Utf8;
    WhiteParts(cp);
    var t := Utf8(cp);
    if |t| > 1 {
      NotASpace(t[..1]);
      NotASpace(t[|t| - 1..]);
    }
    if |t| > 2 {
      NotASpace(t[..2]);
      NotASpace(t[1..]);
    }
  }

  lemma NotASpace(s: Bytes)
    requires (|s| == 1 && s[0] >= 0x80) || (|s| == 2 && s[0] != 0xC2)
    ensures !IsSpace(s)
  {
    hide IsSpace;
    if IsSpace(s) {
      SpaceShape(s);
    }
  }

  lemma WhiteAtEither(cp: nat, t: Bytes)
    requires WhiteCodePoint(cp)
    ensures cp < 0x10000 && |Utf8(cp)| > 0
    ensures SpaceAtFront(Utf8(cp) + t) == |Utf8(cp)| && SpaceAtEnd(t + Utf8(cp)) == |Utf8(cp)|
  {
    hide IsSpace, Utf8, WhiteCodePoint;
    WhiteIsListed(cp);
    NoShorterSpace(cp);
    var sp := Utf8(cp);
    assert (sp + t)[..|sp|] == sp && (t + sp)[|t|..] == sp;
    if |sp| > 1 {
      assert (sp + t)[..1] == sp[..1] && (t + sp)[|t + sp| - 1..] == sp[|sp| - 1..];
    }
    if |sp| > 2 {
      assert (sp + t)[..2] == sp[..2] && (t + sp)[|t + sp| - 2..] == sp[1..];
    }
  }

  /** Every white-space character of Unicode, before a text or behind it, comes off. */
  lemma WhiteSpaceIsTrimmed(cp: nat, core: Bytes, cp': nat)
    requires WhiteCodePoint(cp) && WhiteCodePoint(cp') && core != [] && Visible(core[0]) && Visible(core[|core| - 1])
    ensures cp < 0x10000 && cp' < 0x10000 && TrimSpace(Utf8(cp) + core + Utf8(cp')) == core
  {
    hide SpaceAtFront, SpaceAtEnd, Visible, WhiteCodePoint, Utf8;
    WhiteAtEither(cp', core);
    WhiteAtEither(cp, core + Utf8(cp'));
    NoSpaceAtFront(core + Utf8(cp'));
    NoSpaceAtEnd(core);
    var t := Utf8(cp) + core + Utf8(cp');
    assert t == Utf8(cp) + (core + Utf8(cp'));
    assert t[|Utf8(cp)|..] == core + Utf8(cp');
    assert TrimLeft(t) == TrimLeft(core + Utf8(cp')) == core + Utf8(cp');
    var u := core + Utf8(cp');
    assert u[..|u| - SpaceAtEnd(u)] == core;
    assert TrimRight(u) == TrimRight(core) == core;
  }

  // ---------------------------------------------------------------- the codes

  const PREFIX: Bytes := [111, 99, 49, 58] // "oc1:"
  const COLON: byte := 58

  datatype ParsedContact = ParsedContact(address: Bytes, key: Bytes32, keyHex: Bytes)

  function MyContactCode(signing: Bytes32, encryption: Bytes32): Bytes {
    PREFIX + B64Encode(signing + encryption)
  }

  /** strings.TrimPrefix. */
  function Stripped(code: Bytes): Bytes {
    if HasPrefix(code, PREFIX) then code[|PREFIX|..] else code
  }

  function ParseContactCode(pasted: Bytes): Option<ParsedContact> {
    var code := TrimSpace(pasted);
    if COLON in code && !HasPrefix(code, PREFIX) then ParseColonForm(code)
    else
      var raw := RawUrlDecode(Stripped(code));
      if raw.None? || |raw.value| != 64 then None
      else Some(ContactOf(raw.value[..32], raw.value[32..]))
  }

  function ContactOf(address: Bytes, key: Bytes32): ParsedContact {
    ParsedContact(HexEncode(address), key, HexEncode(key))
  }

  /** The text before the first colon and the text after it. */
  function CutAtColon(t: Bytes): (Bytes, Bytes)
    requires COLON in t
  {
    if t[0] == COLON then ([], t[1..])
    else
      assert t == [t[0]] + t[1..];
      var (a, b) := CutAtColon(t[1..]);
      ([t[0]] + a, b)
  }

  function ParseColonForm(code: Bytes): Option<ParsedContact>
    requires COLON in code
  {
    var (a, b) := CutAtColon(code);
    var address, key := DecodeAddress(TrimSpace(a)), DecodeAddress(TrimSpace(b));
    if address.None? || key.None? then None else Some(ContactOf(address.value, key.value))
  }

  lemma {:induction false} CutsAtFirstColon(a: Bytes, b: Bytes)
    requires COLON !in a
    ensures COLON in a + [COLON] + b && CutAtColon(a + [COLON] + b) == (a, b)
  {
    var t := a + [COLON] + b;
    assert t[|a|] == COLON;
    if a == [] {
      assert t[1..] == b;
    } else {
      CutsAtFirstColon(a[1..], b);
      assert t[1..] == a[1..] + [COLON] + b;
      assert t[0] == a[0] != COLON;
      assert a == [a[0]] + a[1..];
    }
  }

  lemma {:induction false} SkippedOnlyBreaks(t: Bytes)
    ensures forall c :: c in t ==> c == 10 || c == 13 || c in SkipLineBreaks(t)
  {
    if t != [] {
      SkippedOnlyBreaks(t[1..]);
      assert t == [t[0]] + t[1..];
    }
  }

  /** The base64 form of `raw`, possibly with line breaks inside. */
  predicate Spells(t: Bytes, raw: Bytes) {
    SkipLineBreaks(t) == B64Encode(raw) && t != [] && t[0] != 10 && t[0] != 13 && t[|t| - 1] != 10 && t[|t| - 1] != 13
  }

  lemma SpellingIsVisible(t: Bytes, raw: Bytes)
    requires Spells(t, raw)
    ensures t != [] && COLON !in t && Visible(t[0]) && Visible(t[|t| - 1])
  {
    SkippedOnlyBreaks(t);
    B64IsPlain(raw);
    hide B64Encode;
    assert t[0] in t && t[|t| - 1] in t;
  }

  lemma CodeIsTrim(p: Bytes, t: Bytes, raw: Bytes, l: Bytes, r: Bytes)
    requires p in {[], PREFIX} && Spells(t, raw) && (forall c :: c in l ==> Blank(c)) && (forall c :: c in r ==> Blank(c))
    ensures TrimSpace(l + (p + t) + r) == p + t
  {
    hide Spells, Blank, TrimSpace;
    var code := p + t;
    SpellingIsVisible(t, raw);
    assert code[|code| - 1] == t[|t| - 1] && (p == [] ==> code[0] == t[0]);
    TrimBlanks(l, code, r);
  }

  lemma PrefixHasColon(t: Bytes)
    requires HasPrefix(t, PREFIX)
    ensures COLON in t
  {
    assert t[..4][3] == t[3];
  }

  lemma CodeParses(pasted: Bytes, p: Bytes, t: Bytes, raw: Bytes)
    requires |raw| == 64 && p in {[], PREFIX} && TrimSpace(pasted) == p + t && COLON !in t
    requires RawUrlDecode(t) == Some(raw)
    ensures ParseContactCode(pasted) == Some(ContactOf(raw[..32], raw[32..]))
  {
    hide TrimSpace, RawUrlDecode, ContactOf, ParseColonForm;
    var code := p + t;
    if p == [] {
      assert code == t;
      if HasPrefix(t, PREFIX) {
        PrefixHasColon(t);
      }
    } else {
      assert code[..4] == PREFIX && code[4..] == t;
    }
  }

  /**
   A shared code gives back both keys, for every pair of keys: with blanks around it or not, with line breaks
   inside or not, and with its prefix or without.
   */
  lemma ContactCodeRoundTrip(signing: Bytes32, encryption: Bytes32, l: Bytes, p: Bytes, t: Bytes, r: Bytes)
    requires (forall c :: c in l ==> Blank(c)) && (forall c :: c in r ==> Blank(c))
    requires p in {[], PREFIX} && Spells(t, signing + encryption)
    ensures ParseContactCode(l + (p + t) + r) == Some(ParsedContact(HexEncode(signing), encryption, HexEncode(encryption)))
  {
    hide TrimSpace, SkipLineBreaks, B64Encode, B64Decode, HexEncode, Blank, Visible;
    var raw := signing + encryption;
    B64RoundTrip(raw);
    SpellingIsVisible(t, raw);
    CodeIsTrim(p, t, raw, l, r);
    CodeParses(l + (p + t) + r, p, t, raw);
    assert raw[..32] == signing && raw[32..] == encryption;
  }

  lemma PlainSpelling(raw: Bytes)
    requires raw != []
    ensures Spells(B64Encode(raw), raw)
  {
    hide B64Encode;
    var t := B64Encode(raw);
    B64IsPlain(raw);
    NoLineBreaks(t);
    assert t[0] in t && t[|t| - 1] in t;
  }

  lemma {:induction false} LineBreaksAreIgnored(a: Bytes, c: byte, b: Bytes)
    requires c == 10 || c == 13
    ensures SkipLineBreaks(a + [c] + b) == SkipLineBreaks(a + b)
    decreases |a|
  {
    if a == [] {
      assert ([c] + b)[1..] == b && a + [c] + b == [c] + b && a + b == b;
    } else {
      assert (a + [c] + b)[1..] == a[1..] + [c] + b && (a + b)[1..] == a[1..] + b;
      LineBreaksAreIgnored(a[1..], c, b);
    }
  }

  /** A line break anywhere inside a code changes nothing. */
  lemma CodeMayBreak(signing: Bytes32, encryption: Bytes32, a: Bytes, c: byte, b: Bytes)
    requires c == 10 || c == 13
    requires a != [] && b != [] && PREFIX + a + b == MyContactCode(signing, encryption)
    ensures ParseContactCode(PREFIX + a + [c] + b) == ParseContactCode(MyContactCode(signing, encryption))
  {
    hide ParseContactCode, B64Encode, SkipLineBreaks;
    var raw := signing + encryption;
    assert (PREFIX + a + b)[4..] == a + b && MyContactCode(signing, encryption)[4..] == B64Encode(raw);
    PlainSpelling(raw);
    LineBreaksAreIgnored(a, c, b);
    assert (a + b)[0] == a[0] && (a + b)[|a + b| - 1] == b[|b| - 1];
    ContactCodeRoundTrip(signing, encryption, [], PREFIX, a + [c] + b, []);
    CodeAlone(signing, encryption);
    assert [] + (PREFIX + (a + [c] + b)) + [] == PREFIX + a + [c] + b;
  }

  /** Two wallets never share a code. */
  lemma ContactCodesDiffer(s1: Bytes32, e1: Bytes32, s2: Bytes32, e2: Bytes32)
    ensures MyContactCode(s1, e1) == MyContactCode(s2, e2) ==> s1 == s2 && e1 == e2
  {
    B64RoundTrip(s1 + e1);
    B64RoundTrip(s2 + e2);
    if MyContactCode(s1, e1) == MyContactCode(s2, e2) {
      assert MyContactCode(s1, e1)[4..] == B64Encode(s1 + e1);
      assert MyContactCode(s2, e2)[4..] == B64Encode(s2 + e2);
      assert (s1 + e1)[..32] == s1 && (s1 + e1)[32..] == e1;
      assert (s2 + e2)[..32] == s2 && (s2 + e2)[32..] == e2;
    }
  }

  lemma {:induction false} HexDigitsOnly(t: Bytes)
    requires HexDecode(t).Some?
    ensures forall c :: c in t ==> HexValue(c).Some?
    decreases |t|
  {
    if t != [] {
      HexDigitsOnly(t[2..]);
      assert t == [t[0], t[1]] + t[2..];
      hide HexValue;
    }
  }

  lemma HexIsVisible(t: Bytes)
    requires HexDecode(t).Some? && t != []
    ensures COLON !in t && Visible(t[0]) && Visible(t[|t| - 1]) && t[0] != PREFIX[0]
  {
    HexDigitsOnly(t);
    hide HexDecode;
    assert t[0] in t && t[|t| - 1] in t;
  }

  lemma PartsParse(pasted: Bytes, code: Bytes, a: Bytes, b: Bytes, signing: Bytes32, encryption: Bytes32)
    requires TrimSpace(pasted) == code && COLON in code && !HasPrefix(code, PREFIX)
    requires HexDecode(TrimSpace(a)) == Some(signing) && HexDecode(TrimSpace(b)) == Some(encryption) && CutAtColon(code) == (a, b)
    ensures ParseContactCode(pasted) == Some(ContactOf(signing, encryption))
  {
    hide TrimSpace, CutAtColon, HexDecode, RawUrlDecode, HasPrefix, ContactOf, Stripped;
  }

  predicate AllBlank(t: Bytes) {
    forall c :: c in t ==> Blank(c)
  }

  lemma BlankHasNoColon(t: Bytes)
    requires AllBlank(t)
    ensures COLON !in t
  {
  }

  /** Two hex keys, in digits of either case, with blanks around each. */
  lemma ColonFormParses(a: Bytes, b: Bytes, signing: Bytes32, encryption: Bytes32, l: Bytes, m: Bytes, n: Bytes, r: Bytes)
    requires HexDecode(a) == Some(signing) && HexDecode(b) == Some(encryption)
    requires AllBlank(l) && AllBlank(m) && AllBlank(n) && AllBlank(r)
    ensures ParseContactCode(l + a + m + [COLON] + n + b + r) == Some(ContactOf(signing, encryption))
  {
    hide TrimSpace, CutAtColon, HexDecode, ParseContactCode, ContactOf, Visible, Blank;
    var code := (a + m) + [COLON] + (n + b);
    HexDecodeHalves(a);
    HexDecodeHalves(b);
    HexIsVisible(a);
    HexIsVisible(b);
    BlankHasNoColon(m);
    CutsAtFirstColon(a + m, n + b);
    TrimBlanks([], a, m);
    TrimBlanks(n, b, []);
    assert [] + a + m == a + m && n + b + [] == n + b;
    assert code[0] == a[0] && code[|code| - 1] == b[|b| - 1];
    TrimBlanks(l, code, r);
    assert l + code + r == l + a + m + [COLON] + n + b + r;
    if HasPrefix(code, PREFIX) {
      PrefixStarts(code, PREFIX);
    }
    PartsParse(l + code + r, code, a + m, n + b, signing, encryption);
  }

  lemma PrefixStarts(t: Bytes, p: Bytes)
    requires p != [] && HasPrefix(t, p)
    ensures t[0] == p[0]
  {
    assert t[..|p|][0] == t[0];
  }

  /** The pair of hex keys, so written, means the same contact as the code. */
  lemma ColonFormAgrees(a: Bytes, b: Bytes, signing: Bytes32, encryption: Bytes32, l: Bytes, m: Bytes, n: Bytes, r: Bytes)
    requires HexDecode(a) == Some(signing) && HexDecode(b) == Some(encryption)
    requires AllBlank(l) && AllBlank(m) && AllBlank(n) && AllBlank(r)
    ensures ParseContactCode(l + a + m + [COLON] + n + b + r) == ParseContactCode(MyContactCode(signing, encryption))
  {
    hide ParseContactCode, MyContactCode, HexDecode, Blank;
    ColonFormParses(a, b, signing, encryption, l, m, n, r);
    CodeAlone(signing, encryption);
  }

  lemma CodeAlone(signing: Bytes32, encryption: Bytes32)
    ensures ParseContactCode(MyContactCode(signing, encryption)) == Some(ContactOf(signing, encryption))
  {
    hide ParseContactCode, B64Encode, SkipLineBreaks;
    var t := B64Encode(signing + encryption);
    PlainSpelling(signing + encryption);
    ContactCodeRoundTrip(signing, encryption, [], PREFIX, t, []);
    assert [] + (PREFIX + t) + [] == MyContactCode(signing, encryption);
  }

  lemma AcceptedIsContact(pasted: Bytes) returns (signing: Bytes32, encryption: Bytes32)
    requires ParseContactCode(pasted).Some?
    ensures ParseContactCode(pasted) == Some(ContactOf(signing, encryption))
  {
    hide TrimSpace, HexEncode, HexDecode, CutAtColon, RawUrlDecode, HasPrefix, Stripped;
    var code := TrimSpace(pasted);
    if COLON in code && !HasPrefix(code, PREFIX) {
      var (a, b) := CutAtColon(code);
      signing, encryption := DecodeAddress(TrimSpace(a)).value, DecodeAddress(TrimSpace(b)).value;
    } else {
      var raw := RawUrlDecode(Stripped(code)).value;
      signing, encryption := raw[..32], raw[32..];
    }
  }

  /** Whatever was accepted names two 32-byte keys, and their own code means the same contact. */
  lemma AcceptedIsCanonical(pasted: Bytes) returns (signing: Bytes32, encryption: Bytes32)
    requires ParseContactCode(pasted).Some?
    ensures ParseContactCode(pasted) == Some(ContactOf(signing, encryption))
    ensures ParseContactCode(MyContactCode(signing, encryption)) == ParseContactCode(pasted)
  {
    signing, encryption := AcceptedIsContact(pasted);
    hide ParseContactCode, MyContactCode, ContactOf;
    CodeAlone(signing, encryption);
  }
}
