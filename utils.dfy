/** src/utils.ts: the byte/base64 helpers used for certificate QR codes
    (section 4 of RFC 4648, as `btoa` and `atob` implement it) and the random
    colour of a spawned box. */
module Utils {
  import opened Wrappers
  import opened Bytes

  // ---------------------------------------------------------------------
  // The base64 alphabet

  /** The character for a 6-bit value: A-Z, a-z, 0-9, '+', '/'. */
  function SextetChar(v: int): (c: char)
    requires 0 <= v < 64
    ensures IsAlphabet(c) && SextetValue(c) == v
  {
    if v < 26 then ('A' as int + v) as char
    else if v < 52 then ('a' as int + v - 26) as char
    else if v < 62 then ('0' as int + v - 52) as char
    else if v == 62 then '+'
    else '/'
  }

  predicate IsAlphabet(c: char) {
    'A' <= c <= 'Z' || 'a' <= c <= 'z' || '0' <= c <= '9' || c == '+' || c == '/'
  }

  function SextetValue(c: char): (v: int)
    requires IsAlphabet(c)
    ensures 0 <= v < 64
  {
    if 'A' <= c <= 'Z' then c as int - 'A' as int
    else if 'a' <= c <= 'z' then c as int - 'a' as int + 26
    else if '0' <= c <= '9' then c as int - '0' as int + 52
    else if c == '+' then 62
    else 63
  }

  lemma SextetCharOfValue(c: char)
    requires IsAlphabet(c)
    ensures SextetChar(SextetValue(c)) == c
  {
  }

  // ---------------------------------------------------------------------
  // Encoding (btoa)

  /** The four 6-bit groups of three bytes. */
  function Group(b0: byte, b1: byte, b2: byte): (r: seq<int>)
    ensures |r| == 4 && forall k :: 0 <= k < 4 ==> 0 <= r[k] < 64
  {
    [b0 / 4, (b0 % 4) * 16 + b1 / 16, (b1 % 16) * 4 + b2 / 64, b2 % 64]
  }

  /** The 6-bit groups of the bytes, before padding: three bytes give four
      groups, a final two give three and a final one gives two. */
  function Sextets(bs: seq<byte>): (r: seq<int>)
    ensures |r| == (4 * |bs| + 2) / 3
    ensures forall k :: 0 <= k < |r| ==> 0 <= r[k] < 64
  {
    if |bs| == 0 then []
    else if |bs| == 1 then Group(bs[0], 0, 0)[..2]
    else if |bs| == 2 then Group(bs[0], bs[1], 0)[..3]
    else Group(bs[0], bs[1], bs[2]) + Sextets(bs[3..])
  }

  function Chars(vs: seq<int>): (s: string)
    requires forall k :: 0 <= k < |vs| ==> 0 <= vs[k] < 64
    ensures |s| == |vs|
    ensures forall k :: 0 <= k < |s| ==> IsAlphabet(s[k]) && SextetValue(s[k]) == vs[k]
  {
    if vs == [] then [] else [SextetChar(vs[0])] + Chars(vs[1..])
  }

  /** '=' characters that bring the output to a multiple of four. */
  function Padding(n: nat): string {
    if n % 3 == 1 then "==" else if n % 3 == 2 then "=" else ""
  }

  /** The body and its padding fill whole groups of four characters. */
  lemma PaddedLength(n: nat)
    ensures (4 * n + 2) / 3 + |Padding(n)| == 4 * ((n + 2) / 3)
  {
    var q, r := n / 3, n % 3;
    assert n == 3 * q + r;
    assert 4 * n + 2 == 3 * (4 * q) + (4 * r + 2);
    assert (4 * n + 2) / 3 == 4 * q + (4 * r + 2) / 3;
    assert n + 2 == 3 * q + (r + 2);
    assert (n + 2) / 3 == q + (r + 2) / 3;
  }

  /** Standard base64 of a byte sequence. */
  function Encode(bs: seq<byte>): (s: string)
    ensures |s| == 4 * ((|bs| + 2) / 3)
  {
    PaddedLength(|bs|);
    Chars(Sextets(bs)) + Padding(|bs|)
  }

  /** `btoa`: fails (throws InvalidCharacterError) on a character above U+00FF,
      otherwise encodes the characters as bytes. */
  function Btoa(s: string): (r: Option<string>)
    ensures r.None? <==> exists k :: 0 <= k < |s| && s[k] as int > 0xFF
  {
    if forall k :: 0 <= k < |s| ==> s[k] as int <= 0xFF
    then Some(Encode(seq(|s|, k requires 0 <= k < |s| => s[k] as int)))
    else None
  }

  // ---------------------------------------------------------------------
  // Decoding (atob, the forgiving-base64 decode of the WHATWG Infra standard)

  predicate IsAsciiWhitespace(c: char) {
    c == '\t' || c == '\n' || c == '\U{000C}' || c == '\r' || c == ' '
  }

  function StripWhitespace(s: string): (r: string)
    ensures |r| <= |s|
    ensures forall k :: 0 <= k < |r| ==> !IsAsciiWhitespace(r[k])
  {
    if s == [] then []
    else if IsAsciiWhitespace(s[0]) then StripWhitespace(s[1..])
    else [s[0]] + StripWhitespace(s[1..])
  }

  /** When the length is a multiple of four, one or two trailing '='
      are dropped. */
  function StripPadding(s: string): (r: string)
    ensures |s| - 2 <= |r| <= |s| && r == s[..|r|]
    ensures forall k :: |r| <= k < |s| ==> s[k] == '='
  {
    if |s| % 4 == 0 && |s| >= 2 && s[|s| - 2] == '=' && s[|s| - 1] == '=' then s[..|s| - 2]
    else if |s| % 4 == 0 && |s| >= 1 && s[|s| - 1] == '=' then s[..|s| - 1]
    else s
  }

  /** The three bytes of four 6-bit groups. */
  function Ungroup(v0: int, v1: int, v2: int, v3: int): (r: seq<byte>)
    requires 0 <= v0 < 64 && 0 <= v1 < 64 && 0 <= v2 < 64 && 0 <= v3 < 64
    ensures |r| == 3
  {
    [v0 * 4 + v1 / 16, (v1 % 16) * 16 + v2 / 4, (v2 % 4) * 64 + v3]
  }

  /** Bytes from 6-bit groups; a last group of two or three keeps only its
      whole bytes and discards the leftover bits. */
  function Unsextets(vs: seq<int>): (r: seq<byte>)
    requires |vs| % 4 != 1
    requires forall k :: 0 <= k < |vs| ==> 0 <= vs[k] < 64
  {
    if |vs| == 0 then []
    else if |vs| == 2 then Ungroup(vs[0], vs[1], 0, 0)[..1]
    else if |vs| == 3 then Ungroup(vs[0], vs[1], vs[2], 0)[..2]
    else Ungroup(vs[0], vs[1], vs[2], vs[3]) + Unsextets(vs[4..])
  }

  function Values(s: string): (vs: seq<int>)
    requires forall k :: 0 <= k < |s| ==> IsAlphabet(s[k])
    ensures |vs| == |s| && forall k :: 0 <= k < |vs| ==> 0 <= vs[k] < 64 && vs[k] == SextetValue(s[k])
  {
    seq(|s|, k requires 0 <= k < |s| => SextetValue(s[k]))
  }

  /** `atob`: the decoded "binary string" (one character per byte), or None
      where atob throws InvalidCharacterError. */
  function Atob(s: string): (r: Option<string>)
    ensures r.Some? ==> forall k :: 0 <= k < |r.value| ==> r.value[k] as int <= 0xFF
  {
    var d := StripPadding(StripWhitespace(s));
    if |d| % 4 == 1 || exists k :: 0 <= k < |d| && !IsAlphabet(d[k]) then None
    else Some(BinaryString(Unsextets(Values(d))))
  }

  // ---------------------------------------------------------------------
  // The helpers of src/utils.ts

  /** `Array.from(bytes, x => String.fromCodePoint(x)).join("")`. */
  function BinaryString(bs: seq<byte>): (s: string)
    ensures |s| == |bs|
    ensures forall k :: 0 <= k < |s| ==> s[k] as int == bs[k]
  {
    seq(|bs|, k requires 0 <= k < |bs| => bs[k] as char)
  }

  /** `Uint8Array.from(binString, m => m.codePointAt(0))`: each code point,
      reduced modulo 256 as a Uint8Array store does. */
  function CodePoints(s: string): (bs: seq<byte>)
    ensures |bs| == |s|
    ensures forall k :: 0 <= k < |s| ==> bs[k] == s[k] as int % 256
  {
    seq(|s|, k requires 0 <= k < |s| => s[k] as int % 256)
  }

  /** `bytesToBase64`. */
  function BytesToBase64(bs: seq<byte>): (s: string)
    ensures Btoa(BinaryString(bs)) == Some(s)
    ensures s == Encode(bs)
  {
    var bin := BinaryString(bs);
    assert seq(|bin|, k requires 0 <= k < |bin| => bin[k] as int) == bs;
    Btoa(bin).value
  }

  /** `base64ToBytes`: None where `atob` throws. */
  function Base64ToBytes(s: string): (r: Option<seq<byte>>)
    ensures r.Some? <==> Atob(s).Some?
    ensures r.Some? ==> r.value == CodePoints(Atob(s).value)
  {
    match Atob(s)
    case None => None
    case Some(bin) => Some(CodePoints(bin))
  }

  /** `scanQrCode`: the scanned text is an input (None where the scanner
      throws); any failure becomes `undefined` rather than an exception. */
  function ScanQrCode(scanned: Option<string>): (r: Option<seq<byte>>)
    ensures scanned.None? ==> r.None?
    ensures scanned.Some? ==> r == Base64ToBytes(scanned.value)
  {
    match scanned
    case None => None
    case Some(text) => Base64ToBytes(text)
  }

  // ---------------------------------------------------------------------
  // Properties

  /** The encoding uses the base64 alphabet followed by at most two '='. */
  lemma EncodeAlphabet(bs: seq<byte>)
    ensures var s := Encode(bs); var body := |Sextets(bs)|;
      (forall k :: 0 <= k < body ==> IsAlphabet(s[k]))
      && (forall k :: body <= k < |s| ==> s[k] == '=')
      && |s| - body <= 2
  {
  }

  lemma StripWhitespaceNone(s: string)
    requires forall k :: 0 <= k < |s| ==> !IsAsciiWhitespace(s[k])
    ensures StripWhitespace(s) == s
  {
    if s != [] {
      StripWhitespaceNone(s[1..]);
    }
  }

  lemma {:induction false} UnsextetsSextets(bs: seq<byte>)
    ensures |Sextets(bs)| % 4 != 1
    ensures Unsextets(Sextets(bs)) == bs
    decreases |bs|
  {
    BodyLength(|bs|);
    if |bs| == 1 {
      GroupRoundTrip(bs[0], 0, 0);
    } else if |bs| == 2 {
      GroupRoundTrip(bs[0], bs[1], 0);
    } else if |bs| >= 3 {
      var vs := Sextets(bs);
      var g := Group(bs[0], bs[1], bs[2]);
      var tail := Sextets(bs[3..]);
      GroupRoundTrip(bs[0], bs[1], bs[2]);
      UnsextetsSextets(bs[3..]);
      assert vs == g + tail;
      assert vs[..4] == g && vs[4..] == tail;
      assert Unsextets(vs) == Ungroup(g[0], g[1], g[2], g[3]) + Unsextets(tail);
      assert bs == bs[..3] + bs[3..];
    }
  }

  /** Regrouping the groups of three bytes gives the bytes back, and each
      proper prefix of the groups gives the corresponding whole bytes. */
  lemma GroupRoundTrip(b0: byte, b1: byte, b2: byte)
    ensures var g := Group(b0, b1, b2);
      && Ungroup(g[0], g[1], g[2], g[3]) == [b0, b1, b2]
      && Ungroup(g[0], g[1], 0, 0)[..1] == [b0]
      && Ungroup(g[0], g[1], (b1 % 16) * 4, 0)[..2] == [b0, b1]
  {
    var hi0, lo0 := b0 / 4, b0 % 4;
    var hi1, lo1 := b1 / 16, b1 % 16;
    var hi2, lo2 := b2 / 64, b2 % 64;
    var g := Group(b0, b1, b2);
    assert g == [hi0, 16 * lo0 + hi1, 4 * lo1 + hi2, lo2];
    QuotRem(16, lo0, hi1);
    QuotRem(4, lo1, hi2);
    QuotRem(4, lo1, 0);
    QuotRem(16, lo0, 0);
    assert b0 == 4 * hi0 + lo0 && b1 == 16 * hi1 + lo1 && b2 == 64 * hi2 + lo2;
  }

  /** Division by a group size undoes a multiplication by it. */
  lemma QuotRem(k: nat, q: nat, r: nat)
    requires k == 4 || k == 16
    requires r < k
    ensures (k * q + r) / k == q && (k * q + r) % k == r
  {
    if k == 4 {
      assert (4 * q + r) / 4 == q;
    } else {
      assert (16 * q + r) / 16 == q;
    }
  }

  /** The number of body characters modulo four, by the input length
      modulo three. */
  lemma BodyLength(n: nat)
    ensures n % 3 == 0 ==> ((4 * n + 2) / 3) % 4 == 0
    ensures n % 3 == 1 ==> ((4 * n + 2) / 3) % 4 == 2
    ensures n % 3 == 2 ==> ((4 * n + 2) / 3) % 4 == 3
  {
    var q, r := n / 3, n % 3;
    assert n == 3 * q + r;
    assert 4 * n + 2 == 3 * (4 * q) + (4 * r + 2);
    assert (4 * n + 2) / 3 == 4 * q + (4 * r + 2) / 3;
  }

  /** Padding removal takes off exactly the padding the encoder added. */
  lemma StripPaddingEncode(bs: seq<byte>)
    ensures StripPadding(Encode(bs)) == Chars(Sextets(bs))
  {
    StripBody(Chars(Sextets(bs)), |bs|);
  }

  /** An alphabet body of the length the encoder gives n bytes, followed by
      their padding, loses exactly the padding. */
  lemma StripBody(body: string, n: nat)
    requires |body| == (4 * n + 2) / 3
    requires forall k :: 0 <= k < |body| ==> IsAlphabet(body[k])
    ensures StripPadding(body + Padding(n)) == body
  {
    BodyLength(n);
    var s := body + Padding(n);
    if n % 3 == 1 {
      assert s[|s| - 2] == '=' && s[|s| - 1] == '=';
      assert s[..|s| - 2] == body;
    } else if n % 3 == 2 {
      assert s[|s| - 2] == body[|body| - 1];
      assert IsAlphabet(body[|body| - 1]);
      assert s[..|s| - 1] == body;
    } else if |body| >= 1 {
      assert s == body;
      assert IsAlphabet(body[|body| - 1]);
    } else {
      assert s == body;
    }
  }

  /** `atob(btoa(x)) == x` for a binary string built from bytes. */
  lemma AtobEncode(bs: seq<byte>)
    ensures Atob(Encode(bs)) == Some(BinaryString(bs))
  {
    var s := Encode(bs);
    EncodeAlphabet(bs);
    StripWhitespaceNone(s);
    StripPaddingEncode(bs);
    UnsextetsSextets(bs);
    var d := Chars(Sextets(bs));
    assert Values(d) == Sextets(bs);
  }

  /** Reading the code points of a binary string gives its bytes back. */
  lemma CodePointsBinary(bs: seq<byte>)
    ensures CodePoints(BinaryString(bs)) == bs
  {
    var bin := BinaryString(bs);
    var cp := CodePoints(bin);
    forall k | 0 <= k < |bs| ensures cp[k] == bs[k] {
      assert bin[k] as int == bs[k];
    }
  }

  /** `base64ToBytes(bytesToBase64(b)) == b` for every byte sequence. */
  lemma Base64RoundTrip(bs: seq<byte>)
    ensures Base64ToBytes(BytesToBase64(bs)) == Some(bs)
  {
    AtobEncode(bs);
    CodePointsBinary(bs);
  }

  /** A character that is neither in the alphabet, nor '=', nor ASCII
      whitespace makes decoding fail, wherever it stands. */
  lemma InvalidCharacterFails(s: string, i: nat)
    requires i < |s| && !IsAlphabet(s[i]) && s[i] != '=' && !IsAsciiWhitespace(s[i])
    ensures Base64ToBytes(s) == None
  {
    var w := StripWhitespace(s);
    var j := KeptByStrip(s, i);
    var d := StripPadding(w);
    assert j < |d| && d[j] == s[i];
  }

  /** Where a non-whitespace character ends up after stripping whitespace. */
  lemma KeptByStrip(s: string, i: nat) returns (j: nat)
    requires i < |s| && !IsAsciiWhitespace(s[i])
    ensures j < |StripWhitespace(s)| && StripWhitespace(s)[j] == s[i]
  {
    if i == 0 {
      j := 0;
    } else {
      var j' := KeptByStrip(s[1..], i - 1);
      j := if IsAsciiWhitespace(s[0]) then j' else j' + 1;
    }
  }

  /** A length that leaves one character over is not base64. */
  lemma LengthOneMoreFails(s: string)
    requires forall k :: 0 <= k < |s| ==> IsAlphabet(s[k])
    requires |s| % 4 == 1
    ensures Base64ToBytes(s) == None
  {
    StripWhitespaceNone(s);
  }

  // ---------------------------------------------------------------------
  // Random colour

  const HexUpper := "0123456789ABCDEF"

  /** The colour that `getRandomColor` builds from six draws of
      `Math.floor(Math.random() * 16)`, given here as `draws`. */
  function ColorOf(draws: seq<nat>): (s: string)
    requires forall k :: 0 <= k < |draws| ==> draws[k] < 16
    ensures |s| == |draws| + 1 && s[0] == '#'
    ensures forall k :: 0 <= k < |draws| ==> s[k + 1] == HexUpper[draws[k]]
  {
    if draws == [] then "#" else ColorOf(draws[..|draws| - 1]) + [HexUpper[draws[|draws| - 1]]]
  }

  /** `getRandomColor`: '#' followed by six upper-case hexadecimal digits. */
  method GetRandomColor(draws: seq<nat>) returns (color: string)
    requires |draws| == 6 && forall k :: 0 <= k < 6 ==> draws[k] < 16
    ensures color == ColorOf(draws)
    ensures |color| == 7 && color[0] == '#'
    ensures forall k :: 1 <= k < 7 ==> color[k] in HexUpper
  {
    color := "#";
    for i := 0 to 6
      invariant color == ColorOf(draws[..i])
    {
      assert draws[..i + 1][..i] == draws[..i];
      color := color + [HexUpper[draws[i]]];
    }
    assert draws[..6] == draws;
    forall k | 1 <= k < 7 ensures color[k] in HexUpper {
      assert color[k] == HexUpper[draws[k - 1]];
    }
  }
}
