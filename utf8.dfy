/** UTF-8 as `toUtf8` (TextEncoder) and `fromUtf8` (TextDecoder in its
    default, non-fatal mode) of @ndn/util compute it. A Dafny `char` is a
    Unicode scalar value, so a string has no lone surrogates to replace. */
module Utf8 {
  import opened Bytes

  const Replacement: char := '�'
  const ByteOrderMark: char := '﻿'

  predicate IsContinuation(b: byte) { 0x80 <= b <= 0xBF }

  /** The encoding of one scalar value: one to four bytes. */
  function EncodeChar(c: char): (r: seq<byte>)
    ensures 1 <= |r| <= 4
    ensures (r[0] < 0x80) == (|r| == 1)
    ensures forall k :: 1 <= k < |r| ==> IsContinuation(r[k])
  {
    var cp := c as int;
    if cp < 0x80 then [cp]
    else if cp < 0x800 then [0xC0 + cp / 64, 0x80 + cp % 64]
    else if cp < 0x10000 then [0xE0 + cp / 4096, 0x80 + (cp / 64) % 64, 0x80 + cp % 64]
    else [0xF0 + cp / 262144, 0x80 + (cp / 4096) % 64, 0x80 + (cp / 64) % 64, 0x80 + cp % 64]
  }

  /** `toUtf8`: the concatenated encodings of the characters. */
  function ToUtf8(s: string): (r: seq<byte>)
    ensures |s| <= |r| <= 4 * |s|
  {
    if s == [] then [] else EncodeChar(s[0]) + ToUtf8(s[1..])
  }

  /** The decoder's state after a lead byte: how many continuation bytes it
      needs, and the bounds the first of them must lie within. A lead byte
      outside these ranges is an error by itself. */
  datatype LeadInfo = LeadInfo(need: nat, lower: byte, upper: byte)

  function Lead(b: byte): (r: LeadInfo)
    requires 0xC2 <= b <= 0xF4
    ensures 1 <= r.need <= 3 && 0x80 <= r.lower <= r.upper <= 0xBF
  {
    if b <= 0xDF then LeadInfo(1, 0x80, 0xBF)
    else if b == 0xE0 then LeadInfo(2, 0xA0, 0xBF)
    else if b == 0xED then LeadInfo(2, 0x80, 0x9F)
    else if b <= 0xEF then LeadInfo(2, 0x80, 0xBF)
    else if b == 0xF0 then LeadInfo(3, 0x90, 0xBF)
    else if b == 0xF4 then LeadInfo(3, 0x80, 0x8F)
    else LeadInfo(3, 0x80, 0xBF)
  }

  /** How many of the `need` continuation bytes at the front of `bs` the
      decoder accepts before it meets a byte out of range or the end. */
  function Accepted(bs: seq<byte>, need: nat, lower: byte, upper: byte): (k: nat)
    requires 0x80 <= lower && upper <= 0xBF
    ensures k <= need && k <= |bs|
    ensures forall j :: 0 <= j < k ==> IsContinuation(bs[j])
    ensures k < need ==> k == |bs| || !(if k == 0 then lower <= bs[0] <= upper else IsContinuation(bs[k]))
    ensures k > 0 ==> lower <= bs[0] <= upper
    decreases need
  {
    if need == 0 || bs == [] || !(lower <= bs[0] <= upper) then 0
    else
      var k' := Accepted(bs[1..], need - 1, 0x80, 0xBF);
      assert forall j :: 1 <= j < k' + 1 ==> bs[j] == bs[1..][j - 1];
      1 + k'
  }

  /** The scalar value of a complete, well-formed multi-byte sequence. */
  function Assemble(bs: seq<byte>): int
    requires 2 <= |bs| <= 4
  {
    var b := seq(|bs|, j requires 0 <= j < |bs| => bs[j] as int);
    if |bs| == 2 then (b[0] - 0xC0) * 64 + (b[1] - 0x80)
    else if |bs| == 3 then (b[0] - 0xE0) * 4096 + (b[1] - 0x80) * 64 + (b[2] - 0x80)
    else (b[0] - 0xF0) * 262144 + (b[1] - 0x80) * 4096 + (b[2] - 0x80) * 64 + (b[3] - 0x80)
  }

  /** The bounds on the first continuation byte rule out overlong forms,
      surrogates and values above U+10FFFF, so every accepted sequence is a
      scalar value. */
  lemma AssembleIsScalar(bs: seq<byte>)
    requires |bs| > 0 && 0xC2 <= bs[0] <= 0xF4 && |bs| == Lead(bs[0]).need + 1
    requires Accepted(bs[1..], Lead(bs[0]).need, Lead(bs[0]).lower, Lead(bs[0]).upper) == Lead(bs[0]).need
    ensures var cp := Assemble(bs); 0x80 <= cp < 0xD800 || 0xE000 <= cp < 0x110000
  {
    var li := Lead(bs[0]);
    assert li.lower <= bs[1] <= li.upper;
    forall j | 1 <= j < |bs| ensures IsContinuation(bs[j]) {
      assert bs[1..][j - 1] == bs[j];
    }
  }

  /** One step of the WHATWG UTF-8 decoder at the front of `bs`: the
      character it yields and how many bytes it consumes. A well-formed
      sequence yields its scalar value; an ill-formed one yields U+FFFD for
      its longest accepted part, and the byte that broke it is left to be
      decoded afresh. */
  function Step(bs: seq<byte>): (r: (char, nat))
    requires bs != []
    ensures 1 <= r.1 <= |bs|
  {
    if bs[0] < 0x80 then (bs[0] as char, 1)
    else if bs[0] < 0xC2 || bs[0] > 0xF4 then (Replacement, 1)
    else
      var li := Lead(bs[0]);
      var k := Accepted(bs[1..], li.need, li.lower, li.upper);
      if k == li.need then
        AssembleIsScalar(bs[..k + 1]);
        assert bs[..k + 1][1..] == bs[1..][..k];
        AcceptedPrefix(bs[1..], k, li.need, li.lower, li.upper);
        (Assemble(bs[..k + 1]) as char, k + 1)
      else (Replacement, k + 1)
  }

  /** The WHATWG UTF-8 decoder: one step after another. */
  function Decode(bs: seq<byte>): (s: string)
    ensures |s| <= |bs|
    decreases |bs|
  {
    if bs == [] then [] else [Step(bs).0] + Decode(bs[Step(bs).1..])
  }

  /** Acceptance depends only on the bytes it looks at. */
  lemma AcceptedPrefix(bs: seq<byte>, k: nat, need: nat, lower: byte, upper: byte)
    requires 0x80 <= lower && upper <= 0xBF
    requires k <= |bs| && Accepted(bs, need, lower, upper) == k
    ensures Accepted(bs[..k], need, lower, upper) == k
    decreases need
  {
    if need > 0 && bs != [] && lower <= bs[0] <= upper {
      assert bs[..k][1..] == bs[1..][..k - 1];
      AcceptedPrefix(bs[1..], k - 1, need - 1, 0x80, 0xBF);
    }
  }

  /** `fromUtf8`: decoding, with a leading byte order mark dropped as
      TextDecoder does by default. */
  function FromUtf8(bs: seq<byte>): (s: string)
    ensures |s| <= |bs|
  {
    var d := Decode(bs);
    if |d| > 0 && d[0] == ByteOrderMark then d[1..] else d
  }

  /** How Decode treats a well-formed multi-byte sequence at the front. */
  lemma StepWellFormed(bs: seq<byte>, cp: int)
    requires |bs| > 0 && 0xC2 <= bs[0] <= 0xF4
    requires |bs| > Lead(bs[0]).need
    requires Accepted(bs[1..], Lead(bs[0]).need, Lead(bs[0]).lower, Lead(bs[0]).upper) == Lead(bs[0]).need
    requires Assemble(bs[..Lead(bs[0]).need + 1]) == cp
    ensures 0 <= cp < 0xD800 || 0xE000 <= cp < 0x110000
    ensures Step(bs) == (cp as char, Lead(bs[0]).need + 1)
  {
    var n := Lead(bs[0]).need;
    assert bs[..n + 1][1..] == bs[1..][..n];
    AcceptedPrefix(bs[1..], n, n, Lead(bs[0]).lower, Lead(bs[0]).upper);
    AssembleIsScalar(bs[..n + 1]);
  }

  /** An encoded character followed by anything decodes to that character
      followed by the decoding of the rest. */
  lemma DecodeEncodeChar(c: char, rest: seq<byte>)
    ensures Decode(EncodeChar(c) + rest) == [c] + Decode(rest)
  {
    var cp := c as int;
    var bs := EncodeChar(c) + rest;
    if cp < 0x80 {
      assert bs[1..] == rest;
    } else if cp < 0x800 {
      Decode2(c, rest);
    } else if cp < 0x10000 {
      Decode3(c, rest);
    } else {
      Decode4(c, rest);
    }
  }

  /** A run of `need` bytes that fit the bounds is accepted whole. */
  lemma {:induction false} AcceptedFull(bs: seq<byte>, need: nat, lower: byte, upper: byte)
    requires 0x80 <= lower && upper <= 0xBF && need <= |bs|
    requires need > 0 ==> lower <= bs[0] <= upper
    requires forall j :: 1 <= j < need ==> IsContinuation(bs[j])
    ensures Accepted(bs, need, lower, upper) == need
    decreases need
  {
    if need > 0 {
      assert forall j :: 1 <= j < need - 1 ==> bs[1..][j] == bs[j + 1];
      AcceptedFull(bs[1..], need - 1, 0x80, 0xBF);
    }
  }

  /** The two bytes of a character in U+0080..U+07FF. */
  lemma Bytes2(cp: int)
    requires 0x80 <= cp < 0x800
    ensures var b0, b1 := 0xC0 + cp / 64, 0x80 + cp % 64;
      && 0xC2 <= b0 <= 0xDF && IsContinuation(b1)
      && Assemble([b0, b1]) == cp
  {
  }

  /** The three bytes of a character in U+0800..U+FFFF. */
  lemma Bytes3(cp: int)
    requires 0x800 <= cp < 0x10000 && !(0xD800 <= cp < 0xE000)
    ensures var b0, b1, b2 := 0xE0 + cp / 4096, 0x80 + (cp / 64) % 64, 0x80 + cp % 64;
      && 0xE0 <= b0 <= 0xEF && Lead(b0).lower <= b1 <= Lead(b0).upper && IsContinuation(b2)
      && Assemble([b0, b1, b2]) == cp
  {
    var q := cp / 64;
    assert cp == q * 64 + cp % 64;
    assert q == (cp / 4096) * 64 + q % 64;
  }

  /** The four bytes of a character in U+10000..U+10FFFF. */
  lemma Bytes4(cp: int)
    requires 0x10000 <= cp < 0x110000
    ensures var b0, b1, b2, b3 := 0xF0 + cp / 262144, 0x80 + (cp / 4096) % 64, 0x80 + (cp / 64) % 64, 0x80 + cp % 64;
      && 0xF0 <= b0 <= 0xF4 && Lead(b0).lower <= b1 <= Lead(b0).upper
      && IsContinuation(b2) && IsContinuation(b3)
      && Assemble([b0, b1, b2, b3]) == cp
  {
    var q := cp / 64;
    var q2 := cp / 4096;
    assert cp == q * 64 + cp % 64;
    assert q == q2 * 64 + q % 64;
    assert q2 == (cp / 262144) * 64 + q2 % 64;
    assert q / 64 == q2;
  }

  lemma Decode2(c: char, rest: seq<byte>)
    requires 0x80 <= c as int < 0x800
    ensures Decode(EncodeChar(c) + rest) == [c] + Decode(rest)
  {
    var cp := c as int;
    var b0, b1 := 0xC0 + cp / 64, 0x80 + cp % 64;
    Bytes2(cp);
    var bs := [b0, b1] + rest;
    assert EncodeChar(c) + rest == bs;
    AcceptedFull(bs[1..], 1, 0x80, 0xBF);
    assert bs[..2] == [b0, b1];
    StepWellFormed(bs, cp);
    assert bs[2..] == rest;
    assert Decode(bs) == [c] + Decode(bs[2..]);
  }

  lemma Decode3(c: char, rest: seq<byte>)
    requires 0x800 <= c as int < 0x10000
    ensures Decode(EncodeChar(c) + rest) == [c] + Decode(rest)
  {
    var cp := c as int;
    var b0, b1, b2 := 0xE0 + cp / 4096, 0x80 + (cp / 64) % 64, 0x80 + cp % 64;
    Bytes3(cp);
    var bs := [b0, b1, b2] + rest;
    assert EncodeChar(c) + rest == bs;
    var li := Lead(b0);
    AcceptedFull(bs[1..], 2, li.lower, li.upper);
    assert bs[..3] == [b0, b1, b2];
    StepWellFormed(bs, cp);
    assert bs[3..] == rest;
    assert Decode(bs) == [c] + Decode(bs[3..]);
  }

  lemma Decode4(c: char, rest: seq<byte>)
    requires 0x10000 <= c as int
    ensures Decode(EncodeChar(c) + rest) == [c] + Decode(rest)
  {
    var cp := c as int;
    var b0, b1, b2, b3 := 0xF0 + cp / 262144, 0x80 + (cp / 4096) % 64, 0x80 + (cp / 64) % 64, 0x80 + cp % 64;
    Bytes4(cp);
    var bs := [b0, b1, b2, b3] + rest;
    assert EncodeChar(c) + rest == bs;
    var li := Lead(b0);
    AcceptedFull(bs[1..], 3, li.lower, li.upper);
    assert bs[..4] == [b0, b1, b2, b3];
    StepWellFormed(bs, cp);
    assert bs[4..] == rest;
    assert Decode(bs) == [c] + Decode(bs[4..]);
  }

  /** Decoding undoes encoding. */
  lemma {:induction false} DecodeToUtf8(s: string)
    ensures Decode(ToUtf8(s)) == s
  {
    if s != [] {
      DecodeEncodeChar(s[0], ToUtf8(s[1..]));
      DecodeToUtf8(s[1..]);
    }
  }

  /** `fromUtf8(toUtf8(s)) == s` for every string that does not start with a
      byte order mark (TextDecoder drops a leading one). */
  lemma FromToUtf8(s: string)
    requires !(|s| > 0 && s[0] == ByteOrderMark)
    ensures FromUtf8(ToUtf8(s)) == s
  {
    DecodeToUtf8(s);
  }

  /** A leading byte order mark is lost on the way through. */
  lemma FromToUtf8Bom(s: string)
    requires |s| > 0 && s[0] == ByteOrderMark
    ensures FromUtf8(ToUtf8(s)) == s[1..]
  {
    DecodeToUtf8(s);
  }
}
