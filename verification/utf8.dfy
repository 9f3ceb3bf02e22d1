/** UTF-8 as the program uses it: `str.encode("utf-8")` for outgoing commands
    and `bytes.decode("utf-8", errors="ignore")` for incoming lines.

    Well-formed sequences are those of Table 3-7 of The Unicode Standard
    (section 3.9). With `errors="ignore"` the decoder drops every byte that
    cannot start a well-formed sequence and resumes at the next byte; dropping
    one byte at a time gives the same text as dropping each maximal ill-formed
    subpart at once, because the remaining bytes of such a subpart are
    continuation bytes, which never start a sequence. */
module Utf8 {

  type byte = b: int | 0 <= b < 0x100

  predicate IsContinuation(b: byte) {
    0x80 <= b <= 0xBF
  }

  /** The length of the well-formed sequence at the front of `bs`, or 0 when
      none starts there. */
  function SequenceLength(bs: seq<byte>): (n: nat)
    ensures n <= 4 && n <= |bs|
    ensures n == 1 <==> |bs| > 0 && bs[0] < 0x80
    ensures n > 1 ==> forall k :: 0 <= k < n ==> bs[k] >= 0x80
  {
    if |bs| == 0 then 0
    else
      var b0 := bs[0];
      if b0 < 0x80 then 1
      else if 0xC2 <= b0 <= 0xDF then
        if |bs| >= 2 && IsContinuation(bs[1]) then 2 else 0
      else if 0xE0 <= b0 <= 0xEF then
        var lo := if b0 == 0xE0 then 0xA0 else 0x80;
        var hi := if b0 == 0xED then 0x9F else 0xBF;
        if |bs| >= 3 && lo <= bs[1] <= hi && IsContinuation(bs[2]) then 3 else 0
      else if 0xF0 <= b0 <= 0xF4 then
        var lo := if b0 == 0xF0 then 0x90 else 0x80;
        var hi := if b0 == 0xF4 then 0x8F else 0xBF;
        if |bs| >= 4 && lo <= bs[1] <= hi && IsContinuation(bs[2]) && IsContinuation(bs[3]) then 4
        else 0
      else 0
  }

  /** The code point a well-formed sequence stands for: always a Unicode
      scalar value, and below 0x80 exactly for one-byte sequences. */
  function CodePoint(bs: seq<byte>): (cp: int)
    requires SequenceLength(bs) > 0
    ensures 0 <= cp < 0xD800 || 0xE000 <= cp < 0x11_0000
    ensures cp < 0x80 <==> SequenceLength(bs) == 1
  {
    var n := SequenceLength(bs);
    var b0: int := bs[0];
    if n == 1 then b0
    else
      var b1: int := bs[1];
      if n == 2 then (b0 - 0xC0) * 0x40 + (b1 - 0x80)
      else
        var b2: int := bs[2];
        if n == 3 then (b0 - 0xE0) * 0x1000 + (b1 - 0x80) * 0x40 + (b2 - 0x80)
        else
          var b3: int := bs[3];
          (b0 - 0xF0) * 0x4_0000 + (b1 - 0x80) * 0x1000 + (b2 - 0x80) * 0x40 + (b3 - 0x80)
  }

  /** `bytes.decode("utf-8", errors="ignore")`. Every ASCII character of the
      text is one of the input bytes; a multi-byte sequence never yields one. */
  function Decode(bs: seq<byte>): (s: string)
    ensures |s| <= |bs|
    ensures forall c :: c in s && c as int < 0x80 ==> c as int in bs
    decreases |bs|
  {
    if bs == [] then []
    else
      var n := SequenceLength(bs);
      if n == 0 then
        var rest := Decode(bs[1..]);
        assert forall b :: b in bs[1..] ==> b in bs;
        rest
      else
        var rest := Decode(bs[n..]);
        assert forall b :: b in bs[n..] ==> b in bs;
        [CodePoint(bs) as char] + rest
  }

  /** `c.encode("utf-8")` for one character. */
  function EncodeChar(c: char): (bs: seq<byte>)
    ensures 1 <= |bs| <= 4
    ensures c as int < 0x80 ==> bs == [c as int]
    ensures c as int >= 0x80 ==> forall k :: 0 <= k < |bs| ==> bs[k] >= 0x80
  {
    var cp := c as int;
    if cp < 0x80 then [cp]
    else if cp < 0x800 then [0xC0 + cp / 0x40, 0x80 + cp % 0x40]
    else if cp < 0x1_0000 then
      [0xE0 + cp / 0x1000, 0x80 + (cp / 0x40) % 0x40, 0x80 + cp % 0x40]
    else
      [0xF0 + cp / 0x4_0000, 0x80 + (cp / 0x1000) % 0x40, 0x80 + (cp / 0x40) % 0x40, 0x80 + cp % 0x40]
  }

  /** `s.encode("utf-8")`. */
  function Encode(s: string): (bs: seq<byte>)
    ensures |bs| >= |s|
    decreases |s|
  {
    if s == [] then [] else EncodeChar(s[0]) + Encode(s[1..])
  }

  /** The encoding of a character is one well-formed sequence standing for it. */
  lemma EncodeCharWellFormed(c: char)
    ensures SequenceLength(EncodeChar(c)) == |EncodeChar(c)|
    ensures CodePoint(EncodeChar(c)) == c as int
  {
    var cp := c as int;
    if cp < 0x80 {
    } else if cp < 0x800 {
      EncodeTwo(cp);
    } else if cp < 0x1_0000 {
      EncodeThree(cp);
    } else {
      EncodeFour(cp);
    }
  }

  lemma EncodeTwo(cp: int)
    requires 0x80 <= cp < 0x800
    ensures var e: seq<byte> := [0xC0 + cp / 0x40, 0x80 + cp % 0x40];
      SequenceLength(e) == 2 && CodePoint(e) == cp
  {
    Split64(cp);
  }

  lemma EncodeThree(cp: int)
    requires 0x800 <= cp < 0xD800 || 0xE000 <= cp < 0x1_0000
    ensures var e: seq<byte> := [0xE0 + cp / 0x1000, 0x80 + (cp / 0x40) % 0x40, 0x80 + cp % 0x40];
      SequenceLength(e) == 3 && CodePoint(e) == cp
  {
    Split64(cp);
    Split64(cp / 0x40);
    assert cp / 0x1000 == (cp / 0x40) / 0x40;
  }

  lemma EncodeFour(cp: int)
    requires 0x1_0000 <= cp < 0x11_0000
    ensures var e: seq<byte> := [0xF0 + cp / 0x4_0000, 0x80 + (cp / 0x1000) % 0x40, 0x80 + (cp / 0x40) % 0x40, 0x80 + cp % 0x40];
      SequenceLength(e) == 4 && CodePoint(e) == cp
  {
    Split64(cp);
    Split64(cp / 0x40);
    Split64(cp / 0x1000);
    assert cp / 0x1000 == (cp / 0x40) / 0x40;
    assert cp / 0x4_0000 == (cp / 0x1000) / 0x40;
  }

  lemma Split64(x: nat)
    ensures x == (x / 0x40) * 0x40 + x % 0x40
    ensures 0 <= x % 0x40 < 0x40
  {
  }

  /** What follows a well-formed sequence does not change how it decodes. */
  lemma SequenceExtends(bs: seq<byte>, rest: seq<byte>)
    requires SequenceLength(bs) == |bs| > 0
    ensures SequenceLength(bs + rest) == |bs|
    ensures CodePoint(bs + rest) == CodePoint(bs)
  {
    var t := bs + rest;
    assert forall k :: 0 <= k < |bs| ==> t[k] == bs[k];
  }

  /** Decoding the encoding of a character, then more bytes. */
  lemma DecodeEncodeChar(c: char, rest: seq<byte>)
    ensures Decode(EncodeChar(c) + rest) == [c] + Decode(rest)
  {
    var e := EncodeChar(c);
    EncodeCharWellFormed(c);
    SequenceExtends(e, rest);
    assert (e + rest)[|e|..] == rest;
  }

  /** Decoding undoes encoding: every string survives the round trip. */
  lemma {:induction false} DecodeEncode(s: string)
    ensures Decode(Encode(s)) == s
    decreases |s|
  {
    if s != [] {
      DecodeEncodeChar(s[0], Encode(s[1..]));
      DecodeEncode(s[1..]);
      assert [s[0]] + s[1..] == s;
    }
  }

  /** The encoding of a text holds the byte of an ASCII character exactly when
      the text holds that character. */
  lemma {:induction false} EncodeAscii(s: string, c: char)
    requires c as int < 0x80
    ensures c as int in Encode(s) <==> c in s
    decreases |s|
  {
    if s != [] {
      EncodeAscii(s[1..], c);
      var e := EncodeChar(s[0]);
      assert Encode(s) == e + Encode(s[1..]);
      if s[0] as int < 0x80 {
        assert c as int in e <==> c == s[0];
      } else {
        assert c as int !in e;
      }
      assert c in s <==> c == s[0] || c in s[1..];
    }
  }
}
