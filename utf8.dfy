/** UTF-8 as RFC 3629 defines it: the encoding `encodeURIComponent` applies
    before escaping, and the strict decoding that `decodeURIComponent`
    (section 19.2.6.5 of ECMA-262, step "valid UTF-8 encoding of a code
    point") and a UTF-8 `toString` apply to octets. */
module Utf8 {
  import opened Wrappers
  import opened Bytes

  predicate IsContinuation(b: byte) {
    0x80 <= b < 0xC0
  }

  /** How many octets a sequence starting with `b` has (the number of its
      leading one bits), or 0 when `b` cannot start a sequence. */
  function SequenceLength(b: byte): nat {
    if b < 0x80 then 1
    else if b < 0xC0 then 0
    else if b < 0xE0 then 2
    else if b < 0xF0 then 3
    else if b < 0xF8 then 4
    else 0
  }

  /** The smallest code point that needs `n` octets (shorter forms are overlong). */
  function MinCodePoint(n: nat): int {
    if n <= 1 then 0 else if n == 2 then 0x80 else if n == 3 then 0x800 else 0x1_0000
  }

  predicate IsScalar(cp: int) {
    0 <= cp < 0xD800 || 0xE000 <= cp < 0x11_0000
  }

  /** The octets of one character. */
  function EncodeChar(c: char): (bs: seq<byte>)
    ensures 1 <= |bs| <= 4 && SequenceLength(bs[0]) == |bs|
    ensures forall i :: 1 <= i < |bs| ==> IsContinuation(bs[i])
    ensures (|bs| == 1) == (c as int < 0x80)
  {
    var cp := c as int;
    if cp < 0x80 then [cp]
    else if cp < 0x800 then [0xC0 + cp / 64, 0x80 + cp % 64]
    else if cp < 0x1_0000 then [0xE0 + cp / 64 / 64, 0x80 + cp / 64 % 64, 0x80 + cp % 64]
    else [0xF0 + cp / 64 / 64 / 64, 0x80 + cp / 64 / 64 % 64, 0x80 + cp / 64 % 64, 0x80 + cp % 64]
  }

  /** The code point a well-formed lead octet and its continuations spell:
      six payload bits per continuation octet. */
  function Assemble(bs: seq<byte>): int
    requires 1 <= |bs| <= 4
  {
    if |bs| == 1 then bs[0]
    else if |bs| == 2 then (bs[0] as int - 0xC0) * 64 + (bs[1] as int - 0x80)
    else if |bs| == 3 then ((bs[0] as int - 0xE0) * 64 + (bs[1] as int - 0x80)) * 64 + (bs[2] as int - 0x80)
    else (((bs[0] as int - 0xF0) * 64 + (bs[1] as int - 0x80)) * 64 + (bs[2] as int - 0x80)) * 64 + (bs[3] as int - 0x80)
  }

  /** Decodes exactly one character from exactly the octets given. Overlong
      forms, surrogates and code points above U+10FFFF are refused, so only
      the shortest encoding of a character is accepted. */
  function DecodeChar(bs: seq<byte>): (r: Option<char>)
    ensures r.Some? ==> EncodeChar(r.value) == bs
  {
    if |bs| == 0 || SequenceLength(bs[0]) != |bs| then None
    else if exists i :: 1 <= i < |bs| && !IsContinuation(bs[i]) then None
    else
      var cp := Assemble(bs);
      if cp < MinCodePoint(|bs|) || !IsScalar(cp) then None
      else
        EncodeAssembled(bs);
        Some(cp as char)
  }

  lemma Sextet(q: int, r: int)
    requires 0 <= r < 64
    ensures (q * 64 + r) / 64 == q && (q * 64 + r) % 64 == r
  {
  }

  lemma EncodeAssembled(bs: seq<byte>)
    requires 1 <= |bs| <= 4 && SequenceLength(bs[0]) == |bs|
    requires forall i :: 1 <= i < |bs| ==> IsContinuation(bs[i])
    requires MinCodePoint(|bs|) <= Assemble(bs) && IsScalar(Assemble(bs))
    ensures EncodeChar(Assemble(bs) as char) == bs
  {
    if |bs| == 2 {
      EncodeTwo(bs[0], bs[1]);
      assert bs == [bs[0], bs[1]];
    } else if |bs| == 3 {
      EncodeThree(bs[0], bs[1], bs[2]);
      assert bs == [bs[0], bs[1], bs[2]];
    } else if |bs| == 4 {
      EncodeFour(bs[0], bs[1], bs[2], bs[3]);
      assert bs == [bs[0], bs[1], bs[2], bs[3]];
    }
  }

  lemma EncodeTwo(b0: byte, b1: byte)
    requires 0xC0 <= b0 < 0xE0 && IsContinuation(b1)
    requires 0x80 <= Assemble([b0, b1])
    ensures EncodeChar(Assemble([b0, b1]) as char) == [b0, b1]
  {
    Sextet(b0 as int - 0xC0, b1 as int - 0x80);
  }

  lemma EncodeThree(b0: byte, b1: byte, b2: byte)
    requires 0xE0 <= b0 < 0xF0 && IsContinuation(b1) && IsContinuation(b2)
    requires 0x800 <= Assemble([b0, b1, b2]) && IsScalar(Assemble([b0, b1, b2]))
    ensures EncodeChar(Assemble([b0, b1, b2]) as char) == [b0, b1, b2]
  {
    var hi := (b0 as int - 0xE0) * 64 + (b1 as int - 0x80);
    Sextet(hi, b2 as int - 0x80);
    Sextet(b0 as int - 0xE0, b1 as int - 0x80);
  }

  lemma EncodeFour(b0: byte, b1: byte, b2: byte, b3: byte)
    requires 0xF0 <= b0 < 0xF8 && IsContinuation(b1) && IsContinuation(b2) && IsContinuation(b3)
    requires 0x1_0000 <= Assemble([b0, b1, b2, b3]) && IsScalar(Assemble([b0, b1, b2, b3]))
    ensures EncodeChar(Assemble([b0, b1, b2, b3]) as char) == [b0, b1, b2, b3]
  {
    var top := (b0 as int - 0xF0) * 64 + (b1 as int - 0x80);
    var hi := top * 64 + (b2 as int - 0x80);
    Sextet(hi, b3 as int - 0x80);
    Sextet(top, b2 as int - 0x80);
    Sextet(b0 as int - 0xF0, b1 as int - 0x80);
  }

  lemma {:induction false} DecodeEncodeChar(c: char)
    ensures DecodeChar(EncodeChar(c)) == Some(c)
  {
    var cp := c as int;
    var bs := EncodeChar(c);
    if cp < 0x80 {
    } else if cp < 0x800 {
      assert Assemble(bs) == cp;
    } else if cp < 0x1_0000 {
      assert cp / 64 == cp / 64 / 64 * 64 + cp / 64 % 64;
      assert Assemble(bs) == cp;
    } else {
      assert cp / 64 / 64 == cp / 64 / 64 / 64 * 64 + cp / 64 / 64 % 64;
      assert cp / 64 == cp / 64 / 64 * 64 + cp / 64 % 64;
      assert Assemble(bs) == cp;
    }
  }

  /** The octets of a string: its characters' encodings, in order. */
  function Encode(s: string): (bs: seq<byte>)
    ensures |bs| >= |s|
  {
    if s == [] then [] else EncodeChar(s[0]) + Encode(s[1..])
  }

  /** Strict decoding of a whole octet sequence. */
  function Decode(bs: seq<byte>): (r: Option<string>)
    ensures r.Some? ==> Encode(r.value) == bs
    decreases |bs|
  {
    if bs == [] then Some([])
    else
      var n := SequenceLength(bs[0]);
      if n == 0 || n > |bs| then None
      else match DecodeChar(bs[..n])
        case None => None
        case Some(c) =>
          match Decode(bs[n..])
          case None => None
          case Some(rest) =>
            EncodeJoin(bs, n, c, rest);
            Some([c] + rest)
  }

  /** A character's octets followed by the rest's octets are the octets of both. */
  lemma EncodeJoin(bs: seq<byte>, n: nat, c: char, rest: string)
    requires n <= |bs| && EncodeChar(c) == bs[..n] && Encode(rest) == bs[n..]
    ensures Encode([c] + rest) == bs
  {
    assert ([c] + rest)[1..] == rest;
    assert bs == bs[..n] + bs[n..];
  }

  lemma {:induction false} DecodeEncode(s: string)
    ensures Decode(Encode(s)) == Some(s)
  {
    if s != [] {
      var head := EncodeChar(s[0]);
      var bs := Encode(s);
      assert bs == head + Encode(s[1..]);
      assert bs[..|head|] == head && bs[|head|..] == Encode(s[1..]);
      DecodeEncodeChar(s[0]);
      DecodeEncode(s[1..]);
      assert [s[0]] + s[1..] == s;
    }
  }

  /** For ASCII text the UTF-8 octets are the character codes. */
  lemma {:induction false} EncodeAscii(s: string)
    requires forall i :: 0 <= i < |s| ==> s[i] as int < 0x80
    ensures IsBinary(s) && Encode(s) == Latin1Bytes(s)
  {
    if s != [] {
      EncodeAscii(s[1..]);
      assert Latin1Bytes(s) == [s[0] as int] + Latin1Bytes(s[1..]);
    }
  }
}
