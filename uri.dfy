/** Percent-encoding as JavaScript's URI functions apply it (section 2.1 of
    RFC 3986; `decodeURIComponent` and `encodeURIComponent`, sections
    19.2.6.2 and 19.2.6.3 of ECMA-262, through the Decode and Encode
    abstract operations). Strings are sequences of code points. */
module Uri {
  import opened Wrappers
  import opened Bytes
  import Utf8

  function HexValue(c: char): (r: Option<int>)
    ensures r.Some? ==> 0 <= r.value < 16
  {
    if '0' <= c <= '9' then Some(c as int - '0' as int)
    else if 'A' <= c <= 'F' then Some(c as int - 'A' as int + 10)
    else if 'a' <= c <= 'f' then Some(c as int - 'a' as int + 10)
    else None
  }

  /** The upper-case hexadecimal digit for `v`, as Encode writes escapes. */
  function HexDigit(v: int): char
    requires 0 <= v < 16
  {
    if v < 10 then ('0' as int + v) as char else ('A' as int + v - 10) as char
  }

  lemma HexValueDigit(v: int)
    requires 0 <= v < 16
    ensures HexValue(HexDigit(v)) == Some(v)
  {
  }

  /** The octet that a "%XY" escape at the start of `s` stands for. */
  function Escape(s: string): (r: Option<byte>)
  {
    if |s| < 3 || s[0] != '%' then None
    else
      match (HexValue(s[1]), HexValue(s[2]))
      case (Some(hi), Some(lo)) => Some(hi * 16 + lo)
      case _ => None
  }

  /** `n` consecutive escapes at the start of `s`. */
  function Escapes(s: string, n: nat): (r: Option<seq<byte>>)
    ensures r.Some? ==> |r.value| == n && 3 * n <= |s|
  {
    if n == 0 then Some([])
    else
      match Escape(s)
      case None => None
      case Some(b) =>
        match Escapes(s[3..], n - 1)
        case None => None
        case Some(bs) => Some([b] + bs)
  }

  function Prepend(c: char, r: Option<string>): Option<string> {
    match r
    case None => None
    case Some(t) => Some([c] + t)
  }

  /** `decodeURIComponent`: every escape is decoded (the reserved set is
      empty); an escape of an octet from 0x80 up opens a UTF-8 sequence whose
      remaining octets must follow as escapes; None stands for the URIError
      thrown on a truncated or non-hexadecimal escape or on octets that are not
      the UTF-8 encoding of one code point. */
  function DecodeComponent(s: string): (r: Option<string>)
    ensures r.Some? ==> |r.value| <= |s|
    ensures (forall i :: 0 <= i < |s| ==> s[i] != '%') ==> r == Some(s)
    decreases |s|
  {
    if s == [] then Some([])
    else if s[0] != '%' then
      assert [s[0]] + s[1..] == s;
      Prepend(s[0], DecodeComponent(s[1..]))
    else
      match Escape(s)
      case None => None
      case Some(b) =>
        if b < 0x80 then Prepend(b as char, DecodeComponent(s[3..]))
        else
          var n := Utf8.SequenceLength(b);
          if n < 2 then None
          else
            match Escapes(s, n)
            case None => None
            case Some(octets) =>
              match Utf8.DecodeChar(octets)
              case None => None
              case Some(c) => Prepend(c, DecodeComponent(s[3 * n..]))
  }

  /** The characters `encodeURIComponent` leaves as they are. */
  predicate IsUnreserved(c: char) {
    'A' <= c <= 'Z' || 'a' <= c <= 'z' || '0' <= c <= '9' || c in "-_.!~*'()"
  }

  predicate IsAscii(s: string) {
    forall i :: 0 <= i < |s| ==> s[i] as int < 0x80
  }

  /** The "%XY" escape of one octet. */
  function PercentOf(b: byte): (s: string)
    ensures |s| == 3 && s[0] == '%' && IsAscii(s)
    ensures forall i :: 0 <= i < |s| ==> IsUnreserved(s[i]) || s[i] == '%'
  {
    ['%', HexDigit(b / 16), HexDigit(b % 16)]
  }

  function EscapeOctets(bs: seq<byte>): (s: string)
    ensures |s| == 3 * |bs| && IsAscii(s)
    ensures forall i :: 0 <= i < |s| ==> IsUnreserved(s[i]) || s[i] == '%'
  {
    if bs == [] then "" else PercentOf(bs[0]) + EscapeOctets(bs[1..])
  }

  function EncodeChar(c: char): (s: string)
    ensures IsAscii(s) && |s| >= 1
    ensures forall i :: 0 <= i < |s| ==> IsUnreserved(s[i]) || s[i] == '%'
  {
    if IsUnreserved(c) then [c] else EscapeOctets(Utf8.EncodeChar(c))
  }

  /** `encodeURIComponent`: the encoder whose output the decoder inverts. */
  function EncodeComponent(s: string): (r: string)
    ensures IsAscii(r) && |r| >= |s|
    ensures forall i :: 0 <= i < |r| ==> IsUnreserved(r[i]) || r[i] == '%'
  {
    if s == [] then "" else EncodeChar(s[0]) + EncodeComponent(s[1..])
  }

  lemma EscapeOf(b: byte, rest: string)
    ensures Escape(PercentOf(b) + rest) == Some(b)
  {
    HexValueDigit(b / 16);
    HexValueDigit(b % 16);
  }

  lemma EscapesStep(b: byte, more: seq<byte>, t: string)
    requires Escapes(t, |more|) == Some(more)
    ensures Escapes(PercentOf(b) + t, |more| + 1) == Some([b] + more)
  {
    var s := PercentOf(b) + t;
    EscapeOf(b, t);
    assert s[3..] == t;
  }

  lemma EscapeOctetsCons(bs: seq<byte>, rest: string)
    requires bs != []
    ensures EscapeOctets(bs) + rest == PercentOf(bs[0]) + (EscapeOctets(bs[1..]) + rest)
  {
  }

  lemma {:induction false} EscapesOf(bs: seq<byte>, rest: string)
    ensures Escapes(EscapeOctets(bs) + rest, |bs|) == Some(bs)
  {
    if bs != [] {
      var t := EscapeOctets(bs[1..]) + rest;
      EscapesOf(bs[1..], rest);
      EscapesStep(bs[0], bs[1..], t);
      EscapeOctetsCons(bs, rest);
      assert [bs[0]] + bs[1..] == bs;
    }
  }

  lemma DecodeEncodeChar(c: char, rest: string)
    ensures DecodeComponent(EncodeChar(c) + rest) == Prepend(c, DecodeComponent(rest))
  {
    var s := EncodeChar(c) + rest;
    if IsUnreserved(c) {
      assert s[0] == c && s[1..] == rest;
    } else {
      var bs := Utf8.EncodeChar(c);
      var n := |bs|;
      assert s == EscapeOctets(bs) + rest;
      assert s[..3] == PercentOf(bs[0]);
      EscapeOf(bs[0], s[3..]);
      assert s == s[..3] + s[3..];
      Utf8.DecodeEncodeChar(c);
      if n == 1 {
        assert s[3..] == rest;
      } else {
        EscapesOf(bs, rest);
        assert s[3 * n..] == rest;
      }
    }
  }

  lemma {:induction false} DecodeEncode(s: string)
    ensures DecodeComponent(EncodeComponent(s)) == Some(s)
  {
    if s != [] {
      DecodeEncodeChar(s[0], EncodeComponent(s[1..]));
      DecodeEncode(s[1..]);
      assert [s[0]] + s[1..] == s;
    }
  }
}
