/** The base 64 encoding of section 4 of RFC 4648 (standard alphabet, padding
    with '='), and the "forgiving-base64 decode" of the WHATWG Infra standard,
    which is what `atob` runs: ASCII white space is dropped, padding is
    optional, and the leftover bits of a short final group are ignored. */
module Base64 {
  import opened Wrappers
  import opened Bytes

  /** The character for a 6-bit value (table 1 of RFC 4648). */
  function Char(v: int): (c: char)
    requires 0 <= v < 64
  {
    if v < 26 then ('A' as int + v) as char
    else if v < 52 then ('a' as int + v - 26) as char
    else if v < 62 then ('0' as int + v - 52) as char
    else if v == 62 then '+'
    else '/'
  }

  /** The 6-bit value of an alphabet character; None for '=' and every other character. */
  function Value(c: char): (r: Option<int>)
    ensures r.Some? ==> 0 <= r.value < 64 && Char(r.value) == c
  {
    if 'A' <= c <= 'Z' then Some(c as int - 'A' as int)
    else if 'a' <= c <= 'z' then Some(c as int - 'a' as int + 26)
    else if '0' <= c <= '9' then Some(c as int - '0' as int + 52)
    else if c == '+' then Some(62)
    else if c == '/' then Some(63)
    else None
  }

  /** Every alphabet character lies above white space and differs from '='. */
  lemma CharRange(v: int)
    requires 0 <= v < 64
    ensures Char(v) as int >= 43 && Char(v) != '='
  {
  }

  lemma ValueChar(v: int)
    requires 0 <= v < 64
    ensures Value(Char(v)) == Some(v)
  {
  }

  predicate IsSextets(vs: seq<int>) {
    forall i :: 0 <= i < |vs| ==> 0 <= vs[i] < 64
  }

  /** `q * d + r` with `r < d` has quotient `q` and remainder `r`. */
  lemma Split(q: int, r: int, d: int)
    requires d == 3 || d == 4 || d == 16 || d == 64
    requires 0 <= r < d
    ensures (q * d + r) / d == q && (q * d + r) % d == r
  {
    if d == 3 {
      assert q * d + r == q * 3 + r;
    } else if d == 4 {
      assert q * d + r == q * 4 + r;
    } else if d == 16 {
      assert q * d + r == q * 16 + r;
    } else {
      assert q * d + r == q * 64 + r;
    }
  }

  /** Regrouping three octets into four sextets loses nothing. */
  lemma OctetsToSextets(b0: byte, b1: byte, b2: byte)
    ensures var c1 := b0 % 4 * 16 + b1 / 16;
            var c2 := b1 % 16 * 4 + b2 / 64;
            b0 / 4 * 4 + c1 / 16 == b0 && c1 % 16 * 16 + c2 / 4 == b1 && c2 % 4 * 64 + b2 % 64 == b2
  {
    Split(b0 % 4, b1 / 16, 16);
    Split(b1 % 16, b2 / 64, 4);
  }

  /** Regrouping four sextets into three octets loses nothing. */
  lemma SextetsToOctets(c0: int, c1: int, c2: int, c3: int)
    requires 0 <= c0 < 64 && 0 <= c1 < 64 && 0 <= c2 < 64 && 0 <= c3 < 64
    ensures var b0 := c0 * 4 + c1 / 16;
            var b1 := c1 % 16 * 16 + c2 / 4;
            var b2 := c2 % 4 * 64 + c3;
            b0 / 4 == c0 && b0 % 4 * 16 + b1 / 16 == c1 && b1 % 16 * 4 + b2 / 64 == c2 && b2 % 64 == c3
  {
    Split(c0, c1 / 16, 4);
    Split(c1 % 16, c2 / 4, 16);
    Split(c2 % 4, c3, 64);
  }

  /** The 6-bit groups of `bs`, most significant bits first; a final one or
      two octets are filled up with zero bits to two or three groups. */
  function Sextets(bs: seq<byte>): (vs: seq<int>)
    ensures IsSextets(vs) && |vs| % 4 != 1
    ensures |vs| == (|bs| * 4 + 2) / 3
  {
    if |bs| == 0 then []
    else if |bs| == 1 then [bs[0] / 4, bs[0] % 4 * 16]
    else if |bs| == 2 then [bs[0] / 4, bs[0] % 4 * 16 + bs[1] / 16, bs[1] % 16 * 4]
    else Group(bs[0], bs[1], bs[2]) + Sextets(bs[3..])
  }

  /** Three octets as four sextets. */
  function Group(b0: byte, b1: byte, b2: byte): (vs: seq<int>)
    ensures |vs| == 4 && IsSextets(vs)
  {
    [b0 / 4, b0 % 4 * 16 + b1 / 16, b1 % 16 * 4 + b2 / 64, b2 % 64]
  }

  /** Four sextets as three octets. */
  function Ungroup(c0: int, c1: int, c2: int, c3: int): (bs: seq<byte>)
    requires 0 <= c0 < 64 && 0 <= c1 < 64 && 0 <= c2 < 64 && 0 <= c3 < 64
    ensures |bs| == 3
  {
    [c0 * 4 + c1 / 16, c1 % 16 * 16 + c2 / 4, c2 % 4 * 64 + c3]
  }

  function Chars(vs: seq<int>): (s: string)
    requires IsSextets(vs)
    ensures |s| == |vs| && forall i :: 0 <= i < |vs| ==> s[i] == Char(vs[i])
  {
    seq(|vs|, i requires 0 <= i < |vs| => Char(vs[i]))
  }

  /** The '=' characters that fill the last group up to four characters. */
  function Padding(n: nat): string {
    if n % 3 == 1 then "==" else if n % 3 == 2 then "=" else ""
  }

  function Encode(bs: seq<byte>): (s: string)
    ensures |s| == (|bs| + 2) / 3 * 4
  {
    EncodedLength(|bs|);
    Chars(Sextets(bs)) + Padding(|bs|)
  }

  /** The sextets and the padding of `n` octets fill whole groups of four. */
  lemma EncodedLength(n: nat)
    ensures (n * 4 + 2) / 3 + |Padding(n)| == (n + 2) / 3 * 4
  {
    var q := n / 3;
    var r := n % 3;
    assert n == q * 3 + r;
    if r == 0 {
      Split(q * 4, 2, 3);
      Split(q, 2, 3);
      assert n * 4 + 2 == q * 4 * 3 + 2 && n + 2 == q * 3 + 2;
    } else if r == 1 {
      Split(q * 4 + 2, 0, 3);
      Split(q + 1, 0, 3);
      assert n * 4 + 2 == (q * 4 + 2) * 3 && n + 2 == (q + 1) * 3;
    } else {
      Split(q * 4 + 3, 1, 3);
      Split(q + 1, 1, 3);
      assert n * 4 + 2 == (q * 4 + 3) * 3 + 1 && n + 2 == (q + 1) * 3 + 1;
    }
  }

  /** ASCII white space as the Infra standard defines it. */
  predicate IsAsciiWhitespace(c: char) {
    c == '\t' || c == '\n' || c == '\U{000C}' || c == '\r' || c == ' '
  }

  /** Step 1: every ASCII white space character removed. */
  function RemoveWhitespace(s: string): (r: string)
    ensures |r| <= |s|
    ensures forall i :: 0 <= i < |r| ==> !IsAsciiWhitespace(r[i])
    ensures (forall i :: 0 <= i < |s| ==> !IsAsciiWhitespace(s[i])) ==> r == s
  {
    if s == [] then []
    else if IsAsciiWhitespace(s[0]) then RemoveWhitespace(s[1..])
    else [s[0]] + RemoveWhitespace(s[1..])
  }

  /** Step 2: when the length is a multiple of four, one or two final '='
      are removed. */
  function StripPadding(d: string): (r: string)
    ensures |d| % 4 != 0 ==> r == d
    ensures |d| - 2 <= |r| <= |d| && r == d[..|r|]
    ensures forall i :: |r| <= i < |d| ==> d[i] == '='
  {
    if |d| % 4 == 0 && |d| >= 2 && d[|d| - 2] == '=' && d[|d| - 1] == '=' then d[..|d| - 2]
    else if |d| % 4 == 0 && |d| >= 1 && d[|d| - 1] == '=' then d[..|d| - 1]
    else d
  }

  /** Step 4: the value of every character, or None when one is outside the alphabet. */
  function Values(d: string): (r: Option<seq<int>>)
    ensures r.Some? ==> |r.value| == |d| && forall i :: 0 <= i < |d| ==> 0 <= r.value[i] < 64 && Char(r.value[i]) == d[i]
    ensures r.None? ==> exists i :: 0 <= i < |d| && Value(d[i]).None?
  {
    if d == [] then Some([])
    else
      match (Value(d[0]), Values(d[1..]))
      case (Some(v), Some(vs)) => Some([v] + vs)
      case (None, _) => None
      case (_, None) =>
        var i :| 0 <= i < |d[1..]| && Value(d[1..][i]).None?;
        assert Value(d[i + 1]).None?;
        None
  }

  /** Step 5: the sextets regrouped into octets; the leftover bits of a final
      two or three sextets are dropped. */
  function Octets(vs: seq<int>): (bs: seq<byte>)
    requires IsSextets(vs) && |vs| % 4 != 1
    ensures |bs| == |vs| * 3 / 4
  {
    if |vs| == 0 then []
    else if |vs| == 2 then [vs[0] * 4 + vs[1] / 16]
    else if |vs| == 3 then [vs[0] * 4 + vs[1] / 16, vs[1] % 16 * 16 + vs[2] / 4]
    else
      assert |vs| * 3 / 4 == 3 + |vs[4..]| * 3 / 4 by {
        var n := |vs| - 4;
        Split(3 + n * 3 / 4, n * 3 % 4, 4);
      }
      Ungroup(vs[0], vs[1], vs[2], vs[3]) + Octets(vs[4..])
  }

  /** forgiving-base64 decode; None is the failure `atob` reports as an
      InvalidCharacterError. */
  function ForgivingDecode(s: string): (r: Option<seq<byte>>)
    ensures r.Some? ==> |r.value| == |StripPadding(RemoveWhitespace(s))| * 3 / 4
  {
    var d := StripPadding(RemoveWhitespace(s));
    if |d| % 4 == 1 then None
    else
      match Values(d)
      case None => None
      case Some(vs) => Some(Octets(vs))
  }

  lemma {:induction false} OctetsOfSextets(bs: seq<byte>)
    ensures Octets(Sextets(bs)) == bs
  {
    if |bs| == 1 {
      OctetsOfOne(bs[0]);
      assert bs == [bs[0]];
    } else if |bs| == 2 {
      OctetsOfTwo(bs[0], bs[1]);
      assert bs == [bs[0], bs[1]];
    } else if |bs| > 2 {
      var group := Group(bs[0], bs[1], bs[2]);
      var rest := Sextets(bs[3..]);
      assert Sextets(bs) == group + rest;
      OctetsOfSextets(bs[3..]);
      OctetsOfGroup(group, rest);
      UngroupGroup(bs[0], bs[1], bs[2]);
      assert bs == [bs[0], bs[1], bs[2]] + bs[3..];
    }
  }

  lemma OctetsOfOne(b0: byte)
    ensures Octets(Sextets([b0])) == [b0]
  {
    Split(b0 % 4, 0, 16);
  }

  lemma OctetsOfTwo(b0: byte, b1: byte)
    ensures Octets(Sextets([b0, b1])) == [b0, b1]
  {
    OctetsToSextets(b0, b1, 0);
    Split(b1 % 16, 0, 4);
  }

  /** Three octets come back from their four sextets. */
  lemma UngroupGroup(b0: byte, b1: byte, b2: byte)
    ensures var g := Group(b0, b1, b2); Ungroup(g[0], g[1], g[2], g[3]) == [b0, b1, b2]
  {
    OctetsToSextets(b0, b1, b2);
  }

  /** Four leading sextets give three leading octets. */
  lemma OctetsOfGroup(group: seq<int>, rest: seq<int>)
    requires |group| == 4 && IsSextets(group) && IsSextets(rest) && |rest| % 4 != 1
    ensures IsSextets(group + rest)
    ensures Octets(group + rest) == Ungroup(group[0], group[1], group[2], group[3]) + Octets(rest)
  {
    var vs := group + rest;
    assert vs[4..] == rest;
    assert vs[0] == group[0] && vs[1] == group[1] && vs[2] == group[2] && vs[3] == group[3];
  }

  /** An alphabet character never is '='. */
  lemma CharsEnd(vs: seq<int>)
    requires IsSextets(vs)
    ensures var c := Chars(vs); |c| == |vs| && (c == [] || c[|c| - 1] != '=')
  {
    if vs != [] {
      assert Chars(vs)[|vs| - 1] == Char(vs[|vs| - 1]);
    }
  }

  /** Step 2 removes exactly the padding after text that does not end in '='. */
  lemma StripPad(c: string, p: string)
    requires p == "" || p == "=" || p == "=="
    requires c == [] || c[|c| - 1] != '='
    requires p == "" || (|c| + |p|) % 4 == 0
    ensures StripPadding(c + p) == c
  {
    var d := c + p;
    if p == "" {
      assert d == c;
      if d != [] {
        assert d[|d| - 1] == c[|c| - 1];
      }
    } else if p == "=" {
      assert d[|d| - 2] == c[|c| - 1] && d[..|d| - 1] == c;
    } else {
      assert d[..|d| - 2] == c;
    }
  }

  /** An encoding holds alphabet characters and '=' only. */
  lemma EncodeAlphabet(bs: seq<byte>)
    ensures forall i :: 0 <= i < |Encode(bs)| ==> Encode(bs)[i] == '=' || Value(Encode(bs)[i]).Some?
  {
    var vs := Sextets(bs);
    var s := Encode(bs);
    assert s == Chars(vs) + Padding(|bs|);
    forall i | 0 <= i < |s|
      ensures s[i] == '=' || Value(s[i]).Some?
    {
      if i < |vs| {
        ValueChar(vs[i]);
      }
    }
  }

  /** A character outside the alphabet other than '=' never occurs in an encoding. */
  lemma EncodeLacks(bs: seq<byte>, c: char)
    requires c != '=' && Value(c).None?
    ensures c !in Encode(bs)
  {
    EncodeAlphabet(bs);
  }

  /** Decoding an encoding gives the octets back. */
  lemma DecodeEncode(bs: seq<byte>)
    ensures ForgivingDecode(Encode(bs)) == Some(bs)
  {
    var vs := Sextets(bs);
    assert Encode(bs) == Chars(vs) + Padding(|bs|);
    assert |Encode(bs)| % 4 == 0 by {
      Split((|bs| + 2) / 3, 0, 4);
    }
    DecodeChars(vs, Padding(|bs|));
    OctetsOfSextets(bs);
  }

  lemma {:induction false} ValuesOfChars(vs: seq<int>)
    requires IsSextets(vs)
    ensures Values(Chars(vs)) == Some(vs)
  {
    if vs != [] {
      ValueChar(vs[0]);
      ValuesOfChars(vs[1..]);
      assert Chars(vs)[1..] == Chars(vs[1..]);
      assert [vs[0]] + vs[1..] == vs;
    }
  }

  /** Alphabet text followed by no padding, or by the padding that completes
      a group of four, decodes to the octets of its sextets. */
  lemma DecodeChars(vs: seq<int>, p: string)
    requires IsSextets(vs) && |vs| % 4 != 1
    requires p == "" || ((p == "=" || p == "==") && (|vs| + |p|) % 4 == 0)
    ensures ForgivingDecode(Chars(vs) + p) == Some(Octets(vs))
  {
    var c := Chars(vs);
    CharsEnd(vs);
    CharsHaveNoWhitespace(vs, p);
    Prepare(c, p);
    ValuesOfChars(vs);
    DecodeOf(Chars(vs) + p, Chars(vs), vs);
  }

  /** Steps 1 and 2 leave exactly the alphabet text. */
  lemma Prepare(c: string, p: string)
    requires p == "" || p == "=" || p == "=="
    requires c == [] || c[|c| - 1] != '='
    requires p == "" || (|c| + |p|) % 4 == 0
    requires RemoveWhitespace(c + p) == c + p
    ensures StripPadding(RemoveWhitespace(c + p)) == c
  {
    StripPad(c, p);
  }

  /** The decoding once steps 1 to 4 have produced `vs`. */
  lemma DecodeOf(s: string, d: string, vs: seq<int>)
    requires StripPadding(RemoveWhitespace(s)) == d && |d| % 4 != 1 && Values(d) == Some(vs)
    ensures IsSextets(vs) && |vs| % 4 != 1
    ensures ForgivingDecode(s) == Some(Octets(vs))
  {
  }

  /** Alphabet text followed by '=' characters has no white space to drop. */
  lemma CharsHaveNoWhitespace(vs: seq<int>, p: string)
    requires IsSextets(vs) && (p == "" || p == "=" || p == "==" || p == "===")
    ensures RemoveWhitespace(Chars(vs) + p) == Chars(vs) + p
  {
    var d := Chars(vs) + p;
    forall i | 0 <= i < |d|
      ensures !IsAsciiWhitespace(d[i])
    {
      if i < |vs| {
        assert d[i] == Char(vs[i]);
        CharRange(vs[i]);
      } else {
        assert d[i] == p[i - |vs|];
      }
    }
  }

  /** White space is dropped before anything else is looked at, wherever it occurs. */
  lemma DecodeIgnoresWhitespace(s: string)
    ensures ForgivingDecode(s) == ForgivingDecode(RemoveWhitespace(s))
  {
  }

  /** Padding is optional, and the low four bits of the second character of
      a final two-character group are dropped. */
  lemma DecodeShortGroup(vs: seq<int>)
    requires IsSextets(vs) && |vs| == 2
    ensures ForgivingDecode(Chars(vs)) == Some([vs[0] * 4 + vs[1] / 16])
    ensures ForgivingDecode(Chars(vs) + "==") == Some([vs[0] * 4 + vs[1] / 16])
  {
    DecodeChars(vs, "");
    assert Chars(vs) + "" == Chars(vs);
    DecodeChars(vs, "==");
  }

  /** A lone final character is rejected. */
  lemma DecodeRejectsLength(vs: seq<int>)
    requires IsSextets(vs) && |vs| % 4 == 1
    ensures ForgivingDecode(Chars(vs)) == None
  {
    CharsHaveNoWhitespace(vs, "");
    assert Chars(vs) + "" == Chars(vs);
  }

  /** Three '=' are one too many: the third is left inside the text. */
  lemma DecodeRejectsPadding(vs: seq<int>)
    requires IsSextets(vs) && |vs| % 4 == 1
    ensures ForgivingDecode(Chars(vs) + "===") == None
  {
    var d := Chars(vs) + "===";
    CharsHaveNoWhitespace(vs, "===");
    assert d[|d| - 3] == '=' && d[|d| - 2] == '=' && d[|d| - 1] == '=';
    ThirdPadKept(d);
  }

  /** Step 2 removes at most two '=', so a third one reaches step 4 and fails there. */
  lemma ThirdPadKept(d: string)
    requires RemoveWhitespace(d) == d && |d| >= 3 && |d| % 4 == 0
    requires d[|d| - 3] == '=' && d[|d| - 2] == '=' && d[|d| - 1] == '='
    ensures ForgivingDecode(d) == None
  {
    var r := StripPadding(d);
    assert r == d[..|d| - 2];
    assert r[|r| - 1] == '=';
    if Values(r).Some? {
      CharRange(Values(r).value[|r| - 1]);
      assert false;
    }
  }

  /** A character that is neither in the alphabet, nor '=', nor white space
      (such as '-' or '_' of the URL-safe alphabet) is rejected wherever it occurs. */
  lemma DecodeRejectsCharacter(s: string, i: nat)
    requires i < |s| && s[i] != '=' && !IsAsciiWhitespace(s[i]) && Value(s[i]).None?
    ensures ForgivingDecode(s) == None
  {
    var c := s[i];
    Kept(s, i);
    var d := StripPadding(RemoveWhitespace(s));
    var j :| 0 <= j < |RemoveWhitespace(s)| && RemoveWhitespace(s)[j] == c;
    assert j < |d| && d[j] == c;
    if |d| % 4 != 1 && Values(d).Some? {
      ValueChar(Values(d).value[j]);
      assert false;
    }
  }

  /** Removing white space keeps every other character. */
  lemma {:induction false} Kept(s: string, i: nat)
    requires i < |s| && !IsAsciiWhitespace(s[i])
    ensures s[i] in RemoveWhitespace(s)
  {
    if i > 0 {
      Kept(s[1..], i - 1);
      assert s[1..][i - 1] == s[i];
    }
  }
}
