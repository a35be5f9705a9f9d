/** `parseInt(string)` with the radix argument omitted (section 19.2.5 of
    ECMA-262): leading white space is skipped, one sign is taken, a "0x" or
    "0X" prefix selects radix 16 (radix 10 otherwise), and the longest run of
    digits that follows is the value; no digits at all is NaN. */
module JsNumber {
  import opened Wrappers
  import opened JsValue

  /** StrWhiteSpaceChar: WhiteSpace (tab, vertical tab, form feed, ZWNBSP and
      the Zs space separators) or LineTerminator. */
  predicate IsStrWhiteSpace(c: char) {
    c == '\t' || c == '\n' || c == '\U{000B}' || c == '\U{000C}' || c == '\r' || c == ' '
    || c == '\U{00A0}' || c == '\U{1680}' || ('\U{2000}' <= c <= '\U{200A}')
    || c == '\U{2028}' || c == '\U{2029}' || c == '\U{202F}' || c == '\U{205F}'
    || c == '\U{3000}' || c == '\U{FEFF}'
  }

  /** TrimString(s, start). */
  function TrimStart(s: string): (r: string)
    ensures |r| <= |s| && r == s[|s| - |r|..]
    ensures r == [] || !IsStrWhiteSpace(r[0])
    ensures forall i :: 0 <= i < |s| - |r| ==> IsStrWhiteSpace(s[i])
  {
    if s != [] && IsStrWhiteSpace(s[0]) then TrimStart(s[1..]) else s
  }

  /** The value of `c` as a digit of radix 10 or 16, or -1 when it is not one. */
  function DigitValue(c: char, radix: int): (d: int)
    requires radix == 10 || radix == 16
    ensures -1 <= d < radix
  {
    if '0' <= c <= '9' then c as int - '0' as int
    else if radix == 16 && 'a' <= c <= 'f' then c as int - 'a' as int + 10
    else if radix == 16 && 'A' <= c <= 'F' then c as int - 'A' as int + 10
    else -1
  }

  /** The length of the run of radix digits at the start of `s`. */
  function DigitRun(s: string, radix: int): (k: nat)
    requires radix == 10 || radix == 16
    ensures k <= |s|
    ensures forall i :: 0 <= i < k ==> DigitValue(s[i], radix) >= 0
    ensures k < |s| ==> DigitValue(s[k], radix) < 0
  {
    if s == [] || DigitValue(s[0], radix) < 0 then 0 else 1 + DigitRun(s[1..], radix)
  }

  /** The value of a numeral, most significant digit first. */
  function DigitsValue(ds: string, radix: int): nat
    requires radix == 10 || radix == 16
    requires forall i :: 0 <= i < |ds| ==> DigitValue(ds[i], radix) >= 0
  {
    if ds == [] then 0
    else
      var high := DigitsValue(ds[..|ds| - 1], radix);
      (if radix == 16 then high * 16 else high * 10) + DigitValue(ds[|ds| - 1], radix)
  }

  /** The value of the unsigned numeral at the start of `u` (after the sign):
      hexadecimal after a "0x" or "0X" prefix, decimal otherwise; None when
      no digit follows. */
  function Magnitude(u: string): Option<nat> {
    var hex := |u| >= 2 && u[0] == '0' && (u[1] == 'x' || u[1] == 'X');
    var radix := if hex then 16 else 10;
    var body := if hex then u[2..] else u;
    var k := DigitRun(body, radix);
    if k == 0 then None else Some(DigitsValue(body[..k], radix))
  }

  /** The trimmed text without its sign, if it has one. */
  function Unsigned(t: string): (u: string)
    ensures t != [] && (t[0] == '-' || t[0] == '+') ==> u == t[1..]
    ensures !(t != [] && (t[0] == '-' || t[0] == '+')) ==> u == t
  {
    if t != [] && (t[0] == '-' || t[0] == '+') then t[1..] else t
  }

  /** `parseInt(s)` with no radix: leading white space is skipped, a sign is
      read, then the numeral (hexadecimal after "0x"); NaN when no digit
      follows. */
  function ParseInt(s: string): Number {
    var t := TrimStart(s);
    match Magnitude(Unsigned(t))
    case None => NaN
    case Some(m) => Finite(if t != [] && t[0] == '-' then 0 - m else m)
  }

  /** Text that is empty or only white space is NaN, and a negative result
      needs a '-' after the white space. */
  lemma ParseIntSign(s: string)
    ensures TrimStart(s) == [] ==> ParseInt(s).NaN?
    ensures ParseInt(s).Finite? && ParseInt(s).value < 0 ==> TrimStart(s)[0] == '-'
  {
  }

  /** `parseInt(value)`: the value is converted with ToString first. */
  function ParseIntOf(v: Json): (r: Number)
    ensures v.Str? ==> r == ParseInt(v.s)
    ensures v.Bool? || v.Obj? ==> r.NaN?
  {
    var text := ToString(v);
    if v.Bool? || v.Obj? then
      assert text[0] in "tf[";
      NoLeadingDigit(text);
      ParseInt(text)
    else ParseInt(text)
  }

  lemma {:induction false} DigitsValueOfNumeral(n: nat)
    ensures DigitsValue(NatToString(n), 10) == n
  {
    if n >= 10 {
      var s := NatToString(n);
      DigitsValueOfNumeral(n / 10);
      assert s[..|s| - 1] == NatToString(n / 10);
    }
  }

  lemma {:induction false} DigitRunOfNumeral(ds: string, tail: string)
    requires forall i :: 0 <= i < |ds| ==> IsDecimalDigit(ds[i])
    requires tail == [] || !IsDecimalDigit(tail[0])
    ensures DigitRun(ds + tail, 10) == |ds|
  {
    if ds != [] {
      assert (ds + tail)[1..] == ds[1..] + tail;
      DigitRunOfNumeral(ds[1..], tail);
    }
  }

  lemma {:induction false} TrimLeading(ws: string, rest: string)
    requires forall i :: 0 <= i < |ws| ==> IsStrWhiteSpace(ws[i])
    requires rest == [] || !IsStrWhiteSpace(rest[0])
    ensures TrimStart(ws + rest) == rest
  {
    if ws != [] {
      assert (ws + rest)[1..] == ws[1..] + rest;
      TrimLeading(ws[1..], rest);
    }
  }

  lemma MagnitudeOfNumeral(m: nat, tail: string)
    requires tail == [] || !(IsDecimalDigit(tail[0]) || 'a' <= tail[0] <= 'z' || 'A' <= tail[0] <= 'Z')
    ensures Magnitude(NatToString(m) + tail) == Some(m)
  {
    var digits := NatToString(m);
    var u := digits + tail;
    assert |u| >= 2 && u[0] == '0' ==> m == 0 && u[1] == tail[0];
    DigitRunOfNumeral(digits, tail);
    assert u[..|digits|] == digits;
    DigitsValueOfNumeral(m);
  }

  /** `parseInt` reads back what Number::toString writes for an integer,
      whatever white space precedes it and whatever follows it that cannot
      continue a numeral (not a letter, not a digit). */
  lemma ParseIntOfNumeral(ws: string, n: int, tail: string)
    requires forall i :: 0 <= i < |ws| ==> IsStrWhiteSpace(ws[i])
    requires tail == [] || !(IsDecimalDigit(tail[0]) || 'a' <= tail[0] <= 'z' || 'A' <= tail[0] <= 'Z')
    ensures ParseInt(ws + IntToString(n) + tail) == Finite(n)
  {
    var t := IntToString(n) + tail;
    var m: nat := if n < 0 then -n else n;
    NumeralTrimmed(ws, n, tail);
    NumeralMagnitude(n, tail);
    ParseIntOfTrimmed(ws + IntToString(n) + tail, t, m);
  }

  /** White space before a numeral is trimmed away, and nothing more. */
  lemma NumeralTrimmed(ws: string, n: int, tail: string)
    requires forall i :: 0 <= i < |ws| ==> IsStrWhiteSpace(ws[i])
    ensures TrimStart(ws + IntToString(n) + tail) == IntToString(n) + tail
  {
    var t := IntToString(n) + tail;
    assert ws + IntToString(n) + tail == ws + t;
    SignedNumeral(n, tail);
    TrimLeading(ws, t);
  }

  /** Without its sign a numeral has the magnitude of the integer it writes. */
  lemma NumeralMagnitude(n: int, tail: string)
    requires tail == [] || !(IsDecimalDigit(tail[0]) || 'a' <= tail[0] <= 'z' || 'A' <= tail[0] <= 'Z')
    ensures var t := IntToString(n) + tail;
      Magnitude(Unsigned(t)) == Some(if n < 0 then -n else n) && (t != [] && t[0] == '-' <==> n < 0)
  {
    var t := IntToString(n) + tail;
    var m: nat := if n < 0 then -n else n;
    SignedNumeral(n, tail);
    MagnitudeOfNumeral(m, tail);
    assert Unsigned(t) == NatToString(m) + tail;
  }

  /** `parseInt` of text whose trimmed form carries a numeral of magnitude `m`. */
  lemma ParseIntOfTrimmed(s: string, t: string, m: nat)
    requires TrimStart(s) == t && Magnitude(Unsigned(t)) == Some(m)
    ensures ParseInt(s).Finite?
    ensures ParseInt(s).value == if t != [] && t[0] == '-' then 0 - m else m
  {
  }

  /** The text of an integer is a '-' exactly for a negative one, then the
      digits of its magnitude. */
  lemma SignedNumeral(n: int, tail: string)
    ensures var t := IntToString(n) + tail;
      var u := NatToString(if n < 0 then -n else n) + tail;
      && t != [] && !IsStrWhiteSpace(t[0]) && t[0] != '+'
      && (n < 0 ==> t[0] == '-' && t[1..] == u)
      && (n >= 0 ==> t[0] != '-' && t == u)
  {
    var m: nat := if n < 0 then -n else n;
    var u := NatToString(m) + tail;
    var t := IntToString(n) + tail;
    assert u[0] == NatToString(m)[0];
    assert IsDecimalDigit(u[0]);
    if n < 0 {
      NegativeNumeral(n, m, tail, u);
    } else {
      assert t == u;
    }
  }

  lemma NegativeNumeral(n: int, m: nat, tail: string, u: string)
    requires n < 0 && m == -n && u == NatToString(m) + tail
    ensures var t := IntToString(n) + tail; t == ['-'] + u && t[1..] == u
  {
    assert IntToString(n) == ['-'] + NatToString(m);
  }

  /** A JSON number given to `parseInt` comes back unchanged. */
  lemma ParseIntOfNumber(n: int)
    ensures ParseIntOf(Num(n)) == Finite(n)
  {
    var t := IntToString(n);
    assert ParseInt(t) == Finite(n) by {
      assert "" + t + "" == t;
      ParseIntOfNumeral("", n, "");
    }
    assert ToString(Num(n)) == t;
  }

  /** Text that starts with neither white space, a sign nor a digit is NaN. */
  lemma NoLeadingDigit(s: string)
    requires s != [] && !IsStrWhiteSpace(s[0]) && s[0] != '+' && s[0] != '-' && !IsDecimalDigit(s[0])
    ensures ParseInt(s) == NaN
  {
    assert TrimStart(s) == s;
    assert DigitValue(s[0], 10) < 0;
  }

  /** `parseInt(undefined)` reads the text "undefined": NaN. */
  lemma ParseIntOfUndefined()
    ensures ParseIntOf(Undefined) == NaN
  {
    var u := "undefined";
    assert ToString(Undefined) == u;
    assert u[0] == 'u';
    NoLeadingDigit(u);
  }

  /** `parseInt(null)` reads the text "null": NaN. */
  lemma ParseIntOfNull()
    ensures ParseIntOf(Null) == NaN
  {
    var u := "null";
    assert ToString(Null) == u;
    assert u[0] == 'n';
    NoLeadingDigit(u);
  }
}
