/** The JavaScript values the handlers read: a parsed JSON document, with
    `undefined` for a property that is absent, and the language rules the
    handlers lean on (truthiness, `||`, property reads with `.` and `?.`,
    indexing, and conversion to a string). */
module JsValue {
  import opened Wrappers
  import JsString

  /** A JSON value as `JSON.parse` builds it, or `undefined`. JSON numbers
      are modelled as integers. */
  datatype Json =
    | Undefined
    | Null
    | Bool(b: bool)
    | Num(n: int)
    | Str(s: string)
    | Arr(items: seq<Json>)
    | Obj(fields: map<string, Json>)

  /** A number `parseInt` can return: an integer, or NaN. */
  datatype Number = Finite(value: int) | NaN

  /** What the handlers' code can throw. `Raised` is an `Error` whose
      message the code itself supplies; the runtime words the others. */
  datatype JsError = TypeError | SyntaxError | UriError | InvalidCharacter | Raised(message: string)

  /** The runtime's wording of the errors it raises itself. */
  datatype Messages = Messages(typeError: string, syntaxError: string, uriError: string, invalidCharacter: string)

  /** `error.message`. */
  function MessageOf(e: JsError, m: Messages): string {
    match e
    case TypeError => m.typeError
    case SyntaxError => m.syntaxError
    case UriError => m.uriError
    case InvalidCharacter => m.invalidCharacter
    case Raised(text) => text
  }

  /** ToBoolean: `undefined`, `null`, `false`, `0` and `""` are falsy. */
  predicate Truthy(v: Json) {
    match v
    case Undefined => false
    case Null => false
    case Bool(b) => b
    case Num(n) => n != 0
    case Str(s) => s != ""
    case Arr(_) => true
    case Obj(_) => true
  }

  /** Exactly five values are falsy. */
  lemma FalsyValues(v: Json)
    ensures !Truthy(v) <==> v in {Undefined, Null, Bool(false), Num(0), Str("")}
  {
  }

  /** ToBoolean on a number: NaN and zero are falsy. */
  predicate NumberTruthy(n: Number) {
    n.Finite? && n.value != 0
  }

  predicate Nullish(v: Json) {
    v.Undefined? || v.Null?
  }

  /** `a || b`: the left operand when it is truthy, else the right one. */
  function Or(a: Json, b: Json): (r: Json)
    ensures Truthy(a) ==> r == a
    ensures !Truthy(a) ==> r == b
    ensures Truthy(r) <==> Truthy(a) || Truthy(b)
  {
    if Truthy(a) then a else b
  }

  const EmptyObject: Json := Obj(map[])

  /** `v?.key`, and `v.key` on a value that is neither null nor undefined.
      Own properties of objects, and `length` of arrays and strings; `key` is
      never an array index here (indexing is `Index`), and none of the keys
      read names a prototype member. */
  function Prop(v: Json, key: string): Json {
    match v
    case Obj(m) => if key in m then m[key] else Undefined
    case Arr(items) => if key == "length" then Num(|items|) else Undefined
    case Str(s) => if key == "length" then Num(|s|) else Undefined
    case _ => Undefined
  }

  /** Optional chaining on null or undefined gives undefined; an object gives
      its own property, or undefined when it has none. */
  lemma PropReads(v: Json, key: string)
    ensures Nullish(v) ==> Prop(v, key) == Undefined
    ensures v.Obj? && key in v.fields ==> Prop(v, key) == v.fields[key]
    ensures key != "length" && !(v.Obj? && key in v.fields) ==> Prop(v, key) == Undefined
  {
  }

  /** `v.key`: reading a property of null or undefined is a TypeError. */
  function Get(v: Json, key: string): (r: Result<Json, JsError>)
    ensures r.Err? <==> Nullish(v)
    ensures r.Ok? ==> r.value == Prop(v, key)
  {
    if Nullish(v) then Err(TypeError) else Ok(Prop(v, key))
  }

  /** `v[i]` on a value that is neither null nor undefined. */
  function Index(v: Json, i: nat): Json {
    match v
    case Arr(items) => if i < |items| then items[i] else Undefined
    case Str(s) => if i < |s| then Str([s[i]]) else Undefined
    case Obj(_) => Prop(v, NatToString(i))
    case _ => Undefined
  }

  /** Indexing null or undefined gives undefined; an array gives its element,
      or undefined past its end. */
  lemma IndexReads(v: Json, i: nat)
    ensures Nullish(v) ==> Index(v, i) == Undefined
    ensures v.Arr? && i < |v.items| ==> Index(v, i) == v.items[i]
    ensures v.Arr? && |v.items| <= i ==> Index(v, i) == Undefined
  {
  }

  /** `v.length > 0`. A `length` that is a number or a boolean is compared
      as JavaScript does; any other kind counts as not positive. */
  predicate HasElements(v: Json) {
    match Prop(v, "length")
    case Num(n) => n > 0
    case Bool(b) => b
    case _ => false
  }

  function DigitChar(d: int): char
    requires 0 <= d < 10
  {
    ('0' as int + d) as char
  }

  predicate IsDecimalDigit(c: char) {
    '0' <= c <= '9'
  }

  /** The decimal numeral of `n`, without leading zeros. */
  function NatToString(n: nat): (s: string)
    ensures |s| >= 1 && forall i :: 0 <= i < |s| ==> IsDecimalDigit(s[i])
    ensures n > 0 ==> s[0] != '0'
    ensures n == 0 ==> s == "0"
  {
    if n < 10 then [DigitChar(n)] else NatToString(n / 10) + [DigitChar(n % 10)]
  }

  /** Number::toString for an integer. */
  function IntToString(n: int): string {
    if n < 0 then "-" + NatToString(-n) else NatToString(n)
  }

  /** The string an element contributes to `Array.prototype.join`. */
  function ElementString(v: Json): string
    decreases v, 1
  {
    if Nullish(v) then "" else ToString(v)
  }

  /** ToString, as `parseInt` and template literals apply it: arrays join
      their elements with commas, plain objects print "[object Object]". */
  function ToString(v: Json): (r: string)
    ensures v.Str? ==> r == v.s
    ensures !v.Str? && !v.Arr? ==> r != ""
    decreases v, 0
  {
    match v
    case Undefined => "undefined"
    case Null => "null"
    case Bool(b) => if b then "true" else "false"
    case Num(n) => IntToString(n)
    case Str(s) => s
    case Arr(items) =>
      JsString.Join(seq(|items|, i requires 0 <= i < |items| => ElementString(items[i])), ',')
    case Obj(_) => "[object Object]"
  }
}
