/** JSON trees, the two printing styles of the SDK, and a reader for section 2 to 7 of RFC 8259
    (numbers: integers only). */
module Json {
  import opened Text
  import opened Wrappers

  datatype Json =
    | Null
    | Bool(b: bool)
    | Int(n: int)
    | Str(s: Text)
    | Arr(items: seq<Json>)
    | Obj(members: seq<Member>)

  datatype Member = Member(name: Text, value: Json)

  /** `Native` is the C++ token printer, `Java` the option encoder of the Java binding. */
  datatype Style = Native | Java

  const QUOTE: nat := 0x22
  const BACKSLASH: nat := 0x5C

  // Printing

  predicate IsSurrogate(u: nat) {
    0xD800 <= u <= 0xDFFF
  }

  function HexDigit(d: nat): nat
    requires d < 16
  {
    if d < 10 then '0' as nat + d else 'a' as nat + d - 10
  }

  /** `\u` and four lower-case hexadecimal digits. */
  function UnicodeEscape(u: nat): Text
    requires u < 0x1_0000
  {
    Ascii("\\u") + [HexDigit(u / 4096), HexDigit(u / 256 % 16), HexDigit(u / 16 % 16), HexDigit(u % 16)]
  }

  function EscapeUnit(style: Style, u: nat): Text {
    if u == QUOTE || u == BACKSLASH then [BACKSLASH, u]
    else if style == Native && u == 0x08 then Ascii("\\b")
    else if style == Native && u == 0x0C then Ascii("\\f")
    else if style == Native && u == 0x0A then Ascii("\\n")
    else if style == Native && u == 0x0D then Ascii("\\r")
    else if style == Native && u == 0x09 then Ascii("\\t")
    else if u < 0x20 || (style == Java && IsSurrogate(u)) then UnicodeEscape(u)
    else [u]
  }

  function Escape(style: Style, s: Text): Text {
    if s == [] then [] else EscapeUnit(style, s[0]) + Escape(style, s[1..])
  }

  function Quoted(style: Style, s: Text): Text {
    [QUOTE] + Escape(style, s) + [QUOTE]
  }

  function Print(style: Style, v: Json): Text
    decreases v, 0
  {
    match v
    case Null => Ascii("null")
    case Bool(b) => Ascii(if b then "true" else "false")
    case Int(n) => Decimal(n)
    case Str(s) => Quoted(style, s)
    case Arr(items) =>
      if items == [] then Ascii("[]")
      else Ascii("[") + Print(style, items[0]) + PrintItems(style, items[1..]) + Ascii("]")
    case Obj(members) =>
      if members == [] then Ascii("{}")
      else Ascii("{") + PrintMember(style, members[0]) + PrintMembers(style, members[1..]) + Ascii("}")
  }

  function PrintMember(style: Style, m: Member): Text
    decreases m, 0
  {
    Quoted(style, m.name) + Ascii(":") + Print(style, m.value)
  }

  /** All but the first item of an array, each after a comma. */
  function PrintItems(style: Style, items: seq<Json>): Text
    decreases items, 1
  {
    if items == [] then []
    else Ascii(",") + Print(style, items[0]) + PrintItems(style, items[1..])
  }

  /** All but the first member of an object, each after a comma. */
  function PrintMembers(style: Style, members: seq<Member>): Text
    decreases members, 1
  {
    if members == [] then []
    else Ascii(",") + PrintMember(style, members[0]) + PrintMembers(style, members[1..])
  }

  // Reading

  predicate IsSpace(u: nat) {
    u == 0x20 || u == 0x09 || u == 0x0A || u == 0x0D
  }

  function SkipSpace(t: Text): (r: Text)
    ensures |r| <= |t|
    ensures t != [] && !IsSpace(t[0]) ==> r == t
  {
    if t != [] && IsSpace(t[0]) then SkipSpace(t[1..]) else t
  }

  function HexValue(u: nat): Option<nat> {
    if '0' as nat <= u <= '9' as nat then Some(u - '0' as nat)
    else if 'a' as nat <= u <= 'f' as nat then Some(u - 'a' as nat + 10)
    else if 'A' as nat <= u <= 'F' as nat then Some(u - 'A' as nat + 10)
    else None
  }

  function SimpleEscape(u: nat): Option<nat> {
    if u == QUOTE || u == BACKSLASH || u == '/' as nat then Some(u)
    else if u == 'b' as nat then Some(0x08)
    else if u == 'f' as nat then Some(0x0C)
    else if u == 'n' as nat then Some(0x0A)
    else if u == 'r' as nat then Some(0x0D)
    else if u == 't' as nat then Some(0x09)
    else None
  }

  /** One escape sequence, t being what follows the backslash. */
  function ReadEscape(t: Text): (r: Option<(nat, Text)>)
    ensures r.Some? ==> |r.value.1| < |t|
  {
    if t == [] then None
    else if t[0] == 'u' as nat then
      if |t| < 5 then None
      else
        var a :- HexValue(t[1]);
        var b :- HexValue(t[2]);
        var c :- HexValue(t[3]);
        var d :- HexValue(t[4]);
        Some((4096 * a + 256 * b + 16 * c + d, t[5..]))
    else
      var u :- SimpleEscape(t[0]);
      Some((u, t[1..]))
  }

  /** A string up to its closing quote, t being what follows the opening quote. */
  function ReadString(t: Text): (r: Option<(Text, Text)>)
    ensures r.Some? ==> |r.value.1| < |t|
    decreases |t|
  {
    if t == [] then None
    else if t[0] == QUOTE then Some(([], t[1..]))
    else if t[0] == BACKSLASH then
      var (u, rest) :- ReadEscape(t[1..]);
      var (s, end) :- ReadString(rest);
      Some(([u] + s, end))
    else if t[0] < 0x20 then None
    else
      var (s, end) :- ReadString(t[1..]);
      Some(([t[0]] + s, end))
  }

  /** Units that would continue a number: digits, fraction and exponent marks. */
  predicate NumberGoesOn(t: Text) {
    t != [] && (IsDigit(t[0]) || t[0] == '.' as nat || t[0] == 'e' as nat || t[0] == 'E' as nat)
  }

  function ReadNat(t: Text): (r: Option<(nat, Text)>)
    ensures r.Some? ==> |r.value.1| < |t|
  {
    var k := DigitRun(t);
    if k == 0 || (k > 1 && t[0] == '0' as nat) || NumberGoesOn(t[k..]) then None
    else Some((Value(t[..k]), t[k..]))
  }

  function ReadLiteral(t: Text, literal: string, v: Json): (r: Option<(Json, Text)>)
    ensures r.Some? && literal != "" ==> |r.value.1| < |t|
  {
    if StartsWith(t, Ascii(literal)) then Some((v, t[|literal|..])) else None
  }

  function ReadNumber(t: Text): (r: Option<(int, Text)>)
    requires t != []
    ensures r.Some? ==> |r.value.1| < |t|
  {
    if t[0] == '-' as nat then
      var (n, rest) :- ReadNat(t[1..]);
      Some((-(n as int), rest))
    else ReadNat(t)
  }

  /** A literal name or a number. */
  function ReadAtom(t: Text): (r: Option<(Json, Text)>)
    requires t != []
    ensures r.Some? ==> |r.value.1| < |t|
  {
    if t[0] == 'n' as nat then ReadLiteral(t, "null", Null)
    else if t[0] == 't' as nat then ReadLiteral(t, "true", Bool(true))
    else if t[0] == 'f' as nat then ReadLiteral(t, "false", Bool(false))
    else
      var (n, rest) :- ReadNumber(t);
      Some((Int(n), rest))
  }

  function ReadValue(t: Text): (r: Option<(Json, Text)>)
    ensures r.Some? ==> |r.value.1| < |t|
    decreases |t|, 2
  {
    var t' := SkipSpace(t);
    if t' == [] then None
    else if t'[0] == QUOTE then
      var (s, rest) :- ReadString(t'[1..]);
      Some((Str(s), rest))
    else if t'[0] == '[' as nat then ReadArray(t'[1..])
    else if t'[0] == '{' as nat then ReadObject(t'[1..])
    else ReadAtom(t')
  }

  /** An array, t being what follows its opening bracket. */
  function ReadArray(t: Text): (r: Option<(Json, Text)>)
    ensures r.Some? ==> |r.value.1| < |t|
    decreases |t|, 4
  {
    var u := SkipSpace(t);
    if u != [] && u[0] == ']' as nat then Some((Arr([]), u[1..]))
    else
      var (v, rest) :- ReadValue(t);
      var (vs, end) :- ReadItems(rest);
      Some((Arr([v] + vs), end))
  }

  /** An object, t being what follows its opening brace. */
  function ReadObject(t: Text): (r: Option<(Json, Text)>)
    ensures r.Some? ==> |r.value.1| < |t|
    decreases |t|, 4
  {
    var u := SkipSpace(t);
    if u != [] && u[0] == '}' as nat then Some((Obj([]), u[1..]))
    else
      var (m, rest) :- ReadMember(t);
      var (ms, end) :- ReadMembers(rest);
      Some((Obj([m] + ms), end))
  }

  /** The remaining items of an array, through its closing bracket. */
  function ReadItems(t: Text): (r: Option<(seq<Json>, Text)>)
    ensures r.Some? ==> |r.value.1| < |t|
    decreases |t|, 3
  {
    var t' := SkipSpace(t);
    if t' == [] then None
    else if t'[0] == ']' as nat then Some(([], t'[1..]))
    else if t'[0] == ',' as nat then
      var (v, rest) :- ReadValue(t'[1..]);
      var (vs, end) :- ReadItems(rest);
      Some(([v] + vs, end))
    else None
  }

  function ReadMember(t: Text): (r: Option<(Member, Text)>)
    ensures r.Some? ==> |r.value.1| < |t|
    decreases |t|, 1
  {
    var t' := SkipSpace(t);
    if t' == [] || t'[0] != QUOTE then None
    else
      var (name, rest) :- ReadString(t'[1..]);
      var u := SkipSpace(rest);
      if u == [] || u[0] != ':' as nat then None
      else
        var (v, end) :- ReadValue(u[1..]);
        Some((Member(name, v), end))
  }

  /** The remaining members of an object, through its closing brace. */
  function ReadMembers(t: Text): (r: Option<(seq<Member>, Text)>)
    ensures r.Some? ==> |r.value.1| < |t|
    decreases |t|, 3
  {
    var t' := SkipSpace(t);
    if t' == [] then None
    else if t'[0] == '}' as nat then Some(([], t'[1..]))
    else if t'[0] == ',' as nat then
      var (m, rest) :- ReadMember(t'[1..]);
      var (ms, end) :- ReadMembers(rest);
      Some(([m] + ms, end))
    else None
  }

  /** A whole document: one value and nothing after it but white space. */
  function Read(t: Text): Option<Json> {
    var (v, rest) :- ReadValue(t);
    if SkipSpace(rest) == [] then Some(v) else None
  }
}
