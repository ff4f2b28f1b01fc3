/** The option encoder of the Java binding. */
module JavaJson {
  import opened Text
  import opened Wrappers
  import opened Json
  import opened JsonRoundTrip

  // The encoder

  /** `java.util.StringJoiner` and `Collectors.joining`: parts with a separator between them. */
  class Joiner {
    const separator: Text
    const suffix: Text
    var text: Text
    var empty: bool

    constructor (separator: Text, prefix: Text, suffix: Text)
      ensures text == prefix && empty && this.separator == separator && this.suffix == suffix
    {
      this.separator, this.suffix, text, empty := separator, suffix, prefix, true;
    }

    method Add(part: Text)
      modifies this
      ensures text == old(text) + (if old(empty) then [] else separator) + part && !empty
    {
      if !empty {
        text := text + separator;
      }
      text, empty := text + part, false;
    }
  }

  method EncodeString(s: Text) returns (t: Text)
    ensures t == Quoted(Java, s)
  {
    hide UnicodeEscape;
    t := [QUOTE];
    for i := 0 to |s|
      invariant t == [QUOTE] + Escape(Java, s[..i])
    {
      var c := s[i];
      assert s[..i + 1] == s[..i] + [c];
      EscapeAppend(Java, s[..i], [c]);
      EscapeOne(Java, c);
      if c == QUOTE || c == BACKSLASH {
        t := t + [BACKSLASH] + [c];
      } else if c < 32 || IsSurrogate(c) {
        t := t + UnicodeEscape(c);
      } else {
        t := t + [c];
      }
    }
    assert s[..|s|] == s;
    t := t + [QUOTE];
  }

  /** Printed items with a comma between them. */
  function Items(items: seq<Json>): Text {
    if items == [] then [] else Print(Java, items[0]) + PrintItems(Java, items[1..])
  }

  function Members(members: seq<Member>): Text {
    if members == [] then [] else PrintMember(Java, members[0]) + PrintMembers(Java, members[1..])
  }

  lemma ItemsNext(items: seq<Json>, v: Json)
    ensures Items(items + [v]) == Items(items) + (if items == [] then [] else Ascii(",")) + Print(Java, v)
  {
    if items == [] {
      assert (items + [v])[1..] == [];
    } else {
      assert (items + [v])[1..] == items[1..] + [v];
      PrintItemsAppend(Java, items[1..], [v]);
      LastItem(v);
      hide Print, PrintItems;
    }
  }

  lemma LastItem(v: Json)
    ensures PrintItems(Java, [v]) == Ascii(",") + Print(Java, v)
  {
    assert [v][1..] == [];
    hide Print, Ascii;
    assert PrintItems(Java, [v]) == Ascii(",") + Print(Java, v) + PrintItems(Java, []);
  }

  lemma MembersNext(members: seq<Member>, m: Member)
    ensures Members(members + [m])
            == Members(members) + (if members == [] then [] else Ascii(",")) + PrintMember(Java, m)
  {
    if members == [] {
      assert (members + [m])[1..] == [];
    } else {
      assert (members + [m])[1..] == members[1..] + [m];
      PrintMembersAppend(Java, members[1..], [m]);
      LastMember(m);
      hide PrintMember, PrintMembers;
    }
  }

  lemma LastMember(m: Member)
    ensures PrintMembers(Java, [m]) == Ascii(",") + PrintMember(Java, m)
  {
    assert [m][1..] == [];
    hide PrintMember, Ascii;
    assert PrintMembers(Java, [m]) == Ascii(",") + PrintMember(Java, m) + PrintMembers(Java, []);
  }

  lemma EmptyBrackets()
    ensures Ascii("[]") == Ascii("[") + [] + Ascii("]") && Ascii("{}") == Ascii("{") + [] + Ascii("}")
  {
  }

  lemma ItemsInBrackets(items: seq<Json>)
    ensures Print(Java, Arr(items)) == Ascii("[") + Items(items) + Ascii("]")
  {
    EmptyBrackets();
    hide Ascii, PrintItems;
    if items != [] {
      var a, b, c, d := Ascii("["), Print(Java, items[0]), PrintItems(Java, items[1..]), Ascii("]");
      assert Print(Java, Arr(items)) == a + b + c + d;
      assert a + b + c + d == a + (b + c) + d;
    }
  }

  lemma MembersInBraces(members: seq<Member>)
    ensures Print(Java, Obj(members)) == Ascii("{") + Members(members) + Ascii("}")
  {
    EmptyBrackets();
    hide Ascii, PrintMember, PrintMembers;
    if members != [] {
      var a, b, c, d := Ascii("{"), PrintMember(Java, members[0]), PrintMembers(Java, members[1..]), Ascii("}");
      assert Print(Java, Obj(members)) == a + b + c + d;
      assert a + b + c + d == a + (b + c) + d;
    }
  }

  /** `Json.encode`: the members of a map in the order its entry set has. */
  method Encode(value: Json) returns (t: Text)
    ensures t == Print(Java, value)
    decreases value, 1
  {
    match value {
      case Null => return Ascii("null");
      case Bool(b) => return if b then Ascii("true") else Ascii("false");
      case Int(n) => return Decimal(n);
      case Obj(members) => t := EncodeMembers(members);
      case Arr(items) => t := EncodeItems(items);
      case Str(s) => t := EncodeString(s);
    }
  }

  method EncodeMembers(members: seq<Member>) returns (t: Text)
    ensures t == Print(Java, Obj(members))
    decreases members, 0
  {
    hide Members, Print, PrintMember, Ascii, Quoted;
    MembersInBraces(members);
    var out := new Joiner(Ascii(","), Ascii("{"), Ascii("}"));
    NoMembers();
    for i := 0 to |members|
      invariant out.separator == Ascii(",") && out.suffix == Ascii("}")
      invariant out.text == Ascii("{") + Members(members[..i]) && (out.empty <==> i == 0)
      invariant fresh(out)
    {
      assert members[..i + 1] == members[..i] + [members[i]];
      MembersNext(members[..i], members[i]);
      var name := EncodeString(members[i].name);
      var encoded := Encode(members[i].value);
      MemberParts(members[i]);
      out.Add(name + Ascii(":") + encoded);
    }
    assert members[..|members|] == members;
    t := out.text + out.suffix;
  }

  method EncodeItems(items: seq<Json>) returns (t: Text)
    ensures t == Print(Java, Arr(items))
    decreases items, 0
  {
    hide Items, Print, Ascii;
    ItemsInBrackets(items);
    var out := new Joiner(Ascii(","), Ascii("["), Ascii("]"));
    NoItems();
    for i := 0 to |items|
      invariant out.separator == Ascii(",") && out.suffix == Ascii("]")
      invariant out.text == Ascii("[") + Items(items[..i]) && (out.empty <==> i == 0)
      invariant fresh(out)
    {
      assert items[..i + 1] == items[..i] + [items[i]];
      ItemsNext(items[..i], items[i]);
      var encoded := Encode(items[i]);
      out.Add(encoded);
    }
    assert items[..|items|] == items;
    t := out.text + out.suffix;
  }

  lemma NoItems()
    ensures Items([]) == []
  {
  }

  lemma NoMembers()
    ensures Members([]) == []
  {
  }

  lemma MemberParts(m: Member)
    ensures PrintMember(Java, m) == Quoted(Java, m.name) + Ascii(":") + Print(Java, m.value)
  {
  }

  // What is encoded is UTF-16 without surrogates

  predicate IsUtf16(t: Text) {
    forall i :: 0 <= i < |t| ==> t[i] < 0x1_0000
  }

  /** A UTF-16 text in which every unit is a character of its own. */
  predicate IsPlain(t: Text) {
    forall i :: 0 <= i < |t| ==> t[i] < 0x1_0000 && !IsSurrogate(t[i])
  }

  predicate Utf16Tree(v: Json)
    decreases v, 0
  {
    match v
    case Str(s) => IsUtf16(s)
    case Arr(items) => Utf16Items(items)
    case Obj(members) => Utf16Members(members)
    case _ => true
  }

  predicate Utf16Items(items: seq<Json>)
    decreases items, 1
  {
    items == [] || (Utf16Tree(items[0]) && Utf16Items(items[1..]))
  }

  predicate Utf16Members(members: seq<Member>)
    decreases members, 1
  {
    members == [] || (IsUtf16(members[0].name) && Utf16Tree(members[0].value) && Utf16Members(members[1..]))
  }

  lemma PlainWords()
    ensures IsPlain(Ascii("null")) && IsPlain(Ascii("true")) && IsPlain(Ascii("false"))
    ensures IsPlain(Ascii("[")) && IsPlain(Ascii("]")) && IsPlain(Ascii("{")) && IsPlain(Ascii("}"))
    ensures IsPlain(Ascii(",")) && IsPlain(Ascii(":"))
  {
  }

  lemma {:induction false} EscapePlain(s: Text)
    requires IsUtf16(s)
    ensures IsPlain(Escape(Java, s))
    decreases |s|
  {
    if s != [] {
      EscapePlain(s[1..]);
      assert IsPlain(EscapeUnit(Java, s[0]));
    }
  }

  lemma QuotedPlain(s: Text)
    requires IsUtf16(s)
    ensures IsPlain(Quoted(Java, s))
  {
    hide Escape;
    EscapePlain(s);
  }

  lemma DecimalPlain(n: int)
    ensures IsPlain(Decimal(n))
  {
    hide DecimalNat;
    var digits := DecimalNat(if n < 0 then -n else n);
    assert forall i :: 0 <= i < |digits| ==> IsDigit(digits[i]);
  }

  /** The encoded text has no surrogate, so each of its units is a character. */
  lemma {:induction false} PrintPlain(v: Json)
    requires Utf16Tree(v)
    ensures IsPlain(Print(Java, v))
    decreases v, 2
  {
    hide Ascii, Quoted, Decimal;
    PlainWords();
    match v
    case Null =>
    case Bool(b) =>
    case Int(n) => DecimalPlain(n);
    case Str(s) => QuotedPlain(s);
    case Arr(items) =>
      ItemsInBrackets(items);
      ItemsPlain(items);
    case Obj(members) =>
      MembersInBraces(members);
      MembersPlain(members);
  }

  lemma {:induction false} ItemsPlain(items: seq<Json>)
    requires Utf16Items(items)
    ensures IsPlain(Items(items)) && IsPlain(PrintItems(Java, items))
    decreases items, 1
  {
    hide Ascii, Print;
    PlainWords();
    if items != [] {
      PrintPlain(items[0]);
      ItemsPlain(items[1..]);
    }
  }

  lemma {:induction false} MembersPlain(members: seq<Member>)
    requires Utf16Members(members)
    ensures IsPlain(Members(members)) && IsPlain(PrintMembers(Java, members))
    decreases members, 1
  {
    hide Ascii, Print, Quoted;
    PlainWords();
    if members != [] {
      QuotedPlain(members[0].name);
      PrintPlain(members[0].value);
      MemberParts(members[0]);
      hide PrintMember;
      MembersPlain(members[1..]);
    }
  }

  // The conversion to bytes

  /** UTF-8 of a character of the basic plane (section 3 of RFC 3629). */
  function Utf8Unit(u: nat): Text
    requires u < 0x1_0000
  {
    if u < 0x80 then [u]
    else if u < 0x800 then [0xC0 + u / 64, 0x80 + u % 64]
    else [0xE0 + u / 4096, 0x80 + u / 64 % 64, 0x80 + u % 64]
  }

  /** `getBytes(UTF_8)`: surrogate pairs become one character, a lone surrogate a question mark. */
  function Utf8(t: Text): Text
    requires IsUtf16(t)
    decreases |t|
  {
    if t == [] then []
    else if |t| > 1 && 0xD800 <= t[0] <= 0xDBFF && 0xDC00 <= t[1] <= 0xDFFF then
      var c := 0x1_0000 + (t[0] - 0xD800) * 1024 + (t[1] - 0xDC00);
      [0xF0 + c / 262144, 0x80 + c / 4096 % 64, 0x80 + c / 64 % 64, 0x80 + c % 64] + Utf8(t[2..])
    else
      (if IsSurrogate(t[0]) then ['?' as nat] else Utf8Unit(t[0])) + Utf8(t[1..])
  }

  /** The characters of the basic plane back from their UTF-8. */
  function FromUtf8(b: Text): Text
    decreases |b|
  {
    if b == [] then []
    else if b[0] < 0x80 then [b[0]] + FromUtf8(b[1..])
    else if 0xC0 <= b[0] < 0xE0 && |b| > 1 && 0x80 <= b[1] then
      [(b[0] - 0xC0) * 64 + (b[1] - 0x80)] + FromUtf8(b[2..])
    else if 0xE0 <= b[0] && |b| > 2 && 0x80 <= b[1] && 0x80 <= b[2] then
      [(b[0] - 0xE0) * 4096 + (b[1] - 0x80) * 64 + (b[2] - 0x80)] + FromUtf8(b[3..])
    else []
  }

  lemma Utf8UnitBack(u: nat, rest: Text)
    requires u < 0x1_0000
    ensures FromUtf8(Utf8Unit(u) + rest) == [u] + FromUtf8(rest)
  {
    var e := Utf8Unit(u);
    assert (e + rest)[|e|..] == rest;
    assert u / 64 / 64 == u / 4096;
  }

  /** On text without surrogates the conversion loses nothing. */
  lemma {:induction false} Utf8Lossless(t: Text)
    requires IsPlain(t)
    ensures IsUtf16(t) && FromUtf8(Utf8(t)) == t
    decreases |t|
  {
    if t != [] {
      hide FromUtf8, Utf8Unit;
      Utf8Lossless(t[1..]);
      Utf8UnitBack(t[0], Utf8(t[1..]));
      assert t == [t[0]] + t[1..];
    } else {
      assert Utf8(t) == [];
    }
  }

  /** Without the escapes it would: two different lone surrogates become the same byte. */
  lemma LoneSurrogatesCollide()
    ensures Utf8([0xD800]) == Utf8([0xDC00]) == ['?' as nat]
  {
    assert [0xD800][1..] == [] && [0xDC00][1..] == [];
  }

  /** Every option value arrives in native code as it was: the bytes decode to the encoded text, and
      that reads back as the value. */
  lemma EncodeRoundTrip(v: Json)
    requires Utf16Tree(v)
    ensures IsPlain(Print(Java, v)) && IsUtf16(Print(Java, v))
    ensures Read(FromUtf8(Utf8(Print(Java, v)))) == Some(v)
  {
    hide Print, Read, Utf8, FromUtf8;
    PrintPlain(v);
    Utf8Lossless(Print(Java, v));
    ReadPrint(Java, v);
  }
}
