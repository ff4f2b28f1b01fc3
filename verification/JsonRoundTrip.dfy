/** Reading undoes printing, in both styles and whatever text follows. */
module JsonRoundTrip {
  import opened Text
  import opened Wrappers
  import opened Json

  lemma HexDigitValue(d: nat)
    requires d < 16
    ensures HexValue(HexDigit(d)) == Some(d)
  {
  }

  lemma HexDigitsSum(u: nat)
    requires u < 0x1_0000
    ensures u / 4096 < 16
    ensures 4096 * (u / 4096) + 256 * (u / 256 % 16) + 16 * (u / 16 % 16) + u % 16 == u
  {
    assert u / 16 / 16 == u / 256 && u / 256 / 16 == u / 4096;
  }

  /** Reading one printed unit gives it back and stops right after it. */
  lemma ReadEscapedUnit(style: Style, u: nat, rest: Text)
    ensures var t := EscapeUnit(style, u) + rest;
            if t[0] == BACKSLASH then ReadEscape(t[1..]) == Some((u, rest))
            else t[0] != QUOTE && t[0] >= 0x20 && t[0] == u && t[1..] == rest
  {
    var e := EscapeUnit(style, u);
    var t := e + rest;
    if e == [u] {
      assert t[1..] == rest;
    } else if |e| == 2 {
      assert t[1..][1..] == rest;
    } else {
      assert e == UnicodeEscape(u) && |e| == 6;
      HexDigitsSum(u);
      HexDigitValue(u / 4096);
      HexDigitValue(u / 256 % 16);
      HexDigitValue(u / 16 % 16);
      HexDigitValue(u % 16);
      assert t[1..][5..] == rest;
    }
  }

  lemma ReadUnit(style: Style, u: nat, tail: Text, s: Text, rest: Text)
    requires ReadString(tail) == Some((s, rest))
    ensures ReadString(EscapeUnit(style, u) + tail) == Some(([u] + s, rest))
  {
    ReadEscapedUnit(style, u, tail);
    hide EscapeUnit, ReadEscape;
  }

  lemma ReadClosed(rest: Text)
    ensures ReadString([QUOTE] + rest) == Some(([], rest))
  {
    assert ([QUOTE] + rest)[1..] == rest;
  }

  lemma Regroup(a: Text, b: Text, c: Text)
    ensures a + b + c == a + (b + c)
  {
  }

  lemma EscapeFront(style: Style, s: Text, rest: Text)
    requires s != []
    ensures Escape(style, s) + rest == EscapeUnit(style, s[0]) + (Escape(style, s[1..]) + rest)
    ensures s == [s[0]] + s[1..]
  {
    var u, t := EscapeUnit(style, s[0]), Escape(style, s[1..]);
    assert Escape(style, s) == u + t;
    hide *;
    Regroup(u, t, rest);
  }

  lemma EscapeNothing(style: Style)
    ensures Escape(style, []) == []
  {
  }

  /** Escaping is invertible and self-delimiting: a lexer started after the opening quote stops
      exactly at the closing one. */
  lemma {:induction false} ReadEscaped(style: Style, s: Text, rest: Text)
    ensures ReadString(Escape(style, s) + [QUOTE] + rest) == Some((s, rest))
    decreases |s|
  {
    hide *;
    if s == [] {
      EscapeNothing(style);
      ReadClosed(rest);
      assert [] + [QUOTE] + rest == [QUOTE] + rest;
    } else {
      ReadEscaped(style, s[1..], rest);
      EscapeFront(style, s, [QUOTE] + rest);
      var tail := Escape(style, s[1..]);
      assert tail + [QUOTE] + rest == tail + ([QUOTE] + rest);
      ReadUnit(style, s[0], tail + ([QUOTE] + rest), s[1..], rest);
      assert Escape(style, s) + [QUOTE] + rest == Escape(style, s) + ([QUOTE] + rest);
    }
  }

  /** Two texts that escape alike are alike. */
  lemma EscapeInjective(style: Style, a: Text, b: Text)
    requires Escape(style, a) == Escape(style, b)
    ensures a == b
  {
    ReadEscaped(style, a, []);
    ReadEscaped(style, b, []);
  }

  /** No control character is printed inside a string (section 7 of RFC 8259). */
  lemma {:induction false} EscapeHasNoControls(style: Style, s: Text)
    ensures forall i :: 0 <= i < |Escape(style, s)| ==> Escape(style, s)[i] >= 0x20
    decreases |s|
  {
    if s != [] {
      EscapeHasNoControls(style, s[1..]);
    }
  }

  lemma ReadDecimal(n: nat, rest: Text)
    requires !NumberGoesOn(rest)
    ensures ReadNat(DecimalNat(n) + rest) == Some((n, rest))
  {
    var d := DecimalNat(n);
    var t := d + rest;
    assert t[..|d|] == d && t[|d|..] == rest;
    DigitRunUnique(t, |d|);
  }

  /** What may follow a value: for a number, nothing that would continue it. */
  predicate Ends(v: Json, rest: Text) {
    v.Int? ==> !NumberGoesOn(rest)
  }

  lemma PrintStarts(style: Style, v: Json)
    ensures Print(style, v) != []
    ensures !IsSpace(Print(style, v)[0])
    ensures Print(style, v)[0] != ']' as nat && Print(style, v)[0] != '}' as nat
  {
  }

  // One step of the reader, on what the printer puts first

  lemma ReadWord(rest: Text)
    ensures ReadValue(Ascii("null") + rest) == Some((Null, rest))
    ensures ReadValue(Ascii("true") + rest) == Some((Bool(true), rest))
    ensures ReadValue(Ascii("false") + rest) == Some((Bool(false), rest))
  {
    assert (Ascii("null") + rest)[4..] == rest && StartsWith(Ascii("null") + rest, Ascii("null"));
    assert (Ascii("true") + rest)[4..] == rest && StartsWith(Ascii("true") + rest, Ascii("true"));
    assert (Ascii("false") + rest)[5..] == rest && StartsWith(Ascii("false") + rest, Ascii("false"));
  }

  lemma ReadNegative(n: nat, rest: Text)
    requires !NumberGoesOn(rest)
    ensures ReadNumber(Ascii("-") + DecimalNat(n) + rest) == Some((-(n as int), rest))
  {
    ReadDecimal(n, rest);
    hide DecimalNat, ReadNat;
    var t := Ascii("-") + DecimalNat(n) + rest;
    assert t[0] == '-' as nat && t[1..] == DecimalNat(n) + rest;
  }

  lemma ReadNonNegative(n: nat, rest: Text)
    requires !NumberGoesOn(rest)
    ensures ReadNumber(DecimalNat(n) + rest) == Some((n, rest))
  {
    ReadDecimal(n, rest);
    hide DecimalNat, ReadNat;
    assert IsDigit((DecimalNat(n) + rest)[0]);
  }

  lemma ReadSigned(n: int, rest: Text)
    requires !NumberGoesOn(rest)
    ensures ReadNumber(Decimal(n) + rest) == Some((n, rest))
  {
    hide *;
    if n < 0 {
      ReadNegative(-n, rest);
    } else {
      ReadNonNegative(n, rest);
    }
  }

  lemma ReadPrintedNumber(n: int, rest: Text)
    requires !NumberGoesOn(rest)
    ensures ReadValue(Decimal(n) + rest) == Some((Int(n), rest))
  {
    hide DecimalNat, ReadNumber;
    ReadSigned(n, rest);
    var u := (Decimal(n) + rest)[0];
    assert IsDigit(u) || u == '-' as nat;
  }

  lemma ReadQuoted(style: Style, s: Text, rest: Text)
    ensures ReadValue(Quoted(style, s) + rest) == Some((Str(s), rest))
  {
    ReadEscaped(style, s, rest);
    hide Escape, ReadString;
    assert (Quoted(style, s) + rest)[1..] == Escape(style, s) + [QUOTE] + rest;
  }

  lemma ReadArrayFrom(t: Text, v: Json, tail: Text, vs: seq<Json>, end: Text)
    requires t != [] && !IsSpace(t[0]) && t[0] != ']' as nat
    requires ReadValue(t) == Some((v, tail)) && ReadItems(tail) == Some((vs, end))
    ensures ReadValue(Ascii("[") + t) == Some((Arr([v] + vs), end))
  {
    assert (Ascii("[") + t)[1..] == t;
  }

  lemma ReadObjectFrom(t: Text, m: Member, tail: Text, ms: seq<Member>, end: Text)
    requires t != [] && t[0] == QUOTE
    requires ReadMember(t) == Some((m, tail)) && ReadMembers(tail) == Some((ms, end))
    ensures ReadValue(Ascii("{") + t) == Some((Obj([m] + ms), end))
  {
    assert (Ascii("{") + t)[1..] == t;
  }

  lemma ReadNextItem(t: Text, v: Json, tail: Text, vs: seq<Json>, end: Text)
    requires ReadValue(t) == Some((v, tail)) && ReadItems(tail) == Some((vs, end))
    ensures ReadItems(Ascii(",") + t) == Some(([v] + vs, end))
  {
    assert (Ascii(",") + t)[1..] == t;
  }

  lemma ReadNextMember(t: Text, m: Member, tail: Text, ms: seq<Member>, end: Text)
    requires ReadMember(t) == Some((m, tail)) && ReadMembers(tail) == Some((ms, end))
    ensures ReadMembers(Ascii(",") + t) == Some(([m] + ms, end))
  {
    assert (Ascii(",") + t)[1..] == t;
  }

  lemma ReadEmpty(rest: Text)
    ensures ReadValue(Ascii("[]") + rest) == Some((Arr([]), rest))
    ensures ReadValue(Ascii("{}") + rest) == Some((Obj([]), rest))
    ensures ReadItems(Ascii("]") + rest) == Some(([], rest))
    ensures ReadMembers(Ascii("}") + rest) == Some(([], rest))
  {
    assert (Ascii("[]") + rest)[1..] == Ascii("]") + rest;
    assert (Ascii("{}") + rest)[1..] == Ascii("}") + rest;
    assert (Ascii("]") + rest)[1..] == rest;
    assert (Ascii("}") + rest)[1..] == rest;
  }

  // What follows a printed item or member never continues a number

  lemma ItemsStop(style: Style, items: seq<Json>, rest: Text)
    ensures !NumberGoesOn(PrintItems(style, items) + (Ascii("]") + rest))
  {
  }

  lemma MembersStop(style: Style, members: seq<Member>, rest: Text)
    ensures !NumberGoesOn(PrintMembers(style, members) + (Ascii("}") + rest))
  {
  }

  /** The reader inverts the printer on every value, and consumes exactly the printed text. */
  lemma {:induction false} ReadPrinted(style: Style, v: Json, rest: Text)
    requires Ends(v, rest)
    ensures ReadValue(Print(style, v) + rest) == Some((v, rest))
    decreases v, 0
  {
    match v
    case Int(n) => ReadPrintedNumber(n, rest);
    case Str(s) => ReadQuoted(style, s, rest);
    case Arr(items) =>
      if items == [] {
        ReadEmpty(rest);
      } else {
        ReadPrintedArray(style, items, rest);
      }
    case Obj(members) =>
      if members == [] {
        ReadEmpty(rest);
      } else {
        ReadPrintedObject(style, members, rest);
      }
    case _ => ReadWord(rest);
  }

  lemma {:induction false} ReadPrintedArray(style: Style, items: seq<Json>, rest: Text)
    requires items != []
    ensures ReadValue(Print(style, Arr(items)) + rest) == Some((Arr(items), rest))
    decreases items, 2
  {
    hide ReadValue, ReadItems, PrintItems;
    var tail := PrintItems(style, items[1..]) + (Ascii("]") + rest);
    var t := Print(style, items[0]) + tail;
    PrintStarts(style, items[0]);
    ItemsStop(style, items[1..], rest);
    ReadPrinted(style, items[0], tail);
    ReadPrintedItems(style, items[1..], rest);
    ReadArrayFrom(t, items[0], tail, items[1..], rest);
    assert items == [items[0]] + items[1..];
    assert Print(style, Arr(items)) + rest == Ascii("[") + t;
  }

  lemma PrintItemsCons(style: Style, items: seq<Json>, end: Text)
    requires items != []
    ensures PrintItems(style, items) + end
            == Ascii(",") + (Print(style, items[0]) + (PrintItems(style, items[1..]) + end))
  {
    hide Print;
  }

  lemma NothingPrintedYet(style: Style, end: Text)
    ensures PrintItems(style, []) + end == end && PrintMembers(style, []) + end == end
  {
  }

  lemma FirstAndRest<T>(s: seq<T>)
    requires s != []
    ensures s == [s[0]] + s[1..]
  {
  }

  lemma {:induction false} ReadPrintedItems(style: Style, items: seq<Json>, rest: Text)
    ensures ReadItems(PrintItems(style, items) + (Ascii("]") + rest)) == Some((items, rest))
    decreases items, 1
  {
    hide *;
    if items == [] {
      ReadEmpty(rest);
      NothingPrintedYet(style, Ascii("]") + rest);
    } else {
      var tail := PrintItems(style, items[1..]) + (Ascii("]") + rest);
      PrintItemsCons(style, items, Ascii("]") + rest);
      ItemsStop(style, items[1..], rest);
      EndsBefore(items[0], tail);
      ReadPrinted(style, items[0], tail);
      ReadPrintedItems(style, items[1..], rest);
      ReadNextItem(Print(style, items[0]) + tail, items[0], tail, items[1..], rest);
      FirstAndRest(items);
    }
  }

  lemma EndsBefore(v: Json, rest: Text)
    requires !NumberGoesOn(rest)
    ensures Ends(v, rest)
  {
  }

  lemma ReadMemberFrom(t: Text, name: Text, value: Text, v: Json, end: Text)
    requires t != [] && t[0] == QUOTE && ReadString(t[1..]) == Some((name, Ascii(":") + value))
    requires ReadValue(value) == Some((v, end))
    ensures ReadMember(t) == Some((Member(name, v), end))
  {
    hide ReadString, ReadValue;
    assert (Ascii(":") + value)[1..] == value;
  }

  lemma MemberStarts(style: Style, m: Member, rest: Text)
    ensures var t := PrintMember(style, m) + rest;
            && t != [] && t[0] == QUOTE
            && t[1..] == Escape(style, m.name) + [QUOTE] + (Ascii(":") + (Print(style, m.value) + rest))
  {
    hide Escape, Print, Ascii;
    var e, c, p := Escape(style, m.name), Ascii(":"), Print(style, m.value);
    assert PrintMember(style, m) + rest == [QUOTE] + (e + [QUOTE] + (c + (p + rest)));
  }

  lemma {:induction false} ReadPrintedMember(style: Style, m: Member, rest: Text)
    requires Ends(m.value, rest)
    ensures ReadMember(PrintMember(style, m) + rest) == Some((m, rest))
    decreases m, 1
  {
    hide *;
    var value := Print(style, m.value) + rest;
    MemberStarts(style, m, rest);
    ReadEscaped(style, m.name, Ascii(":") + value);
    ReadPrinted(style, m.value, rest);
    ReadMemberFrom(PrintMember(style, m) + rest, m.name, value, m.value, rest);
  }

  lemma {:induction false} ReadPrintedObject(style: Style, members: seq<Member>, rest: Text)
    requires members != []
    ensures ReadValue(Print(style, Obj(members)) + rest) == Some((Obj(members), rest))
    decreases members, 3
  {
    hide ReadValue, ReadMember, ReadMembers, PrintMembers;
    var tail := PrintMembers(style, members[1..]) + (Ascii("}") + rest);
    var t := PrintMember(style, members[0]) + tail;
    MembersStop(style, members[1..], rest);
    ReadPrintedMember(style, members[0], tail);
    ReadPrintedMembers(style, members[1..], rest);
    ReadObjectFrom(t, members[0], tail, members[1..], rest);
    assert members == [members[0]] + members[1..];
    hide PrintMember;
    assert Print(style, Obj(members)) + rest == Ascii("{") + t;
  }

  lemma PrintMembersCons(style: Style, members: seq<Member>, end: Text)
    requires members != []
    ensures PrintMembers(style, members) + end
            == Ascii(",") + (PrintMember(style, members[0]) + (PrintMembers(style, members[1..]) + end))
  {
    hide PrintMember;
  }

  lemma {:induction false} ReadPrintedMembers(style: Style, members: seq<Member>, rest: Text)
    ensures ReadMembers(PrintMembers(style, members) + (Ascii("}") + rest)) == Some((members, rest))
    decreases members, 2
  {
    hide *;
    if members == [] {
      ReadEmpty(rest);
      NothingPrintedYet(style, Ascii("}") + rest);
    } else {
      var tail := PrintMembers(style, members[1..]) + (Ascii("}") + rest);
      PrintMembersCons(style, members, Ascii("}") + rest);
      MembersStop(style, members[1..], rest);
      EndsBefore(members[0].value, tail);
      ReadPrintedMember(style, members[0], tail);
      ReadPrintedMembers(style, members[1..], rest);
      ReadNextMember(PrintMember(style, members[0]) + tail, members[0], tail, members[1..], rest);
      FirstAndRest(members);
    }
  }

  /** Every printed document reads back as the value it was printed from. */
  lemma ReadPrint(style: Style, v: Json)
    ensures Read(Print(style, v)) == Some(v)
  {
    ReadPrinted(style, v, []);
    assert Print(style, v) + [] == Print(style, v);
  }

  // Appending, as the printers do it

  lemma {:induction false} EscapeAppend(style: Style, a: Text, b: Text)
    ensures Escape(style, a + b) == Escape(style, a) + Escape(style, b)
    decreases |a|
  {
    if a == [] {
      assert a + b == b;
    } else {
      assert (a + b)[1..] == a[1..] + b;
      EscapeAppend(style, a[1..], b);
    }
  }

  lemma EscapeOne(style: Style, u: nat)
    ensures Escape(style, [u]) == EscapeUnit(style, u)
  {
    assert [u][1..] == [];
    assert EscapeUnit(style, u) + [] == EscapeUnit(style, u);
  }

  lemma {:induction false} PrintItemsAppend(style: Style, a: seq<Json>, b: seq<Json>)
    ensures PrintItems(style, a + b) == PrintItems(style, a) + PrintItems(style, b)
    decreases |a|
  {
    if a == [] {
      assert a + b == b;
    } else {
      assert (a + b)[1..] == a[1..] + b;
      PrintItemsAppend(style, a[1..], b);
    }
  }

  lemma {:induction false} PrintMembersAppend(style: Style, a: seq<Member>, b: seq<Member>)
    ensures PrintMembers(style, a + b) == PrintMembers(style, a) + PrintMembers(style, b)
    decreases |a|
  {
    if a == [] {
      assert a + b == b;
    } else {
      assert (a + b)[1..] == a[1..] + b;
      PrintMembersAppend(style, a[1..], b);
    }
  }

  /** The two-character escapes are those of section 7 of RFC 8259, and other control characters are
      written as numbers. */
  lemma EscapeTable()
    ensures Escape(Native, Ascii("\"")) == Ascii("\\\"") && Escape(Native, Ascii("\\")) == Ascii("\\\\")
    ensures Escape(Native, [0x08]) == Ascii("\\b") && Escape(Native, [0x0C]) == Ascii("\\f")
    ensures Escape(Native, [0x0A]) == Ascii("\\n") && Escape(Native, [0x0D]) == Ascii("\\r")
    ensures Escape(Native, [0x09]) == Ascii("\\t") && Escape(Native, [0x1F]) == Ascii("\\u001f")
  {
    EscapeOne(Native, QUOTE);
    EscapeOne(Native, BACKSLASH);
    EscapeOne(Native, 0x08);
    EscapeOne(Native, 0x0C);
    EscapeOne(Native, 0x0A);
    EscapeOne(Native, 0x0D);
    EscapeOne(Native, 0x09);
    EscapeOne(Native, 0x1F);
    hide Escape;
    assert Ascii("\"") == [QUOTE] && Ascii("\\") == [BACKSLASH];
    assert Ascii("\\u001f") == Ascii("\\u") + [HexDigit(0), HexDigit(0), HexDigit(1), HexDigit(15)];
  }
}
