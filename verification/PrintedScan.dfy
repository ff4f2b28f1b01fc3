/** The textual scan on any object the native printer prints, with members in any order and of any
    depth: only the strings before a claim decide whether the scan finds it. */
module PrintedScan {
  import opened Text
  import opened Clock
  import opened Json
  import opened JsonRoundTrip
  import opened TokenPrinter
  import opened IntegerScan
  import opened ClaimsScan
  import opened LookAlike

  predicate IsName(n: Text) {
    n != [] && AllLetters(n)
  }

  /** No string in the tree, member names included, looks like the marker. */
  predicate Clear(v: Json, n: Text)
    decreases v, 0
  {
    match v
    case Str(s) => !LooksLike(s, n)
    case Arr(items) => ClearItems(items, n)
    case Obj(members) => ClearMembers(members, n)
    case _ => true
  }

  predicate ClearItems(items: seq<Json>, n: Text)
    decreases items, 1
  {
    items == [] || (Clear(items[0], n) && ClearItems(items[1..], n))
  }

  predicate ClearMembers(members: seq<Member>, n: Text)
    decreases members, 1
  {
    members == [] || (ClearMember(members[0], n) && ClearMembers(members[1..], n))
  }

  predicate ClearMember(m: Member, n: Text)
    decreases m, 1
  {
    !LooksLike(m.name, n) && Clear(m.value, n)
  }

  // Where markers end

  /** A marker for the name ends in the quote at e. */
  predicate MarkerEndsAt(t: Text, n: Text, e: nat) {
    && |n| + 1 <= e < |t| && t[e] == QUOTE && t[e - |n| - 1] == QUOTE && t[e - |n|..e] == n
  }

  predicate NoEnds(t: Text, n: Text, from: nat, to: nat) {
    forall e :: from <= e < to ==> !MarkerEndsAt(t, n, e)
  }

  predicate At(t: Text, a: nat, piece: Text) {
    a + |piece| <= |t| && t[a..a + |piece|] == piece
  }

  lemma AtUnit(t: Text, a: nat, piece: Text, i: nat)
    requires At(t, a, piece) && i < |piece|
    ensures t[a + i] == piece[i]
  {
    assert t[a..a + |piece|][i] == t[a + i];
  }

  lemma AtParts(t: Text, a: nat, x: Text, y: Text)
    requires At(t, a, x + y)
    ensures At(t, a, x) && At(t, a + |x|, y)
  {
    var p := t[a..a + |x + y|];
    assert t[a..a + |x|] == p[..|x|] && t[a + |x|..a + |x| + |y|] == p[|x|..];
  }

  lemma JoinNoEnds(t: Text, n: Text, a: nat, b: nat, c: nat)
    requires NoEnds(t, n, a, b) && NoEnds(t, n, b, c)
    ensures NoEnds(t, n, a, c)
  {
  }

  predicate NoQuote(piece: Text) {
    forall i :: 0 <= i < |piece| ==> piece[i] != QUOTE
  }

  lemma NoQuoteNoEnds(t: Text, n: Text, a: nat, piece: Text)
    requires At(t, a, piece) && NoQuote(piece)
    ensures NoEnds(t, n, a, a + |piece|)
  {
    forall e | a <= e < a + |piece| ensures !MarkerEndsAt(t, n, e) {
      AtUnit(t, a, piece, e - a);
    }
  }

  // A string without the look has no marker

  /** What stands before a value: nothing, or no letter. */
  predicate Opens(t: Text, a: nat) {
    a <= |t| && (a > 0 ==> !IsLetter(t[a - 1]))
  }

  lemma LastLetter(t: Text, n: Text, e: nat)
    requires IsName(n) && MarkerEndsAt(t, n, e)
    ensures IsLetter(t[e - 1]) && forall i :: e - |n| <= i < e ==> t[i] != QUOTE
  {
    forall i | e - |n| <= i < e ensures IsLetter(t[i]) {
      assert t[e - |n|..e][i - (e - |n|)] == t[i];
    }
  }

  /** Inside a string no quote ends a marker: it stands behind a backslash. */
  lemma InsideString(t: Text, n: Text, a: nat, s: Text, e: nat)
    requires IsName(n) && At(t, a, Escape(Native, s)) && a <= e < a + |Escape(Native, s)|
    ensures !MarkerEndsAt(t, n, e)
  {
    hide Escape;
    AtUnit(t, a, Escape(Native, s), e - a);
    if t[e] == QUOTE {
      QuotesAreEscaped(s, e - a);
      AtUnit(t, a, Escape(Native, s), e - a - 1);
      assert t[e - 1] == BACKSLASH;
      if MarkerEndsAt(t, n, e) {
        LastLetter(t, n, e);
      }
    }
  }

  /** The closing quote ends a marker only if the string looks like one. */
  lemma ClosingQuote(t: Text, n: Text, a: nat, s: Text)
    requires IsName(n) && At(t, a, Escape(Native, s)) && a > 0 && t[a - 1] == QUOTE && !LooksLike(s, n)
    ensures !MarkerEndsAt(t, n, a + |Escape(Native, s)|)
  {
    hide Escape, LooksLike;
    var x := Escape(Native, s);
    var e := a + |x|;
    if MarkerEndsAt(t, n, e) {
      LastLetter(t, n, e);
      assert |n| <= |x|;
      if |n| == |x| {
        EscapedSame(s, n);
      } else {
        var i := |x| - |n| - 1;
        AtUnit(t, a, x, i);
        assert x[i + 1..] == t[e - |n|..e];
        EscapedLook(s, n, i);
      }
    }
  }

  lemma QuotedParts(t: Text, a: nat, s: Text)
    requires At(t, a, Quoted(Native, s))
    ensures At(t, a + 1, Escape(Native, s)) && t[a] == QUOTE && |Quoted(Native, s)| == |Escape(Native, s)| + 2
  {
    hide Escape, At;
    var x := Escape(Native, s);
    assert Quoted(Native, s) == [QUOTE] + (x + [QUOTE]);
    AtParts(t, a, [QUOTE], x + [QUOTE]);
    AtParts(t, a + 1, x, [QUOTE]);
    AtUnit(t, a, [QUOTE], 0);
  }

  lemma StringClear(t: Text, n: Text, a: nat, s: Text)
    requires IsName(n) && At(t, a, Quoted(Native, s)) && Opens(t, a) && !LooksLike(s, n)
    ensures NoEnds(t, n, a, a + |Quoted(Native, s)|)
  {
    hide Escape, LooksLike, At, IsName, Quoted, MarkerEndsAt, Opens;
    QuotedParts(t, a, s);
    var x := Escape(Native, s);
    OpeningQuote(t, n, a);
    ClosingQuote(t, n, a + 1, s);
    forall e: nat | a < e < a + 1 + |x| ensures !MarkerEndsAt(t, n, e) {
      InsideString(t, n, a + 1, s, e);
    }
  }

  // Values

  lemma {:induction false} ValueClear(t: Text, n: Text, a: nat, v: Json)
    requires IsName(n) && At(t, a, Print(Native, v)) && Opens(t, a) && Clear(v, n)
    ensures NoEnds(t, n, a, a + |Print(Native, v)|)
    decreases v, 2
  {
    hide Quoted, Decimal, LooksLike, IsName, At, NoEnds, Opens;
    match v
    case Null =>
      WordsHaveNoQuote();
      NoQuoteNoEnds(t, n, a, Print(Native, v));
    case Bool(b) =>
      WordsHaveNoQuote();
      NoQuoteNoEnds(t, n, a, Print(Native, v));
    case Int(k) =>
      DecimalIsNumberText(k);
      NoQuoteNoEnds(t, n, a, Print(Native, v));
    case Str(s) => StringClear(t, n, a, s);
    case Arr(items) =>
      if items == [] {
        WordsHaveNoQuote();
        NoQuoteNoEnds(t, n, a, Print(Native, v));
      } else {
        ArrayClear(t, n, a, items);
      }
    case Obj(members) =>
      if members == [] {
        WordsHaveNoQuote();
        NoQuoteNoEnds(t, n, a, Print(Native, v));
      } else {
        ObjectClear(t, n, a, members);
      }
  }

  lemma WordsHaveNoQuote()
    ensures NoQuote(Ascii("null")) && NoQuote(Ascii("true")) && NoQuote(Ascii("false"))
    ensures NoQuote(Ascii("[]")) && NoQuote(Ascii("{}")) && NoQuote(Ascii("[")) && NoQuote(Ascii("]"))
    ensures NoQuote(Ascii("{")) && NoQuote(Ascii("}")) && NoQuote(Ascii(",")) && NoQuote(Ascii(":"))
  {
  }

  predicate IsPunctuation(mark: Text) {
    |mark| == 1 && mark[0] != QUOTE && !IsLetter(mark[0])
  }

  lemma Marks()
    ensures IsPunctuation(Ascii("[")) && IsPunctuation(Ascii("]")) && IsPunctuation(Ascii("{"))
    ensures IsPunctuation(Ascii("}")) && IsPunctuation(Ascii(",")) && IsPunctuation(Ascii(":"))
  {
  }

  /** A punctuation mark ends no marker, and a value may follow it. */
  lemma AfterMark(t: Text, n: Text, a: nat, mark: Text, rest: Text)
    requires IsPunctuation(mark) && At(t, a, mark + rest)
    ensures NoEnds(t, n, a, a + 1) && Opens(t, a + 1) && At(t, a + 1, rest)
  {
    AtParts(t, a, mark, rest);
    AtUnit(t, a, mark, 0);
  }

  // How arrays and objects are put together

  lemma ArrayText(items: seq<Json>)
    requires items != []
    ensures Print(Native, Arr(items))
            == Ascii("[") + (Print(Native, items[0]) + (PrintItems(Native, items[1..]) + Ascii("]")))
  {
    hide PrintItems, Ascii;
    Group(Ascii("["), Print(Native, items[0]), PrintItems(Native, items[1..]), Ascii("]"));
  }

  lemma ItemsText(items: seq<Json>)
    requires items != []
    ensures PrintItems(Native, items) == Ascii(",") + (Print(Native, items[0]) + PrintItems(Native, items[1..]))
  {
    hide Print, Ascii;
    Group(Ascii(","), Print(Native, items[0]), PrintItems(Native, items[1..]), []);
  }

  lemma ObjectText(members: seq<Member>)
    requires members != []
    ensures Print(Native, Obj(members))
            == Ascii("{") + (PrintMember(Native, members[0]) + (PrintMembers(Native, members[1..]) + Ascii("}")))
  {
    hide PrintMember, PrintMembers, Ascii;
    Group(Ascii("{"), PrintMember(Native, members[0]), PrintMembers(Native, members[1..]), Ascii("}"));
  }

  lemma MembersText(members: seq<Member>)
    requires members != []
    ensures PrintMembers(Native, members)
            == Ascii(",") + (PrintMember(Native, members[0]) + PrintMembers(Native, members[1..]))
  {
    hide PrintMember, Ascii;
    Group(Ascii(","), PrintMember(Native, members[0]), PrintMembers(Native, members[1..]), []);
  }

  lemma OneMemberText(m: Member)
    ensures PrintMember(Native, m) == Quoted(Native, m.name) + (Ascii(":") + Print(Native, m.value))
  {
    hide Print, Quoted, Ascii;
    Group([], Quoted(Native, m.name), Ascii(":"), Print(Native, m.value));
  }

  lemma Group(a: Text, b: Text, c: Text, d: Text)
    ensures a + b + c + d == a + (b + (c + d)) && a + b + c == a + (b + c) && b + c + d == b + (c + d)
  {
  }

  /** A mark, a first part and the rest. */
  lemma Parts(t: Text, a: nat, mark: Text, first: Text, rest: Text)
    requires IsPunctuation(mark) && At(t, a, mark + (first + rest))
    ensures Opens(t, a + 1) && At(t, a + 1, first) && At(t, a + 1 + |first|, rest)
  {
    AtParts(t, a, mark, first + rest);
    AtUnit(t, a, mark, 0);
    AtParts(t, a + 1, first, rest);
  }

  lemma Whole(t: Text, n: Text, a: nat, mark: Text, first: Text, rest: Text)
    requires IsPunctuation(mark) && At(t, a, mark + (first + rest))
    requires NoEnds(t, n, a + 1, a + 1 + |first|)
    requires NoEnds(t, n, a + 1 + |first|, a + 1 + |first| + |rest|)
    ensures NoEnds(t, n, a, a + |mark + (first + rest)|)
  {
    AtParts(t, a, mark, first + rest);
    AtUnit(t, a, mark, 0);
    hide At;
  }

  lemma Closed(t: Text, n: Text, a: nat, rest: Text, mark: Text)
    requires IsPunctuation(mark) && At(t, a, rest + mark) && NoEnds(t, n, a, a + |rest|)
    ensures NoEnds(t, n, a, a + |rest + mark|)
  {
    AtParts(t, a, rest, mark);
    AtUnit(t, a + |rest|, mark, 0);
    hide At;
  }

  lemma NoItemsClear(t: Text, n: Text, a: nat, items: seq<Json>)
    requires items == []
    ensures NoEnds(t, n, a, a + |PrintItems(Native, items)|)
  {
  }

  lemma FirstItemClear(items: seq<Json>, n: Text)
    requires items != [] && ClearItems(items, n)
    ensures Clear(items[0], n) && ClearItems(items[1..], n)
  {
    hide Clear;
  }

  lemma {:induction false} ArrayClear(t: Text, n: Text, a: nat, items: seq<Json>)
    requires IsName(n) && items != [] && At(t, a, Print(Native, Arr(items))) && ClearItems(items, n)
    ensures NoEnds(t, n, a, a + |Print(Native, Arr(items))|)
    decreases items, 3
  {
    hide *;
    Marks();
    ArrayText(items);
    FirstItemClear(items, n);
    var first, rest, mark := Print(Native, items[0]), PrintItems(Native, items[1..]), Ascii("]");
    Parts(t, a, Ascii("["), first, rest + mark);
    ValueClear(t, n, a + 1, items[0]);
    AtParts(t, a + 1 + |first|, rest, mark);
    ItemsClear(t, n, a + 1 + |first|, items[1..]);
    Closed(t, n, a + 1 + |first|, rest, mark);
    Whole(t, n, a, Ascii("["), first, rest + mark);
  }

  lemma {:induction false} ItemsClear(t: Text, n: Text, a: nat, items: seq<Json>)
    requires IsName(n) && At(t, a, PrintItems(Native, items)) && ClearItems(items, n)
    ensures NoEnds(t, n, a, a + |PrintItems(Native, items)|)
    decreases items, 1
  {
    hide *;
    if items == [] {
      NoItemsClear(t, n, a, items);
    } else {
      Marks();
      ItemsText(items);
      FirstItemClear(items, n);
      var first, rest := Print(Native, items[0]), PrintItems(Native, items[1..]);
      Parts(t, a, Ascii(","), first, rest);
      ValueClear(t, n, a + 1, items[0]);
      ItemsClear(t, n, a + 1 + |first|, items[1..]);
      Whole(t, n, a, Ascii(","), first, rest);
    }
  }

  lemma {:induction false} ObjectClear(t: Text, n: Text, a: nat, members: seq<Member>)
    requires IsName(n) && members != [] && At(t, a, Print(Native, Obj(members))) && ClearMembers(members, n)
    ensures NoEnds(t, n, a, a + |Print(Native, Obj(members))|)
    decreases members, 3
  {
    hide *;
    Marks();
    ObjectText(members);
    FirstClear(members, n);
    var first, rest, mark := PrintMember(Native, members[0]), PrintMembers(Native, members[1..]), Ascii("}");
    Parts(t, a, Ascii("{"), first, rest + mark);
    MemberClear(t, n, a + 1, members[0]);
    AtParts(t, a + 1 + |first|, rest, mark);
    MembersClear(t, n, a + 1 + |first|, members[1..]);
    Closed(t, n, a + 1 + |first|, rest, mark);
    Whole(t, n, a, Ascii("{"), first, rest + mark);
  }

  lemma {:induction false} MemberClear(t: Text, n: Text, a: nat, m: Member)
    requires IsName(n) && At(t, a, PrintMember(Native, m)) && Opens(t, a) && ClearMember(m, n)
    ensures NoEnds(t, n, a, a + |PrintMember(Native, m)|)
    decreases m, 1
  {
    hide Print, PrintMember, Quoted, Clear, IsName, At, NoEnds, Opens, Ascii, LooksLike, IsPunctuation;
    Marks();
    OneMemberText(m);
    var name, value := Quoted(Native, m.name), Print(Native, m.value);
    AtParts(t, a, name, Ascii(":") + value);
    StringClear(t, n, a, m.name);
    AfterMark(t, n, a + |name|, Ascii(":"), value);
    ValueClear(t, n, a + |name| + 1, m.value);
    JoinNoEnds(t, n, a, a + |name|, a + |name| + 1);
    JoinNoEnds(t, n, a, a + |name| + 1, a + |name| + 1 + |value|);
  }

  lemma NoMembersClear(t: Text, n: Text, a: nat, members: seq<Member>)
    requires members == []
    ensures NoEnds(t, n, a, a + |PrintMembers(Native, members)|)
  {
  }

  lemma FirstClear(members: seq<Member>, n: Text)
    requires members != [] && ClearMembers(members, n)
    ensures ClearMember(members[0], n) && ClearMembers(members[1..], n)
  {
    hide ClearMember;
  }

  lemma {:induction false} MembersClear(t: Text, n: Text, a: nat, members: seq<Member>)
    requires IsName(n) && At(t, a, PrintMembers(Native, members)) && ClearMembers(members, n)
    ensures NoEnds(t, n, a, a + |PrintMembers(Native, members)|)
    decreases members, 2
  {
    hide *;
    if members == [] {
      NoMembersClear(t, n, a, members);
    } else {
      Marks();
      MembersText(members);
      FirstClear(members, n);
      var first, rest := PrintMember(Native, members[0]), PrintMembers(Native, members[1..]);
      Parts(t, a, Ascii(","), first, rest);
      MemberClear(t, n, a + 1, members[0]);
      MembersClear(t, n, a + 1 + |first|, members[1..]);
      Whole(t, n, a, Ascii(","), first, rest);
    }
  }

  // What the scan finds

  lemma CutSlice(t: Text, i: nat, k: nat)
    requires i + k + 2 <= |t|
    ensures t[i..i + k + 2] == [t[i]] + t[i + 1..i + 1 + k] + [t[i + 1 + k]]
  {
  }

  lemma SamePieces(a: nat, b: Text, c: nat, x: nat, y: Text, z: nat)
    requires |b| == |y|
    ensures [a] + b + [c] == [x] + y + [z] <==> a == x && b == y && c == z
  {
    var u, v := [a] + b + [c], [x] + y + [z];
    assert u[0] == a && u[1..|b| + 1] == b && u[|b| + 1] == c;
    assert v[0] == x && v[1..|b| + 1] == y && v[|b| + 1] == z;
  }

  lemma MarkerOccurs(t: Text, name: string, i: nat)
    requires name != ""
    ensures Occurs(t, Marker(name), i) <==> MarkerEndsAt(t, Ascii(name), i + |name| + 1)
  {
    MarkerText(name);
    hide Marker;
    var n := Ascii(name);
    if i + |n| + 2 <= |t| {
      CutSlice(t, i, |n|);
      SamePieces(t[i], t[i + 1..i + 1 + |n|], t[i + 1 + |n|], QUOTE, n, QUOTE);
    }
  }

  lemma MarkerText(name: string)
    ensures Marker(name) == [QUOTE] + Ascii(name) + [QUOTE] && |Marker(name)| == |name| + 2
  {
  }

  lemma NoneEarlier(t: Text, name: string, to: nat)
    requires name != "" && NoEnds(t, Ascii(name), 0, to)
    ensures forall i: nat :: i + |name| + 1 < to ==> !Occurs(t, Marker(name), i)
  {
    forall i: nat | i + |name| + 1 < to ensures !Occurs(t, Marker(name), i) {
      MarkerOccurs(t, name, i);
    }
  }

  /** Without a string that looks like the claim's name the scan finds none. */
  lemma NoClaim(members: seq<Member>, name: string)
    requires name != "" && IsName(Ascii(name)) && ClearMembers(members, Ascii(name))
    ensures ScanField(Print(Native, Obj(members)), name) == Absent
  {
    hide *;
    var t := Print(Native, Obj(members));
    Everywhere(t);
    ClearObject(members, Ascii(name));
    NothingBefore(t);
    ValueClear(t, Ascii(name), 0, Obj(members));
    NotFound(t, name);
  }

  lemma Everywhere(t: Text)
    ensures At(t, 0, t)
  {
    assert t[0..0 + |t|] == t;
  }

  lemma NothingBefore(t: Text)
    ensures Opens(t, 0)
  {
  }

  lemma ClearObject(members: seq<Member>, n: Text)
    requires ClearMembers(members, n)
    ensures Clear(Obj(members), n)
  {
  }

  lemma NotFound(t: Text, name: string)
    requires name != "" && NoEnds(t, Ascii(name), 0, 0 + |t|)
    ensures ScanField(t, name) == Absent
  {
    hide Occurs, Find, Marker, NumberAt, NoEnds;
    NoneEarlier(t, name, |t|);
    forall i: nat ensures !Occurs(t, Marker(name), i) {
      TooLate(t, name, i);
    }
  }

  lemma TooLate(t: Text, name: string, i: nat)
    ensures i + |name| + 1 >= |t| ==> !Occurs(t, Marker(name), i)
  {
    MarkerText(name);
  }

  /** What precedes a member among others. */
  function Lead(before: seq<Member>): Text {
    if before == [] then Ascii("{")
    else Ascii("{") + (PrintMember(Native, before[0]) + (PrintMembers(Native, before[1..]) + Ascii(",")))
  }

  lemma MemberInPlace(before: seq<Member>, m: Member, after: seq<Member>)
    ensures Print(Native, Obj(before + [m] + after))
            == Lead(before) + (PrintMember(Native, m) + (PrintMembers(Native, after) + Ascii("}")))
  {
    var ms := before + [m] + after;
    ObjectText(ms);
    hide PrintMember, PrintMembers, Ascii, Print;
    if before == [] {
      assert ms[1..] == after;
    } else {
      assert ms[1..] == before[1..] + ([m] + after);
      PrintMembersAppend(Native, before[1..], [m] + after);
      PrintMembersAppend(Native, [m], after);
      OneMember(m);
      Nest(Ascii("{"), PrintMember(Native, before[0]), PrintMembers(Native, before[1..]), Ascii(","),
           PrintMember(Native, m), PrintMembers(Native, after), Ascii("}"));
    }
  }

  lemma Nest(a: Text, b: Text, c: Text, d: Text, e: Text, f: Text, g: Text)
    ensures a + (b + (c + (d + e + f) + g)) == a + (b + (c + d)) + (e + (f + g))
  {
  }

  lemma AtStart(t: Text, lead: Text, rest: Text)
    requires t == lead + rest
    ensures At(t, 0, lead)
  {
  }

  lemma LeadClear(t: Text, n: Text, before: seq<Member>, rest: Text)
    requires IsName(n) && ClearMembers(before, n) && t == Lead(before) + rest
    ensures NoEnds(t, n, 0, |Lead(before)|) && Opens(t, |Lead(before)|)
  {
    hide *;
    if before == [] {
      Marks();
      NoLead(before);
      AtStart(t, Lead(before), rest);
      AfterMark(t, n, 0, Ascii("{"), []);
    } else {
      LeadClearSome(t, n, before, rest);
    }
  }

  lemma NoLead(before: seq<Member>)
    requires before == []
    ensures Lead(before) == Ascii("{") + [] && |Lead(before)| == 1
  {
  }

  lemma SomeLead(before: seq<Member>)
    requires before != []
    ensures Lead(before)
            == Ascii("{") + (PrintMember(Native, before[0]) + (PrintMembers(Native, before[1..]) + Ascii(",")))
  {
    hide PrintMember, PrintMembers, Ascii;
  }

  lemma LeadClearSome(t: Text, n: Text, before: seq<Member>, rest: Text)
    requires IsName(n) && ClearMembers(before, n) && before != []
    requires t == Lead(before) + rest
    ensures NoEnds(t, n, 0, |Lead(before)|) && Opens(t, |Lead(before)|)
  {
    hide *;
    Marks();
    SomeLead(before);
    FirstClear(before, n);
    var first, others := PrintMember(Native, before[0]), PrintMembers(Native, before[1..]);
    AtStart(t, Ascii("{") + (first + (others + Ascii(","))), rest);
    Parts(t, 0, Ascii("{"), first, others + Ascii(","));
    MemberClear(t, n, 1, before[0]);
    AtParts(t, 1 + |first|, others, Ascii(","));
    MembersClear(t, n, 1 + |first|, before[1..]);
    Closed(t, n, 1 + |first|, others, Ascii(","));
    Whole(t, n, 0, Ascii("{"), first, others + Ascii(","));
    EndsOpen(t, 1 + |first| + |others|, Ascii(","));
    Lengths(first, others);
  }

  lemma Lengths(first: Text, others: Text)
    ensures |Ascii("{") + (first + (others + Ascii(",")))| == 1 + |first| + |others| + 1
  {
  }

  lemma EndsOpen(t: Text, a: nat, mark: Text)
    requires IsPunctuation(mark) && At(t, a, mark)
    ensures Opens(t, a + 1)
  {
    AtUnit(t, a, mark, 0);
  }

  lemma InsideMarker(t: Text, name: string, lead: Text, follow: Text, e: nat)
    requires IsName(Ascii(name)) && t == lead + ([QUOTE] + Ascii(name) + [QUOTE] + follow)
    requires |lead| < e < |lead| + |name| + 1
    ensures !MarkerEndsAt(t, Ascii(name), e)
  {
    var n := Ascii(name);
    assert t[e] == n[e - |lead| - 1];
    assert IsLetter(n[e - |lead| - 1]);
  }

  lemma OpeningQuote(t: Text, n: Text, p: nat)
    requires IsName(n) && Opens(t, p)
    ensures !MarkerEndsAt(t, n, p)
  {
    if MarkerEndsAt(t, n, p) {
      LastLetter(t, n, p);
    }
  }

  lemma MarkerAtLead(t: Text, name: string, lead: Text, follow: Text)
    requires t == lead + ([QUOTE] + Ascii(name) + [QUOTE] + follow)
    ensures Occurs(t, Marker(name), |lead|)
  {
    MarkerText(name);
    hide Marker;
    assert t[|lead|..|lead| + |Marker(name)|] == [QUOTE] + Ascii(name) + [QUOTE];
  }

  /** Where the marker stands when the member is the first to look like it. */
  lemma MarkerInPlace(t: Text, name: string, lead: Text, follow: Text)
    requires IsName(Ascii(name)) && name != "" && t == lead + ([QUOTE] + Ascii(name) + [QUOTE] + follow)
    requires NoEnds(t, Ascii(name), 0, |lead|) && Opens(t, |lead|)
    ensures Find(t, Marker(name), 0) == |lead|
  {
    hide MarkerEndsAt, Occurs, Find, Marker, IsName, Opens, Ascii;
    var n, p := Ascii(name), |lead|;
    OpeningQuote(t, n, p);
    forall e: nat | p < e < p + |name| + 1 ensures !MarkerEndsAt(t, n, e) {
      InsideMarker(t, name, lead, follow, e);
    }
    JoinNoEnds(t, n, 0, p, p + |name| + 1);
    NoneEarlier(t, name, p + |name| + 1);
    MarkerAtLead(t, name, lead, follow);
    FindIs(t, Marker(name), 0, p);
  }

  lemma ColonHere(t: Text, lead: Text, rest: Text)
    requires t == lead + (Ascii(":") + rest)
    ensures Find(t, Ascii(":"), |lead|) == |lead| && t[|lead| + 1..] == rest
  {
    hide Find;
    assert t[|lead|] == ':' as nat;
    FirstColon(t, |lead|, |lead|);
  }

  lemma ClaimText(before: seq<Member>, name: string, k: int, after: seq<Member>)
    requires IsName(Ascii(name))
    ensures Print(Native, Obj(before + [Member(Ascii(name), Int(k))] + after))
            == Lead(before)
               + ([QUOTE] + Ascii(name) + [QUOTE]
                  + (Ascii(":") + (Decimal(k) + (PrintMembers(Native, after) + Ascii("}")))))
  {
    var n := Ascii(name);
    MemberInPlace(before, Member(n, Int(k)), after);
    OneMemberText(Member(n, Int(k)));
    LettersEscape(n);
    assert Quoted(Native, n) == [QUOTE] + n + [QUOTE];
    assert Print(Native, Int(k)) == Decimal(k);
    hide Print, PrintMember, PrintMembers, Lead, Quoted, Decimal, IsName;
    Shift([QUOTE] + n + [QUOTE], Ascii(":"), Decimal(k), PrintMembers(Native, after) + Ascii("}"));
  }

  lemma Shift(quoted: Text, colon: Text, value: Text, rest: Text)
    ensures (quoted + (colon + value)) + rest == quoted + (colon + (value + rest))
  {
  }

  lemma ScanHere(t: Text, name: string, lead: Text, k: int, rest: Text)
    requires name != "" && rest != [] && !IsDigit(rest[0])
    requires t == lead + ([QUOTE] + Ascii(name) + [QUOTE] + (Ascii(":") + (Decimal(k) + rest)))
    requires Find(t, Marker(name), 0) == |lead|
    ensures ScanField(t, name) == if -INT64_MAX <= k <= INT64_MAX then Number(k) else TooLarge
  {
    MarkerText(name);
    hide NumberAt, Find, Marker, Decimal, Ascii;
    var marker := [QUOTE] + Ascii(name) + [QUOTE];
    assert t == (lead + marker) + (Ascii(":") + (Decimal(k) + rest));
    ColonHere(t, lead + marker, Decimal(k) + rest);
    NumberAtDecimal(k, rest);
  }

  /** The first string that looks like the claim's name being the claim's own, the scan reads its number,
      whatever stands before and after it. */
  lemma FirstClaim(before: seq<Member>, name: string, k: int, after: seq<Member>)
    requires name != "" && IsName(Ascii(name)) && ClearMembers(before, Ascii(name))
    ensures ScanField(Print(Native, Obj(before + [Member(Ascii(name), Int(k))] + after)), name)
            == if -INT64_MAX <= k <= INT64_MAX then Number(k) else TooLarge
  {
    hide *;
    var t := Print(Native, Obj(before + [Member(Ascii(name), Int(k))] + after));
    var rest := PrintMembers(Native, after) + Ascii("}");
    var follow := Ascii(":") + (Decimal(k) + rest);
    ClaimText(before, name, k, after);
    AfterTimes(after);
    LeadClear(t, Ascii(name), before, [QUOTE] + Ascii(name) + [QUOTE] + follow);
    MarkerInPlace(t, name, Lead(before), follow);
    ScanHere(t, name, Lead(before), k, rest);
  }
}
