/** Printing a tree of byte strings gives a byte string. */
module JsonBytes {
  import opened Text
  import opened Json

  predicate ByteTree(v: Json)
    decreases v, 0
  {
    match v
    case Str(s) => IsBytes(s)
    case Arr(items) => ByteItems(items)
    case Obj(members) => ByteMembers(members)
    case _ => true
  }

  predicate ByteItems(items: seq<Json>)
    decreases items, 1
  {
    items == [] || (ByteTree(items[0]) && ByteItems(items[1..]))
  }

  predicate ByteMembers(members: seq<Member>)
    decreases members, 1
  {
    members == []
    || (IsBytes(members[0].name) && ByteTree(members[0].value) && ByteMembers(members[1..]))
  }

  lemma {:induction false} EscapeBytes(s: Text)
    requires IsBytes(s)
    ensures IsBytes(Escape(Native, s))
    decreases |s|
  {
    if s != [] {
      EscapeBytes(s[1..]);
    }
  }

  lemma DigitBytes(t: Text)
    requires AllDigits(t)
    ensures IsBytes(t)
  {
    assert forall i :: 0 <= i < |t| ==> IsDigit(t[i]);
  }

  lemma DecimalBytes(n: int)
    ensures IsBytes(Decimal(n))
  {
    DigitBytes(DecimalNat(if n < 0 then -n else n));
  }

  lemma WordBytes()
    ensures IsBytes(Ascii("null")) && IsBytes(Ascii("true")) && IsBytes(Ascii("false"))
  {
  }

  lemma PunctuationBytes()
    ensures IsBytes(Ascii("[]")) && IsBytes(Ascii("{}")) && IsBytes(Ascii(",")) && IsBytes(Ascii(":"))
    ensures IsBytes(Ascii("[")) && IsBytes(Ascii("]")) && IsBytes(Ascii("{")) && IsBytes(Ascii("}"))
  {
  }

  lemma QuotedBytes(s: Text)
    requires IsBytes(s)
    ensures IsBytes(Quoted(Native, s))
  {
    hide Escape;
    EscapeBytes(s);
  }

  lemma {:induction false} PrintBytes(v: Json)
    requires ByteTree(v)
    ensures IsBytes(Print(Native, v))
    decreases v, 0
  {
    hide Ascii, Quoted, Decimal;
    WordBytes();
    PunctuationBytes();
    match v
    case Null =>
    case Bool(b) =>
    case Int(n) => DecimalBytes(n);
    case Str(s) => QuotedBytes(s);
    case Arr(items) =>
      if items != [] {
        PrintBytes(items[0]);
        PrintItemsBytes(items[1..]);
      }
    case Obj(members) =>
      if members != [] {
        PrintMemberBytes(members[0]);
        PrintMembersBytes(members[1..]);
      }
  }

  lemma {:induction false} PrintItemsBytes(items: seq<Json>)
    requires ByteItems(items)
    ensures IsBytes(PrintItems(Native, items))
    decreases items, 1
  {
    hide Ascii, Print;
    PunctuationBytes();
    if items != [] {
      PrintBytes(items[0]);
      PrintItemsBytes(items[1..]);
    }
  }

  lemma {:induction false} PrintMemberBytes(m: Member)
    requires IsBytes(m.name) && ByteTree(m.value)
    ensures IsBytes(PrintMember(Native, m))
    decreases m, 0
  {
    hide Ascii, Quoted, Print;
    PunctuationBytes();
    QuotedBytes(m.name);
    PrintBytes(m.value);
  }

  lemma {:induction false} PrintMembersBytes(members: seq<Member>)
    requires ByteMembers(members)
    ensures IsBytes(PrintMembers(Native, members))
    decreases members, 1
  {
    hide Ascii, PrintMember;
    PunctuationBytes();
    if members != [] {
      PrintMemberBytes(members[0]);
      PrintMembersBytes(members[1..]);
    }
  }
}
