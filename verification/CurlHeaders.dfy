/** Collecting the response headers libcurl reports line by line. */
module CurlHeaders {
  import opened Text

  const SIZE_MAX: int := 0xFFFF_FFFF_FFFF_FFFF
  const COLON: nat := ':' as nat

  datatype Field = Field(name: Text, value: Text)

  predicate IsBlank(u: nat) {
    u == ' ' as nat || u == 0x09
  }

  predicate IsBlankOrLineEnd(u: nat) {
    IsBlank(u) || u == 0x0D || u == 0x0A
  }

  /** `find_first_not_of(" \t")`. */
  function FirstNotBlank(t: Text): (i: int)
    ensures -1 <= i < |t|
    ensures i >= 0 ==> !IsBlank(t[i])
    ensures forall j :: 0 <= j < |t| && (i == -1 || j < i) ==> IsBlank(t[j])
  {
    if t == [] then -1
    else if !IsBlank(t[0]) then 0
    else
      var i := FirstNotBlank(t[1..]);
      if i == -1 then -1 else i + 1
  }

  /** `find_last_not_of(" \t\r\n")`. */
  function LastNotBlank(t: Text): (i: int)
    ensures -1 <= i < |t|
    ensures i >= 0 ==> !IsBlankOrLineEnd(t[i])
    ensures forall j :: i < j < |t| ==> IsBlankOrLineEnd(t[j])
  {
    if t == [] then -1
    else if !IsBlankOrLineEnd(t[|t| - 1]) then |t| - 1
    else LastNotBlank(t[..|t| - 1])
  }

  // What a response's headers are

  predicate IsStatusLine(line: Text) {
    StartsWith(line, Ascii("HTTP/"))
  }

  predicate AllBlank(t: Text) {
    forall i :: 0 <= i < |t| ==> IsBlank(t[i])
  }

  predicate AllBlankOrLineEnd(t: Text) {
    forall i :: 0 <= i < |t| ==> IsBlankOrLineEnd(t[i])
  }

  predicate HasColon(t: Text) {
    !Free(t, COLON)
  }

  /** Free of leading blanks and of trailing blanks and line ends (section 5.6.3 of RFC 9110). */
  predicate IsTrimmed(t: Text) {
    t != [] ==> !IsBlank(t[0]) && !IsBlankOrLineEnd(t[|t| - 1])
  }

  predicate Surrounded(t: Text, lead: Text, value: Text, trail: Text) {
    t == lead + value + trail && AllBlank(lead) && AllBlankOrLineEnd(trail)
  }

  ghost predicate TrimsTo(t: Text, value: Text) {
    IsTrimmed(value) && exists lead, trail :: Surrounded(t, lead, value, trail)
  }

  /** name and value split line at its first colon, the value trimmed. */
  ghost predicate Splits(line: Text, h: Field) {
    && |h.name| < |line| && line[..|h.name|] == h.name && line[|h.name|] == COLON && !HasColon(h.name)
    && TrimsTo(line[|h.name| + 1..], h.value)
  }

  /** Where the headers of the last response begin: redirects and interim responses come before. */
  function LastStatus(lines: seq<Text>): (k: nat)
    ensures k <= |lines|
    ensures forall i :: k < i < |lines| ==> !IsStatusLine(lines[i])
    ensures (k < |lines| && IsStatusLine(lines[k]))
            || (k == 0 && forall i :: 0 <= i < |lines| ==> !IsStatusLine(lines[i]))
  {
    if lines == [] then 0
    else if IsStatusLine(lines[|lines| - 1]) then |lines| - 1
    else LastStatus(lines[..|lines| - 1])
  }

  /** The lines of the response under way so far. */
  function Current(lines: seq<Text>): seq<Text> {
    lines[LastStatus(lines)..]
  }

  function WithColon(lines: seq<Text>): seq<Text> {
    if lines == [] then []
    else WithColon(lines[..|lines| - 1]) + if HasColon(lines[|lines| - 1]) then [lines[|lines| - 1]] else []
  }

  /** headers are the colon-bearing lines from the last status line on, in order, each split. */
  ghost predicate Collected(lines: seq<Text>, headers: seq<Field>) {
    var kept := WithColon(Current(lines));
    |headers| == |kept| && forall i :: 0 <= i < |kept| ==> Splits(kept[i], headers[i])
  }

  // The callbacks

  lemma OccursOne(line: Text, i: int)
    ensures Occurs(line, [COLON], i) <==> 0 <= i < |line| && line[i] == COLON
  {
    if 0 <= i < |line| {
      assert line[i..i + 1] == [line[i]];
    }
  }

  lemma FirstColon(line: Text, at: int)
    requires at == Find(line, [COLON], 0)
    ensures at == -1 <==> !HasColon(line)
    ensures at >= 0 ==> at < |line| && line[at] == COLON && !HasColon(line[..at])
  {
    hide Find, Occurs;
    forall i: int ensures Occurs(line, [COLON], i) <==> 0 <= i < |line| && line[i] == COLON {
      OccursOne(line, i);
    }
    if at >= 0 {
      assert line[at] == COLON;
      forall i | 0 <= i < at ensures line[..at][i] != COLON {
        assert line[..at][i] == line[i];
      }
    }
  }

  /** The trimmed value of what follows the colon. */
  function Trimmed(t: Text): Text {
    var start := FirstNotBlank(t);
    var value := if start == -1 then [] else t[start..];
    var end := LastNotBlank(value);
    if end == -1 then [] else value[..end + 1]
  }

  lemma TrimmedLead(t: Text) returns (lead: Text, value: Text)
    ensures value == (if FirstNotBlank(t) == -1 then [] else t[FirstNotBlank(t)..])
    ensures t == lead + value && AllBlank(lead) && (value != [] ==> !IsBlank(value[0]))
  {
    hide FirstNotBlank;
    var start := FirstNotBlank(t);
    lead, value := if start == -1 then t else t[..start], if start == -1 then [] else t[start..];
  }

  lemma TrimmedTrail(value: Text) returns (kept: Text, trail: Text)
    requires value != [] ==> !IsBlank(value[0])
    ensures kept == (if LastNotBlank(value) == -1 then [] else value[..LastNotBlank(value) + 1])
    ensures value == kept + trail && AllBlankOrLineEnd(trail)
    ensures IsTrimmed(kept)
  {
    hide LastNotBlank, IsBlank, IsBlankOrLineEnd;
    var end := LastNotBlank(value);
    kept, trail := if end == -1 then [] else value[..end + 1], if end == -1 then value else value[end + 1..];
  }

  lemma Regrouped(t: Text, lead: Text, value: Text, kept: Text, trail: Text)
    requires t == lead + value && value == kept + trail && AllBlank(lead) && AllBlankOrLineEnd(trail)
    requires IsTrimmed(kept)
    ensures TrimsTo(t, kept)
  {
    hide AllBlank, AllBlankOrLineEnd, IsTrimmed;
    assert lead + (kept + trail) == lead + kept + trail;
    assert Surrounded(t, lead, kept, trail);
  }

  lemma TrimmedIsTrimmed(t: Text)
    ensures TrimsTo(t, Trimmed(t))
  {
    hide FirstNotBlank, LastNotBlank, AllBlank, AllBlankOrLineEnd, IsBlank, IsTrimmed, TrimsTo;
    var lead, value := TrimmedLead(t);
    var kept, trail := TrimmedTrail(value);
    Regrouped(t, lead, value, kept, trail);
    assert Trimmed(t) == kept;
  }

  lemma TrimmedSplits(line: Text, colon: nat)
    requires colon < |line| && line[colon] == COLON && !HasColon(line[..colon])
    ensures Splits(line, Field(line[..colon], Trimmed(line[colon + 1..])))
  {
    hide Trimmed, TrimsTo, HasColon;
    TrimmedIsTrimmed(line[colon + 1..]);
  }

  // A line has one name and one value

  lemma LeadOf(t: Text, lead: Text, value: Text, trail: Text)
    requires Surrounded(t, lead, value, trail) && IsTrimmed(value) && value != []
    ensures |lead| + |value| <= |t| && value == t[|lead|..|lead| + |value|]
    ensures !IsBlank(t[|lead|]) && forall i :: 0 <= i < |lead| ==> IsBlank(t[i])
    ensures !IsBlankOrLineEnd(t[|lead| + |value| - 1])
    ensures forall i :: |lead| + |value| <= i < |t| ==> IsBlankOrLineEnd(t[i])
  {
    hide IsBlank, IsBlankOrLineEnd;
    forall i | 0 <= i < |lead| ensures IsBlank(t[i]) {
      assert t[i] == lead[i];
    }
    forall i | |lead| + |value| <= i < |t| ensures IsBlankOrLineEnd(t[i]) {
      assert t[i] == trail[i - |lead| - |value|];
    }
  }

  lemma AllTrimmed(t: Text, lead: Text, trail: Text)
    requires Surrounded(t, lead, [], trail)
    ensures forall i :: 0 <= i < |t| ==> IsBlankOrLineEnd(t[i])
  {
    assert t == lead + trail;
    forall i | 0 <= i < |t| ensures IsBlankOrLineEnd(t[i]) {
      assert i < |lead| ==> IsBlank(lead[i]);
    }
  }

  lemma TrimsToUnique(t: Text, value: Text, value': Text)
    requires TrimsTo(t, value) && TrimsTo(t, value')
    ensures value == value'
  {
    var lead, trail :| Surrounded(t, lead, value, trail);
    var lead', trail' :| Surrounded(t, lead', value', trail');
    hide TrimsTo, Surrounded, IsTrimmed, IsBlank, IsBlankOrLineEnd;
    if value != [] {
      LeadOf(t, lead, value, trail);
    } else {
      AllTrimmed(t, lead, trail);
    }
    if value' != [] {
      LeadOf(t, lead', value', trail');
    } else {
      AllTrimmed(t, lead', trail');
    }
  }

  lemma ShorterName(line: Text, h: Field, h': Field)
    requires Splits(line, h) && Splits(line, h')
    ensures |h.name| >= |h'.name|
  {
    assert forall i :: 0 <= i < |h'.name| ==> line[i] == h'.name[i];
  }

  lemma SplitsUnique(line: Text, h: Field, h': Field)
    requires Splits(line, h) && Splits(line, h')
    ensures h == h'
  {
    hide TrimsTo;
    ShorterName(line, h, h');
    ShorterName(line, h', h);
    TrimsToUnique(line[|h.name| + 1..], h.value, h'.value);
  }

  lemma BlankUnits(lead: Text, trail: Text)
    requires forall i :: 0 <= i < |lead| ==> lead[i] in {0x20, 0x09}
    requires forall i :: 0 <= i < |trail| ==> trail[i] in {0x20, 0x09, 0x0D, 0x0A}
    ensures AllBlank(lead) && AllBlankOrLineEnd(trail)
  {
  }

  lemma TrimmedEnds(value: Text)
    requires value != [] ==> value[0] !in {0x20, 0x09} && value[|value| - 1] !in {0x20, 0x09, 0x0D, 0x0A}
    ensures IsTrimmed(value)
  {
  }

  /** What is trimmed: blanks and tabs in front, and these and line ends at the end. */
  lemma TrimmedUnits(lead: Text, value: Text, trail: Text)
    requires forall i :: 0 <= i < |lead| ==> lead[i] in {0x20, 0x09}
    requires forall i :: 0 <= i < |trail| ==> trail[i] in {0x20, 0x09, 0x0D, 0x0A}
    requires value != [] ==> value[0] !in {0x20, 0x09} && value[|value| - 1] !in {0x20, 0x09, 0x0D, 0x0A}
    ensures Trimmed(lead + value + trail) == value
  {
    BlankUnits(lead, trail);
    TrimmedEnds(value);
    hide AllBlank, AllBlankOrLineEnd, IsTrimmed, Trimmed;
    var t := lead + value + trail;
    TrimmedIsTrimmed(t);
    assert Surrounded(t, lead, value, trail);
    assert TrimsTo(t, value);
    hide TrimsTo, Surrounded;
    TrimsToUnique(t, value, Trimmed(t));
  }

  /** The lines alone decide what is stored. */
  lemma CollectedUnique(lines: seq<Text>, headers: seq<Field>, headers': seq<Field>)
    requires Collected(lines, headers) && Collected(lines, headers')
    ensures headers == headers'
  {
    hide Splits, WithColon, Current;
    var kept := WithColon(Current(lines));
    forall i | 0 <= i < |kept| ensures headers[i] == headers'[i] {
      SplitsUnique(kept[i], headers[i], headers'[i]);
    }
  }

  lemma OneMoreLine(lines: seq<Text>, line: Text)
    ensures Current(lines + [line]) == (if IsStatusLine(line) then [] else Current(lines)) + [line]
  {
    hide IsStatusLine;
    assert (lines + [line])[..|lines|] == lines;
  }

  lemma OneMoreColon(lines: seq<Text>, line: Text)
    ensures WithColon(lines + [line]) == WithColon(lines) + if HasColon(line) then [line] else []
  {
    assert (lines + [line])[..|lines|] == lines;
  }

  lemma CollectedNext(lines: seq<Text>, headers: seq<Field>, line: Text, h: Field)
    requires Collected(lines, headers)
    requires HasColon(line) ==> Splits(line, h)
    ensures Collected(lines + [line],
                      (if IsStatusLine(line) then [] else headers) + if HasColon(line) then [h] else [])
  {
    hide Splits, Current, IsStatusLine, HasColon;
    OneMoreLine(lines, line);
    OneMoreColon(if IsStatusLine(line) then [] else Current(lines), line);
  }

  /** A line that begins with HTTP/ starts the headers anew; any other line joins those before it. */
  lemma StatusStartsAnew(lines: seq<Text>, line: Text)
    ensures var status := |line| >= 5 && line[0] == 'H' as nat && line[1] == 'T' as nat && line[2] == 'T' as nat
                          && line[3] == 'P' as nat && line[4] == '/' as nat;
            Current(lines + [line]) == if status then [line] else Current(lines) + [line]
  {
    OneMoreLine(lines, line);
    hide Current;
    if |line| >= 5 {
      var p := line[..5];
      assert p[0] == line[0] && p[1] == line[1] && p[2] == line[2] && p[3] == line[3] && p[4] == line[4];
    }
  }

  /** The lines with a colon stay in order. */
  lemma {:induction false} ColonsInOrder(a: seq<Text>, b: seq<Text>)
    ensures WithColon(a + b) == WithColon(a) + WithColon(b)
    decreases |b|
  {
    hide HasColon;
    if b == [] {
      assert a + b == a;
    } else {
      assert (a + b)[..|a + b| - 1] == a + b[..|b| - 1];
      ColonsInOrder(a, b[..|b| - 1]);
    }
  }

  class ResponseState {
    var headers: seq<Field>
    var body: Text
    /** The header lines seen so far. */
    ghost var lines: seq<Text>

    ghost predicate Valid()
      reads this
    {
      Collected(lines, headers)
    }

    constructor ()
      ensures Valid() && headers == [] && body == [] && lines == []
    {
      headers, body, lines := [], [], [];
    }

    /** Appends a chunk of the body; a length that overflows is refused and changes nothing. */
    method Body(data: Text, size: nat, count: nat) returns (consumed: nat)
      requires Valid() && size <= SIZE_MAX && count <= SIZE_MAX
      requires size * count <= SIZE_MAX ==> |data| == size * count
      modifies this`body
      ensures Valid()
      ensures size * count <= SIZE_MAX ==> consumed == size * count && body == old(body) + data
      ensures size * count > SIZE_MAX ==> consumed == 0 && body == old(body)
    {
      OverflowCheck(size, count);
      if size != 0 && count > SIZE_MAX / size {
        return 0;
      }
      body := body + data;
      return size * count;
    }

    /** Takes one header line; a status line starts the headers anew. */
    method Header(data: Text, size: nat, count: nat) returns (consumed: nat)
      requires Valid() && size <= SIZE_MAX && count <= SIZE_MAX
      requires size * count <= SIZE_MAX ==> |data| == size * count
      modifies this`headers, this`lines
      ensures Valid()
      ensures size * count <= SIZE_MAX ==> consumed == size * count && lines == old(lines) + [data]
      ensures size * count > SIZE_MAX ==> consumed == 0 && lines == old(lines) && headers == old(headers)
    {
      hide Collected, Splits, Find, Trimmed, IsStatusLine, HasColon;
      OverflowCheck(size, count);
      if size != 0 && count > SIZE_MAX / size {
        return 0;
      }
      var length := size * count;
      var line := data;
      ghost var before := headers;
      if IsStatusLine(line) {
        headers := [];
      }
      var colon := Find(line, [COLON], 0);
      FirstColon(line, colon);
      ghost var h := Field([], []);
      if colon != -1 {
        TrimmedSplits(line, colon);
        h := Field(line[..colon], Trimmed(line[colon + 1..]));
        headers := headers + [Field(line[..colon], Trimmed(line[colon + 1..]))];
      }
      CollectedNext(lines, before, line, h);
      assert headers == (if IsStatusLine(line) then [] else before) + if HasColon(line) then [h] else [];
      lines := lines + [line];
      return length;
    }
  }

  /** Dividing first decides whether the product fits. */
  lemma OverflowCheck(size: nat, count: nat)
    requires size <= SIZE_MAX && count <= SIZE_MAX
    ensures size * count > SIZE_MAX <==> size != 0 && count > SIZE_MAX / size
  {
    if size != 0 {
      var q, r := SIZE_MAX / size, SIZE_MAX % size;
      assert SIZE_MAX == q * size + r;
      if count <= q {
        assert count * size <= q * size;
      } else {
        assert count * size >= (q + 1) * size == q * size + size;
      }
    }
  }
}
