/** The hand-written JSON printer of access-token claims. */
module TokenPrinter {
  import opened Text
  import opened Wrappers
  import opened Json
  import opened JsonRoundTrip
  import opened Claims

  // What an object looks like while it is being printed

  /** The members printed so far, separated by commas. */
  function Body(members: seq<Member>): Text {
    if members == [] then [] else PrintMember(Native, members[0]) + PrintMembers(Native, members[1..])
  }

  /** json holds the given slots after prefix, and first tells whether a comma is still unneeded. */
  ghost predicate Printed(prefix: Text, json: Text, first: bool, slots: seq<Slot>) {
    json == prefix + Body(Present(slots)) && (first <==> Present(slots) == [])
  }

  lemma PrintObject(members: seq<Member>)
    ensures Print(Native, Obj(members)) == Ascii("{") + Body(members) + Ascii("}")
  {
    assert Ascii("{") + [] + Ascii("}") == Ascii("{}");
  }

  lemma OneMember(m: Member)
    ensures PrintMembers(Native, []) == [] && PrintMembers(Native, [m]) == Ascii(",") + PrintMember(Native, m)
  {
    hide PrintMember;
    assert [m][1..] == [];
  }

  lemma BodyAppend(members: seq<Member>, m: Member)
    ensures Body(members + [m]) == Body(members) + (if members == [] then [] else Ascii(",")) + PrintMember(Native, m)
  {
    OneMember(m);
    hide PrintMember, PrintMembers;
    if members == [] {
      assert [m][1..] == [];
    } else {
      assert (members + [m])[1..] == members[1..] + [m];
      PrintMembersAppend(Native, members[1..], [m]);
    }
  }

  /** What one slot contributes. */
  function Shown(s: Slot): seq<Member> {
    match s.value case None => [] case Some(v) => [Member(Ascii(s.name), v)]
  }

  lemma PresentFront(slots: seq<Slot>)
    requires slots != []
    ensures Present(slots) == Shown(slots[0]) + Present(slots[1..])
  {
    hide Ascii;
  }

  lemma PresentNothing()
    ensures Present([]) == []
  {
  }

  lemma {:induction false} PresentAppend(slots: seq<Slot>, s: Slot)
    ensures Present(slots + [s]) == Present(slots) + Shown(s)
    decreases |slots|
  {
    hide Present, Shown;
    PresentNothing();
    PresentFront(slots + [s]);
    if slots == [] {
      assert (slots + [s])[1..] == [];
    } else {
      assert (slots + [s])[1..] == slots[1..] + [s];
      PresentFront(slots);
      PresentAppend(slots[1..], s);
    }
  }

  lemma EmptySlot(prefix: Text, json: Text, first: bool, slots: seq<Slot>, name: string)
    requires Printed(prefix, json, first, slots)
    ensures Printed(prefix, json, first, slots + [Slot(name, None)])
  {
    PresentAppend(slots, Slot(name, None));
    assert Present(slots) + [] == Present(slots);
  }

  /** Appending one printed member, after a comma when it is not the first. */
  lemma FilledSlot(prefix: Text, json: Text, first: bool, slots: seq<Slot>, name: string, v: Json)
    requires Printed(prefix, json, first, slots)
    ensures Printed(prefix, json + (if first then [] else Ascii(",")) + PrintMember(Native, Member(Ascii(name), v)),
                    false, slots + [Slot(name, Some(v))])
  {
    hide Body, PrintMember;
    PresentAppend(slots, Slot(name, Some(v)));
    var m := Member(Ascii(name), v);
    BodyAppend(Present(slots), m);
    var separator := if first then [] else Ascii(",");
    assert prefix + Body(Present(slots)) + separator + PrintMember(Native, m)
           == prefix + (Body(Present(slots)) + separator + PrintMember(Native, m));
    assert Present(slots + [Slot(name, Some(v))]) == Present(slots) + [m];
  }

  /** A name the printer may write without escaping it. */
  predicate Plain(name: string) {
    forall i :: 0 <= i < |name| ==> ' ' <= name[i] <= '~' && name[i] != '"' && name[i] != '\\'
  }

  lemma {:induction false} PlainEscape(name: string)
    requires Plain(name)
    ensures Escape(Native, Ascii(name)) == Ascii(name)
    decreases |name|
  {
    if name != "" {
      assert Ascii(name)[1..] == Ascii(name[1..]);
      PlainEscape(name[1..]);
      assert Ascii(name) == [Ascii(name)[0]] + Ascii(name)[1..];
    }
  }

  /** A member as the printer writes it: quoted name, colon, value. */
  lemma MemberText(name: string, v: Json)
    requires Plain(name)
    ensures PrintMember(Native, Member(Ascii(name), v))
            == Ascii("\"") + Ascii(name) + Ascii("\":") + Print(Native, v)
  {
    PlainEscape(name);
    assert Ascii("\"") == [QUOTE] && Ascii("\":") == [QUOTE] + Ascii(":");
  }

  // The printer

  method EscapeJson(value: Text) returns (output: Text)
    ensures output == Escape(Native, value)
  {
    output := [];
    for i := 0 to |value|
      invariant output == Escape(Native, value[..i])
    {
      var ch := value[i];
      assert value[..i + 1] == value[..i] + [ch];
      EscapeAppend(Native, value[..i], [ch]);
      EscapeOne(Native, ch);
      if ch == QUOTE {
        output := output + Ascii("\\\"");
      } else if ch == BACKSLASH {
        output := output + Ascii("\\\\");
      } else if ch == 0x08 {
        output := output + Ascii("\\b");
      } else if ch == 0x0C {
        output := output + Ascii("\\f");
      } else if ch == 0x0A {
        output := output + Ascii("\\n");
      } else if ch == 0x0D {
        output := output + Ascii("\\r");
      } else if ch == 0x09 {
        output := output + Ascii("\\t");
      } else if ch < 0x20 {
        output := output + UnicodeEscape(ch);
      } else {
        output := output + [ch];
      }
    }
    assert value[..|value|] == value;
  }

  /** Writes a boolean member, or nothing for a false one that is not to be included. */
  method AddBool(json: Text, first: bool, name: string, value: bool, includeFalse: bool,
                 ghost prefix: Text, ghost slots: seq<Slot>)
    returns (json': Text, first': bool)
    requires Plain(name) && Printed(prefix, json, first, slots)
    ensures Printed(prefix, json', first',
                    slots + [Slot(name, if includeFalse then Some(Bool(value)) else Flag(value))])
  {
    hide Printed;
    json', first' := json, first;
    if !value && !includeFalse {
      EmptySlot(prefix, json, first, slots, name);
      return;
    }
    FilledSlot(prefix, json, first, slots, name, Bool(value));
    BoolMember(json + if first then [] else Ascii(","), name, value);
    json' := json + (if first then [] else Ascii(",")) + Ascii("\"") + Ascii(name) + Ascii("\":")
             + Ascii(if value then "true" else "false");
    first' := false;
  }

  lemma BoolMember(before: Text, name: string, value: bool)
    requires Plain(name)
    ensures before + Ascii("\"") + Ascii(name) + Ascii("\":") + Ascii(if value then "true" else "false")
            == before + PrintMember(Native, Member(Ascii(name), Bool(value)))
  {
    MemberText(name, Bool(value));
    hide PrintMember, Plain;
    var word := Ascii(if value then "true" else "false");
    assert Print(Native, Bool(value)) == word;
    hide Print;
    var n := Ascii("\"") + Ascii(name) + Ascii("\":");
    assert before + Ascii("\"") + Ascii(name) + Ascii("\":") + word == before + (n + word);
  }

  /** Writes a string member, or nothing for an empty string. */
  method AddString(json: Text, first: bool, name: string, value: Text, ghost prefix: Text, ghost slots: seq<Slot>)
    returns (json': Text, first': bool)
    requires Plain(name) && Printed(prefix, json, first, slots)
    ensures Printed(prefix, json', first', slots + [Slot(name, NonEmpty(value))])
  {
    hide Printed;
    json', first' := json, first;
    if value == [] {
      EmptySlot(prefix, json, first, slots, name);
      return;
    }
    FilledSlot(prefix, json, first, slots, name, Str(value));
    MemberText(name, Str(value));
    var separator := if first then [] else Ascii(",");
    var escaped := EscapeJson(value);
    json' := json + separator + Ascii("\"") + Ascii(name) + Ascii("\":\"") + escaped + Ascii("\"");
    StringMember(json + separator, name, value);
    first' := false;
  }

  lemma StringMember(before: Text, name: string, value: Text)
    requires Plain(name)
    ensures before + Ascii("\"") + Ascii(name) + Ascii("\":\"") + Escape(Native, value) + Ascii("\"")
            == before + PrintMember(Native, Member(Ascii(name), Str(value)))
  {
    MemberText(name, Str(value));
    hide PrintMember, Escape, Plain;
    var e, q, n := Escape(Native, value), Ascii("\""), Ascii(name);
    assert Ascii("\":\"") == Ascii("\":") + q && q == [QUOTE];
    assert Print(Native, Str(value)) == q + e + q;
    hide *;
    RegroupMember(before, q, n, Ascii("\":"), e);
  }

  lemma RegroupMember(before: Text, q: Text, n: Text, c: Text, e: Text)
    ensures before + q + n + (c + q) + e + q == before + (q + n + c + (q + e + q))
  {
    var m := c + q;
    assert before + q + n + m + e + q == before + (q + n + m + e + q);
    assert q + n + m + e + q == q + n + (m + e + q);
    assert m + e + q == c + (q + e + q);
    assert q + n + (c + (q + e + q)) == q + n + c + (q + e + q);
  }

  /** Writes an optional boolean: absent, false and true all print differently. */
  method AddTriState(json: Text, first: bool, name: string, value: Option<bool>,
                     ghost prefix: Text, ghost slots: seq<Slot>)
    returns (json': Text, first': bool)
    requires Plain(name) && Printed(prefix, json, first, slots)
    ensures Printed(prefix, json', first', slots + [Slot(name, TriState(value))])
  {
    hide Printed;
    if value.Some? {
      json', first' := AddBool(json, first, name, value.value, true, prefix, slots);
    } else {
      EmptySlot(prefix, json, first, slots, name);
      json', first' := json, first;
    }
  }

  /** The comma-separated items printed so far. */
  function ItemsBody(items: seq<Json>): Text {
    if items == [] then [] else Print(Native, items[0]) + PrintItems(Native, items[1..])
  }

  lemma OneItem(v: Json)
    ensures PrintItems(Native, []) == [] && PrintItems(Native, [v]) == Ascii(",") + Print(Native, v)
  {
    hide Print;
    assert [v][1..] == [];
  }

  lemma ItemsBodyAppend(items: seq<Json>, v: Json)
    ensures ItemsBody(items + [v]) == ItemsBody(items) + (if items == [] then [] else Ascii(",")) + Print(Native, v)
  {
    OneItem(v);
    hide Print, PrintItems;
    if items == [] {
      assert [v][1..] == [];
    } else {
      assert (items + [v])[1..] == items[1..] + [v];
      PrintItemsAppend(Native, items[1..], [v]);
    }
  }

  lemma PrintArray(items: seq<Json>)
    ensures Print(Native, Arr(items)) == Ascii("[") + ItemsBody(items) + Ascii("]")
  {
    assert Ascii("[") + [] + Ascii("]") == Ascii("[]");
  }

  /** A JSON list of strings, the comma written before every item but the first. */
  method SourceList(json: Text, sources: seq<Text>) returns (json': Text)
    ensures json' == json + ItemsBody(Strings(sources))
  {
    hide Print, ItemsBody, Escape;
    json' := json;
    assert ItemsBody(Strings([])) == [] by { NoItems(); }
    assert sources[..0] == [];
    for index := 0 to |sources|
      invariant json' == json + ItemsBody(Strings(sources[..index]))
    {
      var escaped := EscapeJson(sources[index]);
      var comma := if index == 0 then [] else Ascii(",");
      var before := json';
      json' := json' + comma + Ascii("\"") + escaped + Ascii("\"");
      QuotedText(sources[index]);
      QuotedInPlace(before + comma, Ascii("\""), escaped);
      NextSource(sources, index);
      BodyGrows(json, ItemsBody(Strings(sources[..index])), comma, Print(Native, Str(sources[index])));
    }
    assert sources[..|sources|] == sources;
  }

  lemma QuotedInPlace(before: Text, q: Text, escaped: Text)
    ensures before + q + escaped + q == before + (q + escaped + q)
  {
  }

  lemma BodyGrows(json: Text, body: Text, comma: Text, item: Text)
    ensures json + body + comma + item == json + (body + comma + item)
  {
  }

  lemma NoItems()
    ensures ItemsBody(Strings([])) == []
  {
  }

  lemma NextSource(sources: seq<Text>, index: nat)
    requires index < |sources|
    ensures ItemsBody(Strings(sources[..index + 1]))
            == ItemsBody(Strings(sources[..index])) + (if index == 0 then [] else Ascii(","))
               + Print(Native, Str(sources[index]))
  {
    hide Print, ItemsBody;
    assert Strings(sources[..index + 1]) == Strings(sources[..index]) + [Str(sources[index])];
    ItemsBodyAppend(Strings(sources[..index]), Str(sources[index]));
  }

  /** The list of publishing sources, when there is one. */
  method AddSources(json: Text, first: bool, sources: seq<Text>, ghost prefix: Text, ghost slots: seq<Slot>)
    returns (json': Text, first': bool)
    requires Printed(prefix, json, first, slots)
    ensures Printed(prefix, json', first', slots + [Slot("canPublishSources", SourcesValue(sources))])
  {
    hide Printed, Print, PrintMember, ItemsBody, Strings;
    json', first' := json, first;
    if sources == [] {
      EmptySlot(prefix, json, first, slots, "canPublishSources");
      return;
    }
    var separator := if first then [] else Ascii(",");
    json' := SourceList(json + separator + Ascii("\"canPublishSources\":["), sources);
    json' := json' + Ascii("]");
    SourcesMember(json + separator, sources);
    FilledSlot(prefix, json, first, slots, "canPublishSources", Arr(Strings(sources)));
    first' := false;
  }

  lemma QuotedText(s: Text)
    ensures Print(Native, Str(s)) == Ascii("\"") + Escape(Native, s) + Ascii("\"")
  {
    hide Escape;
    assert Ascii("\"") == [QUOTE];
  }

  lemma SourcesLead()
    ensures Ascii("\"canPublishSources\":[") == Ascii("\"") + Ascii("canPublishSources") + Ascii("\":") + Ascii("[")
  {
  }

  lemma SourcesMember(before: Text, sources: seq<Text>)
    ensures before + Ascii("\"canPublishSources\":[") + ItemsBody(Strings(sources)) + Ascii("]")
            == before + PrintMember(Native, Member(Ascii("canPublishSources"), Arr(Strings(sources))))
  {
    hide PrintMember, Print, ItemsBody, Strings, Ascii;
    SourcesLead();
    SourcesMemberText(sources);
    var name := Ascii("\"") + Ascii("canPublishSources") + Ascii("\":");
    var items := ItemsBody(Strings(sources));
    assert before + (name + Ascii("[")) + items + Ascii("]") == before + (name + (Ascii("[") + items + Ascii("]")));
  }

  lemma SourcesMemberText(sources: seq<Text>)
    ensures PrintMember(Native, Member(Ascii("canPublishSources"), Arr(Strings(sources))))
            == Ascii("\"") + Ascii("canPublishSources") + Ascii("\":")
               + (Ascii("[") + ItemsBody(Strings(sources)) + Ascii("]"))
  {
    hide PrintMember, Print, ItemsBody, Strings;
    MemberText("canPublishSources", Arr(Strings(sources)));
    PrintArray(Strings(sources));
  }

  // VideoGrantJson in four parts

  /** Rights over all rooms. */
  method AddServerRights(json: Text, first: bool, grant: VideoGrant, ghost prefix: Text, ghost slots: seq<Slot>)
    returns (json': Text, first': bool)
    requires Printed(prefix, json, first, slots)
    ensures Printed(prefix, json', first', slots + VideoSlots(grant)[0..3])
  {
    hide Printed, Flag, NonEmpty, TriState, SourcesValue;
    json', first' := AddBool(json, first, "roomCreate", grant.roomCreate, false, prefix, slots);
    ghost var one := slots + [Slot("roomCreate", Flag(grant.roomCreate))];
    assert one == slots + VideoSlots(grant)[0..1];
    json', first' := AddBool(json', first', "roomList", grant.roomList, false, prefix, one);
    ghost var two := one + [Slot("roomList", Flag(grant.roomList))];
    assert two == slots + VideoSlots(grant)[0..2];
    json', first' := AddBool(json', first', "roomRecord", grant.roomRecord, false, prefix, two);
    assert two + [Slot("roomRecord", Flag(grant.roomRecord))] == slots + VideoSlots(grant)[0..3];
  }

  /** The room-level rights. */
  method AddRoomRights(json: Text, first: bool, grant: VideoGrant, ghost prefix: Text, ghost slots: seq<Slot>)
    returns (json': Text, first': bool)
    requires Printed(prefix, json, first, slots)
    ensures Printed(prefix, json', first', slots + VideoSlots(grant)[0..5])
  {
    hide Printed, Flag, NonEmpty, TriState, SourcesValue;
    json', first' := AddServerRights(json, first, grant, prefix, slots);
    ghost var three := slots + VideoSlots(grant)[0..3];
    json', first' := AddBool(json', first', "roomAdmin", grant.roomAdmin, false, prefix, three);
    ghost var four := three + [Slot("roomAdmin", Flag(grant.roomAdmin))];
    assert four == slots + VideoSlots(grant)[0..4];
    json', first' := AddBool(json', first', "roomJoin", grant.roomJoin, false, prefix, four);
    assert four + [Slot("roomJoin", Flag(grant.roomJoin))] == slots + VideoSlots(grant)[0..5];
  }

  /** The rooms named, and ingress administration. */
  method AddRoomNames(json: Text, first: bool, grant: VideoGrant, ghost prefix: Text, ghost slots: seq<Slot>)
    returns (json': Text, first': bool)
    requires Printed(prefix, json, first, slots)
    ensures Printed(prefix, json', first', slots + VideoSlots(grant)[5..8])
  {
    hide Printed, Flag, NonEmpty, TriState, SourcesValue;
    json', first' := json, first;
    ghost var done := slots;
    json', first' := AddString(json', first', "room", grant.room, prefix, done);
    done := done + [Slot("room", NonEmpty(grant.room))];
    json', first' := AddString(json', first', "destinationRoom", grant.destinationRoom, prefix, done);
    done := done + [Slot("destinationRoom", NonEmpty(grant.destinationRoom))];
    json', first' := AddBool(json', first', "ingressAdmin", grant.ingressAdmin, false, prefix, done);
    assert done + [Slot("ingressAdmin", Flag(grant.ingressAdmin))] == slots + VideoSlots(grant)[5..8];
  }

  /** The optional permissions and the publishing sources. */
  method AddPermissions(json: Text, first: bool, grant: VideoGrant, ghost prefix: Text, ghost slots: seq<Slot>)
    returns (json': Text, first': bool)
    requires Printed(prefix, json, first, slots)
    ensures Printed(prefix, json', first', slots + VideoSlots(grant)[8..13])
  {
    hide Printed, Flag, NonEmpty, TriState, SourcesValue;
    json', first' := json, first;
    ghost var done := slots;
    json', first' := AddTriState(json', first', "canPublish", grant.canPublish, prefix, done);
    done := done + [Slot("canPublish", TriState(grant.canPublish))];
    json', first' := AddTriState(json', first', "canSubscribe", grant.canSubscribe, prefix, done);
    done := done + [Slot("canSubscribe", TriState(grant.canSubscribe))];
    json', first' := AddTriState(json', first', "canPublishData", grant.canPublishData, prefix, done);
    done := done + [Slot("canPublishData", TriState(grant.canPublishData))];
    json', first' := AddTriState(json', first', "canUpdateOwnMetadata", grant.canUpdateOwnMetadata, prefix, done);
    done := done + [Slot("canUpdateOwnMetadata", TriState(grant.canUpdateOwnMetadata))];
    json', first' := AddSources(json', first', grant.canPublishSources, prefix, done);
    assert done + [Slot("canPublishSources", SourcesValue(grant.canPublishSources))]
           == slots + VideoSlots(grant)[8..13];
  }

  /** The special kinds of participant. */
  method AddKinds(json: Text, first: bool, grant: VideoGrant, ghost prefix: Text, ghost slots: seq<Slot>)
    returns (json': Text, first': bool)
    requires Printed(prefix, json, first, slots)
    ensures Printed(prefix, json', first', slots + VideoSlots(grant)[13..16])
  {
    hide Printed, Flag, NonEmpty, TriState, SourcesValue;
    json', first' := json, first;
    ghost var done := slots;
    json', first' := AddBool(json', first', "hidden", grant.hidden, false, prefix, done);
    done := done + [Slot("hidden", Flag(grant.hidden))];
    json', first' := AddBool(json', first', "recorder", grant.recorder, false, prefix, done);
    done := done + [Slot("recorder", Flag(grant.recorder))];
    json', first' := AddBool(json', first', "agent", grant.agent, false, prefix, done);
    assert VideoSlots(grant)[13] == Slot("hidden", Flag(grant.hidden));
    assert VideoSlots(grant)[14] == Slot("recorder", Flag(grant.recorder));
    assert VideoSlots(grant)[15] == Slot("agent", Flag(grant.agent));
    assert done + [Slot("agent", Flag(grant.agent))] == slots + VideoSlots(grant)[13..16];
  }

  lemma FourParts(s: seq<Slot>)
    requires |s| == 16
    ensures [] + s[0..5] + s[5..8] + s[8..13] + s[13..16] == s
  {
  }

  /** The video grant as ToJwt embeds it. */
  method VideoGrantJson(grant: VideoGrant) returns (json: Text)
    ensures json == Print(Native, Obj(Present(VideoSlots(grant))))
  {
    hide Printed, Print, Present;
    json := Ascii("{");
    var first := true;
    ghost var prefix, slots := Ascii("{"), VideoSlots(grant);
    hide VideoSlots;
    NothingPrinted(prefix);
    json, first := AddRoomRights(json, first, grant, prefix, []);
    json, first := AddRoomNames(json, first, grant, prefix, [] + slots[0..5]);
    json, first := AddPermissions(json, first, grant, prefix, [] + slots[0..5] + slots[5..8]);
    json, first := AddKinds(json, first, grant, prefix, [] + slots[0..5] + slots[5..8] + slots[8..13]);
    FourParts(slots);
    FinishObject(json, first, slots);
    json := json + Ascii("}");
  }

  lemma FinishObject(json: Text, first: bool, slots: seq<Slot>)
    requires Printed(Ascii("{"), json, first, slots)
    ensures json + Ascii("}") == Print(Native, Obj(Present(slots)))
  {
    PrintObject(Present(slots));
    hide Print, Body, Present;
  }

  lemma NothingPrinted(prefix: Text)
    ensures Printed(prefix, prefix, true, [])
  {
    assert prefix + [] == prefix;
  }

  /** The SIP grant's object, printed in place. */
  method SipGrantJson(json: Text, grant: SipGrant) returns (json': Text)
    ensures json' == json + Print(Native, Obj(Present(SipSlots(grant))))
  {
    hide Printed, Print;
    var prefix := json + Ascii("{");
    NothingPrinted(prefix);
    var first := true;
    json' := prefix;
    json', first := AddBool(json', first, "admin", grant.admin, false, prefix, []);
    assert [] + [Slot("admin", Flag(grant.admin))] == [Slot("admin", Flag(grant.admin))];
    json', first := AddBool(json', first, "call", grant.call, false, prefix, [Slot("admin", Flag(grant.admin))]);
    assert [Slot("admin", Flag(grant.admin))] + [Slot("call", Flag(grant.call))] == SipSlots(grant);
    CloseObject(json, json', first, SipSlots(grant));
    json' := json' + Ascii("}");
  }

  method AgentGrantJson(json: Text, grant: AgentGrant) returns (json': Text)
    ensures json' == json + Print(Native, Obj(Present(AgentSlots(grant))))
  {
    hide Printed, Print;
    var prefix := json + Ascii("{");
    NothingPrinted(prefix);
    var first := true;
    json' := prefix;
    json', first := AddBool(json', first, "admin", grant.admin, false, prefix, []);
    assert [] + [Slot("admin", Flag(grant.admin))] == [Slot("admin", Flag(grant.admin))];
    json', first := AddBool(json', first, "simulationAdmin", grant.simulationAdmin, false, prefix,
                            [Slot("admin", Flag(grant.admin))]);
    assert [Slot("admin", Flag(grant.admin))] + [Slot("simulationAdmin", Flag(grant.simulationAdmin))]
           == AgentSlots(grant);
    CloseObject(json, json', first, AgentSlots(grant));
    json' := json' + Ascii("}");
  }

  lemma CloseObject(before: Text, json: Text, first: bool, slots: seq<Slot>)
    requires Printed(before + Ascii("{"), json, first, slots)
    ensures json + Ascii("}") == before + Print(Native, Obj(Present(slots)))
  {
    PrintObject(Present(slots));
    hide Print, Body, Present;
    assert before + Ascii("{") + Body(Present(slots)) + Ascii("}")
           == before + (Ascii("{") + Body(Present(slots)) + Ascii("}"));
  }

  /** The attribute map's object, in key order. */
  method AttributesJson(json: Text, attributes: OrderedMap) returns (json': Text)
    ensures json' == json + Print(Native, Obj(EntryMembers(attributes)))
  {
    hide Print, PrintMember, Body, Escape;
    json' := json + Ascii("{");
    var first := true;
    NoEntries(json);
    assert attributes[..0] == [];
    for i := 0 to |attributes|
      invariant json' == json + Ascii("{") + Body(EntryMembers(attributes[..i]))
      invariant first <==> i == 0
    {
      var key := EscapeJson(attributes[i].key);
      var value := EscapeJson(attributes[i].value);
      var before := json';
      var comma := if first then [] else Ascii(",");
      json' := json' + comma + Ascii("\"") + key + Ascii("\":\"") + value + Ascii("\"");
      EntryText(before + comma, attributes[i]);
      NextEntry(attributes, i);
      first := false;
    }
    assert attributes[..|attributes|] == attributes;
    PrintObject(EntryMembers(attributes));
    json' := json' + Ascii("}");
  }

  lemma NoEntries(json: Text)
    ensures json + Ascii("{") + Body(EntryMembers([])) == json + Ascii("{")
  {
  }

  lemma EntryText(before: Text, e: Entry)
    ensures before + Ascii("\"") + Escape(Native, e.key) + Ascii("\":\"") + Escape(Native, e.value) + Ascii("\"")
            == before + PrintMember(Native, Member(e.key, Str(e.value)))
  {
    hide Escape;
    var k, v := Escape(Native, e.key), Escape(Native, e.value);
    assert Ascii("\"") == [QUOTE] && Ascii("\":\"") == [QUOTE] + Ascii(":") + [QUOTE];
    assert PrintMember(Native, Member(e.key, Str(e.value)))
           == [QUOTE] + k + [QUOTE] + Ascii(":") + ([QUOTE] + v + [QUOTE]);
    hide PrintMember, Ascii;
    assert before + [QUOTE] + k + ([QUOTE] + Ascii(":") + [QUOTE]) + v + [QUOTE]
           == before + ([QUOTE] + k + [QUOTE] + Ascii(":") + ([QUOTE] + v + [QUOTE]));
  }

  lemma NextEntry(attributes: seq<Entry>, i: nat)
    requires i < |attributes|
    ensures Body(EntryMembers(attributes[..i + 1]))
            == Body(EntryMembers(attributes[..i])) + (if i == 0 then [] else Ascii(","))
               + PrintMember(Native, Member(attributes[i].key, Str(attributes[i].value)))
  {
    hide PrintMember, Body;
    var m := Member(attributes[i].key, Str(attributes[i].value));
    assert EntryMembers(attributes[..i + 1]) == EntryMembers(attributes[..i]) + [m];
    BodyAppend(EntryMembers(attributes[..i]), m);
  }

  // The claims object

  /** A claim written with its name and colon already in one literal. */
  lemma ValueClaim(claims: Text, lead: string, slots: seq<Slot>, name: string, v: Json)
    requires Plain(name) && lead == ",\"" + name + "\":"
    requires Printed(Ascii("{"), claims, false, slots)
    ensures Printed(Ascii("{"), claims + Ascii(lead) + Print(Native, v), false, slots + [Slot(name, Some(v))])
  {
    hide Printed, PrintMember, Print, Plain, Ascii;
    FilledSlot(Ascii("{"), claims, false, slots, name, v);
    MemberText(name, v);
    LeadText(lead, name);
    Regroup(claims, Ascii(","), Ascii("\"") + Ascii(name) + Ascii("\":"), Print(Native, v));
  }

  lemma Regroup(a: Text, b: Text, c: Text, d: Text)
    ensures a + (b + c) + d == a + b + (c + d)
  {
  }

  lemma LeadText(lead: string, name: string)
    requires lead == ",\"" + name + "\":"
    ensures Ascii(lead) == Ascii(",") + (Ascii("\"") + Ascii(name) + Ascii("\":"))
  {
  }

  /** A string claim, the opening quote in the literal too; nothing is written for an empty one. */
  method AddClaim(claims: Text, lead: string, value: Text, ghost name: string, ghost slots: seq<Slot>)
    returns (claims': Text)
    requires Plain(name) && lead == ",\"" + name + "\":\""
    requires Printed(Ascii("{"), claims, false, slots)
    ensures Printed(Ascii("{"), claims', false, slots + [Slot(name, NonEmpty(value))])
  {
    claims' := claims;
    if value == [] {
      EmptySlot(Ascii("{"), claims, false, slots, name);
    } else {
      var escaped := EscapeJson(value);
      claims' := claims' + Ascii(lead) + escaped + Ascii("\"");
      ValueClaim(claims, lead[..|lead| - 1], slots, name, Str(value));
      QuotedClaim(claims, lead, value);
    }
  }

  lemma QuotedClaim(claims: Text, lead: string, value: Text)
    requires lead != "" && lead[|lead| - 1] == '"'
    ensures claims + Ascii(lead) + Escape(Native, value) + Ascii("\"")
            == claims + Ascii(lead[..|lead| - 1]) + Print(Native, Str(value))
  {
    QuotedText(value);
    hide Escape, Print;
    assert Ascii(lead) == Ascii(lead[..|lead| - 1]) + Ascii("\"");
  }

  /** The issuer opens the object; the three time claims follow. */
  method StartClaims(apiKey: Text, issuedAt: int, expiresAt: int) returns (claims: Text)
    ensures Printed(Ascii("{"), claims, false, StartSlots(apiKey, issuedAt, expiresAt))
  {
    hide Printed, Escape, StartSlots;
    var escaped := EscapeJson(apiKey);
    claims := Ascii("{\"iss\":\"") + escaped + Ascii("\",\"nbf\":") + Decimal(issuedAt)
              + Ascii(",\"exp\":") + Decimal(expiresAt) + Ascii(",\"iat\":") + Decimal(issuedAt);
    StartText(Ascii("{\"iss\":\"") + escaped, Decimal(issuedAt), Decimal(expiresAt));
    StartPrinted(apiKey, issuedAt, expiresAt);
  }

  ghost function StartSlots(apiKey: Text, issuedAt: int, expiresAt: int): seq<Slot> {
    [Slot("iss", Some(Str(apiKey))), Slot("nbf", Some(Int(issuedAt))),
     Slot("exp", Some(Int(expiresAt))), Slot("iat", Some(Int(issuedAt)))]
  }

  lemma StartText(issuer: Text, issuedAt: Text, expiresAt: Text)
    ensures issuer + Ascii("\",\"nbf\":") + issuedAt + Ascii(",\"exp\":") + expiresAt + Ascii(",\"iat\":") + issuedAt
            == issuer + Ascii("\"") + Ascii(",\"nbf\":") + issuedAt + Ascii(",\"exp\":") + expiresAt
               + Ascii(",\"iat\":") + issuedAt
  {
    assert Ascii("\",\"nbf\":") == Ascii("\"") + Ascii(",\"nbf\":");
    hide Ascii;
    assert issuer + Ascii("\",\"nbf\":") == issuer + Ascii("\"") + Ascii(",\"nbf\":");
  }

  lemma StartPrinted(apiKey: Text, issuedAt: int, expiresAt: int)
    ensures var issuer := Ascii("{\"iss\":\"") + Escape(Native, apiKey) + Ascii("\"");
            Printed(Ascii("{"),
                    issuer + Ascii(",\"nbf\":") + Decimal(issuedAt) + Ascii(",\"exp\":") + Decimal(expiresAt)
                    + Ascii(",\"iat\":") + Decimal(issuedAt),
                    false, StartSlots(apiKey, issuedAt, expiresAt))
  {
    hide Printed, Escape, Decimal;
    IssuerText(apiKey);
    var issuer := Ascii("{\"iss\":\"") + Escape(Native, apiKey) + Ascii("\"");
    var s0 := [Slot("iss", Some(Str(apiKey)))];
    ValueClaim(issuer, ",\"nbf\":", s0, "nbf", Int(issuedAt));
    var c1, s1 := issuer + Ascii(",\"nbf\":") + Decimal(issuedAt), s0 + [Slot("nbf", Some(Int(issuedAt)))];
    ValueClaim(c1, ",\"exp\":", s1, "exp", Int(expiresAt));
    var c2, s2 := c1 + Ascii(",\"exp\":") + Decimal(expiresAt), s1 + [Slot("exp", Some(Int(expiresAt)))];
    ValueClaim(c2, ",\"iat\":", s2, "iat", Int(issuedAt));
    assert s2 + [Slot("iat", Some(Int(issuedAt)))] == StartSlots(apiKey, issuedAt, expiresAt);
  }

  lemma IssuerText(apiKey: Text)
    ensures Printed(Ascii("{"), Ascii("{\"iss\":\"") + Escape(Native, apiKey) + Ascii("\""), false,
                    [Slot("iss", Some(Str(apiKey)))])
  {
    NothingPrinted(Ascii("{"));
    FilledSlot(Ascii("{"), Ascii("{"), true, [], "iss", Str(apiKey));
    StringMember(Ascii("{"), "iss", apiKey);
    hide Printed, Escape, PrintMember, Ascii;
    IssuerLead();
    assert [] + [Slot("iss", Some(Str(apiKey)))] == [Slot("iss", Some(Str(apiKey)))];
    assert Ascii("{") + [] == Ascii("{");
  }

  lemma IssuerLead()
    ensures Ascii("{\"iss\":\"") == Ascii("{") + Ascii("\"") + Ascii("iss") + Ascii("\":\"")
  {
  }

  /** The optional objects at the end of the claims. */
  method AddObjects(claims: Text, t: Token, ghost slots: seq<Slot>) returns (claims': Text)
    requires Printed(Ascii("{"), claims, false, slots)
    ensures Printed(Ascii("{"), claims', false,
                    slots + [Slot("attributes", AttributesValue(t.attributes))] + [Slot("video", VideoValue(t.video))]
                    + [Slot("sip", SipValue(t.sip))] + [Slot("agent", AgentValue(t.agent))])
  {
    hide Printed, Print, EntryMembers, VideoSlots, SipSlots, AgentSlots, Present;
    claims' := claims;
    ghost var done := slots;
    if t.attributes != [] {
      ValueClaim(claims', ",\"attributes\":", done, "attributes", Obj(EntryMembers(t.attributes)));
      claims' := AttributesJson(claims' + Ascii(",\"attributes\":"), t.attributes);
    } else {
      EmptySlot(Ascii("{"), claims', false, done, "attributes");
    }
    done := done + [Slot("attributes", AttributesValue(t.attributes))];
    if t.video.Some? {
      ValueClaim(claims', ",\"video\":", done, "video", Obj(Present(VideoSlots(t.video.value))));
      var video := VideoGrantJson(t.video.value);
      claims' := claims' + Ascii(",\"video\":") + video;
    } else {
      EmptySlot(Ascii("{"), claims', false, done, "video");
    }
    done := done + [Slot("video", VideoValue(t.video))];
    if t.sip.Some? {
      ValueClaim(claims', ",\"sip\":", done, "sip", Obj(Present(SipSlots(t.sip.value))));
      claims' := SipGrantJson(claims' + Ascii(",\"sip\":"), t.sip.value);
    } else {
      EmptySlot(Ascii("{"), claims', false, done, "sip");
    }
    done := done + [Slot("sip", SipValue(t.sip))];
    if t.agent.Some? {
      ValueClaim(claims', ",\"agent\":", done, "agent", Obj(Present(AgentSlots(t.agent.value))));
      claims' := AgentGrantJson(claims' + Ascii(",\"agent\":"), t.agent.value);
    } else {
      EmptySlot(Ascii("{"), claims', false, done, "agent");
    }
  }

  /** The printed claims are the claims tree: every comma, quote and brace is in its place. */
  method PrintClaims(t: Token, issuedAt: int, expiresAt: int) returns (claims: Text)
    ensures claims == ClaimsText(t, issuedAt, expiresAt)
  {
    hide Printed, Print, NonEmpty, AttributesValue, VideoValue, SipValue, AgentValue, Present;
    claims := StartClaims(t.apiKey, issuedAt, expiresAt);
    ghost var slots := TokenSlots(t, issuedAt, expiresAt);
    ghost var s4 := StartSlots(t.apiKey, issuedAt, expiresAt);
    claims := AddClaim(claims, ",\"sub\":\"", t.identity, "sub", s4);
    ghost var s5 := s4 + [Slot("sub", NonEmpty(t.identity))];
    claims := AddClaim(claims, ",\"name\":\"", t.name, "name", s5);
    ghost var s6 := s5 + [Slot("name", NonEmpty(t.name))];
    claims := AddClaim(claims, ",\"metadata\":\"", t.metadata, "metadata", s6);
    ghost var s7 := s6 + [Slot("metadata", NonEmpty(t.metadata))];
    claims := AddObjects(claims, t, s7);
    assert s7 + [Slot("attributes", AttributesValue(t.attributes))] + [Slot("video", VideoValue(t.video))]
           + [Slot("sip", SipValue(t.sip))] + [Slot("agent", AgentValue(t.agent))] == slots;
    FinishObject(claims, false, slots);
    claims := claims + Ascii("}");
  }
}
