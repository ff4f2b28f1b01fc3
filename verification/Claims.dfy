/** The claims of an access token as a JSON tree, and reading them back. */
module Claims {
  import opened Text
  import opened Wrappers
  import opened Json
  import opened JsonRoundTrip

  datatype VideoGrant = VideoGrant(
    roomCreate: bool, roomList: bool, roomRecord: bool, roomAdmin: bool, roomJoin: bool,
    room: Text, destinationRoom: Text, ingressAdmin: bool,
    canPublish: Option<bool>, canSubscribe: Option<bool>,
    canPublishData: Option<bool>, canUpdateOwnMetadata: Option<bool>,
    canPublishSources: seq<Text>, hidden: bool, recorder: bool, agent: bool)

  datatype SipGrant = SipGrant(admin: bool, call: bool)

  datatype AgentGrant = AgentGrant(admin: bool, simulationAdmin: bool)

  // Ordered maps

  datatype Entry = Entry(key: Text, value: Text)

  /** Lexicographic order of byte strings. */
  predicate Less(a: Text, b: Text) {
    b != [] && (a == [] || a[0] < b[0] || (a[0] == b[0] && Less(a[1..], b[1..])))
  }

  predicate InKeyOrder(s: seq<Entry>) {
    forall i, j :: 0 <= i < j < |s| ==> Less(s[i].key, s[j].key)
  }

  /** A `std::map<std::string, std::string>`: its nodes in the order it iterates over them. */
  type OrderedMap = s: seq<Entry> | InKeyOrder(s) witness []

  lemma {:induction false} LessIrreflexive(a: Text)
    ensures !Less(a, a)
  {
    if a != [] {
      LessIrreflexive(a[1..]);
    }
  }

  /** The first difference decides, and a text comes before its continuations. */
  lemma {:induction false} LessIs(front: Text, u: nat, a: Text, v: nat, b: Text)
    ensures u != v ==> (Less(front + [u] + a, front + [v] + b) <==> u < v)
    ensures Less(front, front + [u] + a)
    decreases |front|
  {
    if front != [] {
      LessIs(front[1..], u, a, v, b);
      assert (front + [u] + a)[1..] == front[1..] + [u] + a && (front + [v] + b)[1..] == front[1..] + [v] + b;
    }
  }

  lemma {:induction false} LessAsymmetric(a: Text, b: Text)
    requires Less(a, b)
    ensures !Less(b, a)
    decreases |a|
  {
    if a != [] && a[0] == b[0] {
      LessAsymmetric(a[1..], b[1..]);
    }
  }

  /** An ordered map is determined by its entries: iteration order carries no extra information. */
  lemma {:induction false} SameEntries(a: OrderedMap, b: OrderedMap)
    requires forall e :: e in a <==> e in b
    ensures a == b
    decreases |a|
  {
    NonEmptyTogether(a, b);
    NonEmptyTogether(b, a);
    if a != [] {
      FirstIsLeast(a, b);
      FirstIsLeast(b, a);
      if a[0] != b[0] {
        LessAsymmetric(a[0].key, b[0].key);
      }
      TailEntries(a, b);
      TailEntries(b, a);
      SameEntries(a[1..], b[1..]);
    }
  }

  lemma NonEmptyTogether(a: seq<Entry>, b: seq<Entry>)
    requires forall e :: e in a ==> e in b
    ensures a != [] ==> b != []
  {
    if a != [] {
      assert a[0] in a;
    }
  }

  lemma FirstIsLeast(a: OrderedMap, b: OrderedMap)
    requires a != [] && b != [] && b[0] in a
    ensures a[0] == b[0] || Less(a[0].key, b[0].key)
  {
  }

  lemma TailEntries(a: OrderedMap, b: OrderedMap)
    requires a != [] && b != [] && a[0] == b[0]
    requires forall e :: e in a ==> e in b
    ensures forall e :: e in a[1..] ==> e in b[1..]
  {
    forall e | e in a[1..] ensures e in b[1..] {
      assert e in a;
      assert b == [b[0]] + b[1..];
      var i :| 0 < i < |a| && a[i] == e;
      LessIrreflexive(e.key);
      assert e != a[0];
    }
  }

  // The tree ToJwt prints

  /** What a token says, apart from the secret it is signed with. */
  datatype Token = Token(
    apiKey: Text, identity: Text, name: Text, metadata: Text, attributes: OrderedMap,
    video: Option<VideoGrant>, sip: Option<SipGrant>, agent: Option<AgentGrant>)

  /** A place in an object that may stay empty. */
  datatype Slot = Slot(name: string, value: Option<Json>)

  /** The members of the filled slots. */
  function Present(slots: seq<Slot>): seq<Member> {
    if slots == [] then []
    else (match slots[0].value case None => [] case Some(v) => [Member(Ascii(slots[0].name), v)])
         + Present(slots[1..])
  }

  function Flag(b: bool): Option<Json> {
    if b then Some(Bool(true)) else None
  }

  function TriState(b: Option<bool>): Option<Json> {
    match b case None => None case Some(v) => Some(Bool(v))
  }

  function NonEmpty(s: Text): Option<Json> {
    if s == [] then None else Some(Str(s))
  }

  function Strings(s: seq<Text>): seq<Json> {
    seq(|s|, i requires 0 <= i < |s| => Str(s[i]))
  }

  function SourcesValue(s: seq<Text>): Option<Json> {
    if s == [] then None else Some(Arr(Strings(s)))
  }

  function EntryMembers(s: seq<Entry>): seq<Member> {
    seq(|s|, i requires 0 <= i < |s| => Member(s[i].key, Str(s[i].value)))
  }

  function VideoSlots(g: VideoGrant): (slots: seq<Slot>)
    ensures |slots| == 16
  {
    [ Slot("roomCreate", Flag(g.roomCreate)), Slot("roomList", Flag(g.roomList)),
      Slot("roomRecord", Flag(g.roomRecord)), Slot("roomAdmin", Flag(g.roomAdmin)),
      Slot("roomJoin", Flag(g.roomJoin)), Slot("room", NonEmpty(g.room)),
      Slot("destinationRoom", NonEmpty(g.destinationRoom)), Slot("ingressAdmin", Flag(g.ingressAdmin)),
      Slot("canPublish", TriState(g.canPublish)), Slot("canSubscribe", TriState(g.canSubscribe)),
      Slot("canPublishData", TriState(g.canPublishData)),
      Slot("canUpdateOwnMetadata", TriState(g.canUpdateOwnMetadata)),
      Slot("canPublishSources", SourcesValue(g.canPublishSources)),
      Slot("hidden", Flag(g.hidden)), Slot("recorder", Flag(g.recorder)), Slot("agent", Flag(g.agent)) ]
  }

  function SipSlots(g: SipGrant): seq<Slot> {
    [Slot("admin", Flag(g.admin)), Slot("call", Flag(g.call))]
  }

  function AgentSlots(g: AgentGrant): seq<Slot> {
    [Slot("admin", Flag(g.admin)), Slot("simulationAdmin", Flag(g.simulationAdmin))]
  }

  function VideoValue(v: Option<VideoGrant>): Option<Json> {
    match v case None => None case Some(g) => Some(Obj(Present(VideoSlots(g))))
  }

  function SipValue(v: Option<SipGrant>): Option<Json> {
    match v case None => None case Some(g) => Some(Obj(Present(SipSlots(g))))
  }

  function AgentValue(v: Option<AgentGrant>): Option<Json> {
    match v case None => None case Some(g) => Some(Obj(Present(AgentSlots(g))))
  }

  function AttributesValue(m: OrderedMap): Option<Json> {
    if m == [] then None else Some(Obj(EntryMembers(m)))
  }

  function TokenSlots(t: Token, issued: int, expires: int): seq<Slot> {
    [ Slot("iss", Some(Str(t.apiKey))), Slot("nbf", Some(Int(issued))),
      Slot("exp", Some(Int(expires))), Slot("iat", Some(Int(issued))),
      Slot("sub", NonEmpty(t.identity)), Slot("name", NonEmpty(t.name)),
      Slot("metadata", NonEmpty(t.metadata)), Slot("attributes", AttributesValue(t.attributes)),
      Slot("video", VideoValue(t.video)), Slot("sip", SipValue(t.sip)), Slot("agent", AgentValue(t.agent)) ]
  }

  function ClaimsTree(t: Token, issued: int, expires: int): Json {
    Obj(Present(TokenSlots(t, issued, expires)))
  }

  function ClaimsText(t: Token, issued: int, expires: int): Text {
    Print(Native, ClaimsTree(t, issued, expires))
  }

  // Reading claims by name

  function Lookup(members: seq<Member>, name: string): Option<Json> {
    if members == [] then None
    else if members[0].name == Ascii(name) then Some(members[0].value)
    else Lookup(members[1..], name)
  }

  function ReadFlag(members: seq<Member>, name: string): Option<bool> {
    match Lookup(members, name)
    case None => Some(false)
    case Some(Bool(b)) => Some(b)
    case _ => None
  }

  function ReadTriState(members: seq<Member>, name: string): Option<Option<bool>> {
    match Lookup(members, name)
    case None => Some(None)
    case Some(Bool(b)) => Some(Some(b))
    case _ => None
  }

  function ReadText(members: seq<Member>, name: string): Option<Text> {
    match Lookup(members, name)
    case None => Some([])
    case Some(Str(s)) => Some(s)
    case _ => None
  }

  function ReadInt(members: seq<Member>, name: string): Option<int> {
    match Lookup(members, name)
    case Some(Int(n)) => Some(n)
    case _ => None
  }

  function StringItems(items: seq<Json>): Option<seq<Text>> {
    if items == [] then Some([])
    else if !items[0].Str? then None
    else
      var rest :- StringItems(items[1..]);
      Some([items[0].s] + rest)
  }

  function ReadTexts(members: seq<Member>, name: string): Option<seq<Text>> {
    match Lookup(members, name)
    case None => Some([])
    case Some(Arr(items)) => StringItems(items)
    case _ => None
  }

  function MemberEntries(members: seq<Member>): Option<seq<Entry>> {
    if members == [] then Some([])
    else if !members[0].value.Str? then None
    else
      var rest :- MemberEntries(members[1..]);
      Some([Entry(members[0].name, members[0].value.s)] + rest)
  }

  function ReadAttributes(members: seq<Member>): Option<OrderedMap> {
    match Lookup(members, "attributes")
    case None => Some([])
    case Some(Obj(ms)) =>
      var s :- MemberEntries(ms);
      if InKeyOrder(s) then Some(s) else None
    case _ => None
  }

  function ReadVideoMembers(ms: seq<Member>): Option<VideoGrant> {
    var roomCreate :- ReadFlag(ms, "roomCreate");
    var roomList :- ReadFlag(ms, "roomList");
    var roomRecord :- ReadFlag(ms, "roomRecord");
    var roomAdmin :- ReadFlag(ms, "roomAdmin");
    var roomJoin :- ReadFlag(ms, "roomJoin");
    var room :- ReadText(ms, "room");
    var destinationRoom :- ReadText(ms, "destinationRoom");
    var ingressAdmin :- ReadFlag(ms, "ingressAdmin");
    var canPublish :- ReadTriState(ms, "canPublish");
    var canSubscribe :- ReadTriState(ms, "canSubscribe");
    var canPublishData :- ReadTriState(ms, "canPublishData");
    var canUpdateOwnMetadata :- ReadTriState(ms, "canUpdateOwnMetadata");
    var canPublishSources :- ReadTexts(ms, "canPublishSources");
    var hidden :- ReadFlag(ms, "hidden");
    var recorder :- ReadFlag(ms, "recorder");
    var agent :- ReadFlag(ms, "agent");
    Some(VideoGrant(roomCreate, roomList, roomRecord, roomAdmin, roomJoin, room, destinationRoom, ingressAdmin,
                    canPublish, canSubscribe, canPublishData, canUpdateOwnMetadata, canPublishSources,
                    hidden, recorder, agent))
  }

  function ReadVideo(members: seq<Member>): Option<Option<VideoGrant>> {
    match Lookup(members, "video")
    case None => Some(None)
    case Some(Obj(ms)) =>
      var g :- ReadVideoMembers(ms);
      Some(Some(g))
    case _ => None
  }

  function ReadSip(members: seq<Member>): Option<Option<SipGrant>> {
    match Lookup(members, "sip")
    case None => Some(None)
    case Some(Obj(ms)) =>
      var admin :- ReadFlag(ms, "admin");
      var call :- ReadFlag(ms, "call");
      Some(Some(SipGrant(admin, call)))
    case _ => None
  }

  function ReadAgent(members: seq<Member>): Option<Option<AgentGrant>> {
    match Lookup(members, "agent")
    case None => Some(None)
    case Some(Obj(ms)) =>
      var admin :- ReadFlag(ms, "admin");
      var simulationAdmin :- ReadFlag(ms, "simulationAdmin");
      Some(Some(AgentGrant(admin, simulationAdmin)))
    case _ => None
  }

  /** Everything a verifier can learn from claims. */
  datatype Contents = Contents(token: Token, nbf: int, exp: int, iat: int)

  function ReadContents(members: seq<Member>): Option<Contents> {
    var apiKey :- ReadText(members, "iss");
    var nbf :- ReadInt(members, "nbf");
    var exp :- ReadInt(members, "exp");
    var iat :- ReadInt(members, "iat");
    var identity :- ReadText(members, "sub");
    var name :- ReadText(members, "name");
    var metadata :- ReadText(members, "metadata");
    var attributes :- ReadAttributes(members);
    var video :- ReadVideo(members);
    var sip :- ReadSip(members);
    var agent :- ReadAgent(members);
    Some(Contents(Token(apiKey, identity, name, metadata, attributes, video, sip, agent), nbf, exp, iat))
  }

  function ReadClaims(text: Text): Option<Contents> {
    match Read(text)
    case Some(Obj(members)) => ReadContents(members)
    case _ => None
  }

  // Round trip

  predicate DistinctNames(slots: seq<Slot>) {
    forall i, j :: 0 <= i < j < |slots| ==> slots[i].name != slots[j].name
  }

  lemma {:induction false} LookupMissing(slots: seq<Slot>, name: string)
    requires forall i :: 0 <= i < |slots| ==> slots[i].name != name
    ensures Lookup(Present(slots), name) == None
  {
    if slots != [] {
      LookupMissing(slots[1..], name);
      if Ascii(slots[0].name) == Ascii(name) {
        AsciiInjective(slots[0].name, name);
      }
      if slots[0].value.Some? {
        assert Present(slots)[1..] == Present(slots[1..]);
      } else {
        assert Present(slots) == Present(slots[1..]);
      }
    }
  }

  /** Looking a name up finds exactly what its slot holds. */
  lemma {:induction false} LookupPresent(slots: seq<Slot>, i: nat)
    requires i < |slots| && DistinctNames(slots)
    ensures Lookup(Present(slots), slots[i].name) == slots[i].value
  {
    var name := slots[i].name;
    if slots[0].value.Some? {
      assert Present(slots)[1..] == Present(slots[1..]);
    } else {
      assert Present(slots) == Present(slots[1..]);
    }
    if i == 0 {
      LookupMissing(slots[1..], name);
    } else {
      assert slots[0].name != name;
      if Ascii(slots[0].name) == Ascii(name) {
        AsciiInjective(slots[0].name, name);
      }
      LookupPresent(slots[1..], i - 1);
    }
  }

  lemma {:induction false} StringItemsBack(s: seq<Text>)
    ensures StringItems(Strings(s)) == Some(s)
  {
    if s != [] {
      assert Strings(s)[1..] == Strings(s[1..]);
      StringItemsBack(s[1..]);
      assert s == [s[0]] + s[1..];
    }
  }

  lemma {:induction false} EntriesBack(s: seq<Entry>)
    ensures MemberEntries(EntryMembers(s)) == Some(s)
  {
    if s != [] {
      assert EntryMembers(s)[1..] == EntryMembers(s[1..]);
      EntriesBack(s[1..]);
      assert s == [s[0]] + s[1..];
    }
  }

  lemma LookupSlot(slots: seq<Slot>, i: nat, name: string, value: Option<Json>)
    requires i < |slots| && DistinctNames(slots) && slots[i] == Slot(name, value)
    ensures Lookup(Present(slots), name) == value
  {
    LookupPresent(slots, i);
  }

  lemma FlagSlot(slots: seq<Slot>, i: nat, name: string, b: bool)
    requires i < |slots| && DistinctNames(slots) && slots[i] == Slot(name, Flag(b))
    ensures ReadFlag(Present(slots), name) == Some(b)
  {
    LookupSlot(slots, i, name, Flag(b));
  }

  lemma TriStateSlot(slots: seq<Slot>, i: nat, name: string, b: Option<bool>)
    requires i < |slots| && DistinctNames(slots) && slots[i] == Slot(name, TriState(b))
    ensures ReadTriState(Present(slots), name) == Some(b)
  {
    LookupSlot(slots, i, name, TriState(b));
  }

  lemma TextSlot(slots: seq<Slot>, i: nat, name: string, s: Text)
    requires i < |slots| && DistinctNames(slots) && slots[i] == Slot(name, NonEmpty(s))
    ensures ReadText(Present(slots), name) == Some(s)
  {
    LookupSlot(slots, i, name, NonEmpty(s));
  }

  lemma TextsSlot(slots: seq<Slot>, i: nat, name: string, s: seq<Text>)
    requires i < |slots| && DistinctNames(slots) && slots[i] == Slot(name, SourcesValue(s))
    ensures ReadTexts(Present(slots), name) == Some(s)
  {
    LookupSlot(slots, i, name, SourcesValue(s));
    StringItemsBack(s);
  }

  lemma VideoNames(g: VideoGrant)
    ensures DistinctNames(VideoSlots(g))
  {
  }

  lemma RoomFlagsBack(g: VideoGrant, ms: seq<Member>)
    requires ms == Present(VideoSlots(g))
    ensures ReadFlag(ms, "roomCreate") == Some(g.roomCreate) && ReadFlag(ms, "roomList") == Some(g.roomList)
  {
    hide ReadFlag, ReadText, Present, DistinctNames, Flag, NonEmpty, TriState, SourcesValue;
    VideoNames(g);
    var slots := VideoSlots(g);
    FlagSlot(slots, 0, "roomCreate", g.roomCreate);
    FlagSlot(slots, 1, "roomList", g.roomList);
  }

  lemma MoreRoomFlagsBack(g: VideoGrant, ms: seq<Member>)
    requires ms == Present(VideoSlots(g))
    ensures ReadFlag(ms, "roomRecord") == Some(g.roomRecord) && ReadFlag(ms, "roomAdmin") == Some(g.roomAdmin)
    ensures ReadFlag(ms, "roomJoin") == Some(g.roomJoin)
  {
    hide ReadFlag, ReadText, Present, DistinctNames, Flag, NonEmpty, TriState, SourcesValue;
    VideoNames(g);
    var slots := VideoSlots(g);
    FlagSlot(slots, 2, "roomRecord", g.roomRecord);
    FlagSlot(slots, 3, "roomAdmin", g.roomAdmin);
    FlagSlot(slots, 4, "roomJoin", g.roomJoin);
  }

  lemma RoomNamesBack(g: VideoGrant, ms: seq<Member>)
    requires ms == Present(VideoSlots(g))
    ensures ReadText(ms, "room") == Some(g.room)
    ensures ReadText(ms, "destinationRoom") == Some(g.destinationRoom)
    ensures ReadFlag(ms, "ingressAdmin") == Some(g.ingressAdmin)
  {
    hide ReadFlag, ReadText, Present, DistinctNames, Flag, NonEmpty, TriState, SourcesValue;
    VideoNames(g);
    var slots := VideoSlots(g);
    TextSlot(slots, 5, "room", g.room);
    TextSlot(slots, 6, "destinationRoom", g.destinationRoom);
    FlagSlot(slots, 7, "ingressAdmin", g.ingressAdmin);
  }

  lemma PermissionsBack(g: VideoGrant, ms: seq<Member>)
    requires ms == Present(VideoSlots(g))
    ensures ReadTriState(ms, "canPublish") == Some(g.canPublish)
    ensures ReadTriState(ms, "canSubscribe") == Some(g.canSubscribe)
    ensures ReadTriState(ms, "canPublishData") == Some(g.canPublishData)
    ensures ReadTriState(ms, "canUpdateOwnMetadata") == Some(g.canUpdateOwnMetadata)
    ensures ReadTexts(ms, "canPublishSources") == Some(g.canPublishSources)
    ensures ReadFlag(ms, "hidden") == Some(g.hidden) && ReadFlag(ms, "recorder") == Some(g.recorder)
    ensures ReadFlag(ms, "agent") == Some(g.agent)
  {
    hide ReadFlag, ReadTriState, ReadTexts, Present, DistinctNames, Flag, NonEmpty, TriState, SourcesValue;
    VideoNames(g);
    var slots := VideoSlots(g);
    TriStateSlot(slots, 8, "canPublish", g.canPublish);
    TriStateSlot(slots, 9, "canSubscribe", g.canSubscribe);
    TriStateSlot(slots, 10, "canPublishData", g.canPublishData);
    TriStateSlot(slots, 11, "canUpdateOwnMetadata", g.canUpdateOwnMetadata);
    TextsSlot(slots, 12, "canPublishSources", g.canPublishSources);
    FlagSlot(slots, 13, "hidden", g.hidden);
    FlagSlot(slots, 14, "recorder", g.recorder);
    FlagSlot(slots, 15, "agent", g.agent);
  }

  /** Absent, false and true of every optional boolean, and every string and list, come back. */
  lemma VideoBack(g: VideoGrant)
    ensures ReadVideoMembers(Present(VideoSlots(g))) == Some(g)
  {
    hide VideoSlots, Present, ReadFlag, ReadTriState, ReadText, ReadTexts;
    RoomFlagsBack(g, Present(VideoSlots(g)));
    MoreRoomFlagsBack(g, Present(VideoSlots(g)));
    RoomNamesBack(g, Present(VideoSlots(g)));
    PermissionsBack(g, Present(VideoSlots(g)));
  }

  lemma SipBack(g: SipGrant)
    ensures var ms := Present(SipSlots(g));
            ReadFlag(ms, "admin") == Some(g.admin) && ReadFlag(ms, "call") == Some(g.call)
  {
    FlagSlot(SipSlots(g), 0, "admin", g.admin);
    FlagSlot(SipSlots(g), 1, "call", g.call);
  }

  lemma AgentBack(g: AgentGrant)
    ensures var ms := Present(AgentSlots(g));
            ReadFlag(ms, "admin") == Some(g.admin) && ReadFlag(ms, "simulationAdmin") == Some(g.simulationAdmin)
  {
    FlagSlot(AgentSlots(g), 0, "admin", g.admin);
    FlagSlot(AgentSlots(g), 1, "simulationAdmin", g.simulationAdmin);
  }

  lemma TokenNames(t: Token, issued: int, expires: int)
    ensures DistinctNames(TokenSlots(t, issued, expires))
  {
  }

  lemma TimeClaimsBack(t: Token, issued: int, expires: int, ms: seq<Member>)
    requires ms == Present(TokenSlots(t, issued, expires))
    ensures ReadText(ms, "iss") == Some(t.apiKey) && ReadInt(ms, "nbf") == Some(issued)
    ensures ReadInt(ms, "exp") == Some(expires) && ReadInt(ms, "iat") == Some(issued)
  {
    hide Lookup, Present, DistinctNames, NonEmpty, AttributesValue, VideoValue, SipValue, AgentValue;
    TokenNames(t, issued, expires);
    var slots := TokenSlots(t, issued, expires);
    LookupSlot(slots, 0, "iss", Some(Str(t.apiKey)));
    LookupSlot(slots, 1, "nbf", Some(Int(issued)));
    LookupSlot(slots, 2, "exp", Some(Int(expires)));
    LookupSlot(slots, 3, "iat", Some(Int(issued)));
  }

  lemma TextClaimsBack(t: Token, issued: int, expires: int, ms: seq<Member>)
    requires ms == Present(TokenSlots(t, issued, expires))
    ensures ReadText(ms, "sub") == Some(t.identity) && ReadText(ms, "name") == Some(t.name)
    ensures ReadText(ms, "metadata") == Some(t.metadata)
  {
    hide Lookup, Present, DistinctNames, NonEmpty, AttributesValue, VideoValue, SipValue, AgentValue, ReadText;
    TokenNames(t, issued, expires);
    var slots := TokenSlots(t, issued, expires);
    TextSlot(slots, 4, "sub", t.identity);
    TextSlot(slots, 5, "name", t.name);
    TextSlot(slots, 6, "metadata", t.metadata);
  }

  lemma ObjectLookups(t: Token, issued: int, expires: int, ms: seq<Member>)
    requires ms == Present(TokenSlots(t, issued, expires))
    ensures Lookup(ms, "attributes") == AttributesValue(t.attributes)
    ensures Lookup(ms, "video") == VideoValue(t.video) && Lookup(ms, "sip") == SipValue(t.sip)
    ensures Lookup(ms, "agent") == AgentValue(t.agent)
  {
    hide Lookup, Present, DistinctNames, NonEmpty, AttributesValue, VideoValue, SipValue, AgentValue;
    TokenNames(t, issued, expires);
    var slots := TokenSlots(t, issued, expires);
    LookupSlot(slots, 7, "attributes", AttributesValue(t.attributes));
    LookupSlot(slots, 8, "video", VideoValue(t.video));
    LookupSlot(slots, 9, "sip", SipValue(t.sip));
    LookupSlot(slots, 10, "agent", AgentValue(t.agent));
  }

  lemma AttributesBack(t: Token, ms: seq<Member>)
    requires Lookup(ms, "attributes") == AttributesValue(t.attributes)
    ensures ReadAttributes(ms) == Some(t.attributes)
  {
    EntriesBack(t.attributes);
    hide Lookup, MemberEntries, EntryMembers;
  }

  lemma GrantsBack(t: Token, ms: seq<Member>)
    requires Lookup(ms, "video") == VideoValue(t.video) && Lookup(ms, "sip") == SipValue(t.sip)
    requires Lookup(ms, "agent") == AgentValue(t.agent)
    ensures ReadVideo(ms) == Some(t.video) && ReadSip(ms) == Some(t.sip) && ReadAgent(ms) == Some(t.agent)
  {
    if t.video.Some? {
      VideoBack(t.video.value);
    }
    if t.sip.Some? {
      SipBack(t.sip.value);
    }
    if t.agent.Some? {
      AgentBack(t.agent.value);
    }
    hide Lookup, Present, ReadVideoMembers, ReadFlag, VideoSlots, SipSlots, AgentSlots;
  }

  /** Reading the members finds the token again. */
  lemma ContentsBack(t: Token, issued: int, expires: int)
    ensures ReadContents(Present(TokenSlots(t, issued, expires))) == Some(Contents(t, issued, expires, issued))
  {
    hide Lookup, Present, TokenSlots, ReadText, ReadInt, ReadAttributes, ReadVideo, ReadSip, ReadAgent,
         AttributesValue, VideoValue, SipValue, AgentValue;
    var ms := Present(TokenSlots(t, issued, expires));
    TimeClaimsBack(t, issued, expires, ms);
    TextClaimsBack(t, issued, expires, ms);
    ObjectLookups(t, issued, expires, ms);
    AttributesBack(t, ms);
    GrantsBack(t, ms);
  }

  /** Parsing the printed claims recovers the issuer, the three times, every string, the attribute
      map and all three optional grants exactly. */
  lemma ClaimsRoundTrip(t: Token, issued: int, expires: int)
    ensures ReadClaims(ClaimsText(t, issued, expires)) == Some(Contents(t, issued, expires, issued))
  {
    ReadPrint(Native, ClaimsTree(t, issued, expires));
    ContentsBack(t, issued, expires);
    hide ReadContents, Read, Print, Present, TokenSlots;
  }

  /** Equal claims come from equal tokens (the signing secret apart) and equal times. */
  lemma ClaimsInjective(a: Token, issuedA: int, expiresA: int, b: Token, issuedB: int, expiresB: int)
    requires ClaimsText(a, issuedA, expiresA) == ClaimsText(b, issuedB, expiresB)
    ensures a == b && issuedA == issuedB && expiresA == expiresB
  {
    ClaimsRoundTrip(a, issuedA, expiresA);
    ClaimsRoundTrip(b, issuedB, expiresB);
    hide ReadClaims, ClaimsText;
  }

  // The members by name

  predicate SaysTrue(ms: seq<Member>, name: string, b: bool) {
    Lookup(ms, name) == if b then Some(Bool(true)) else None
  }

  predicate SaysBool(ms: seq<Member>, name: string, b: Option<bool>) {
    Lookup(ms, name) == if b.Some? then Some(Bool(b.value)) else None
  }

  predicate SaysString(ms: seq<Member>, name: string, s: Text) {
    Lookup(ms, name) == if s != [] then Some(Str(s)) else None
  }

  /** Under which name each right on rooms is printed: only when it is given. */
  lemma RoomMembers(g: VideoGrant)
    ensures SaysTrue(Present(VideoSlots(g)), "roomCreate", g.roomCreate)
    ensures SaysTrue(Present(VideoSlots(g)), "roomList", g.roomList)
    ensures SaysTrue(Present(VideoSlots(g)), "roomRecord", g.roomRecord)
    ensures SaysTrue(Present(VideoSlots(g)), "roomAdmin", g.roomAdmin)
    ensures SaysTrue(Present(VideoSlots(g)), "roomJoin", g.roomJoin)
  {
    VideoNames(g);
    hide Lookup, Present, DistinctNames, TriState, NonEmpty, SourcesValue;
    LookupSlot(VideoSlots(g), 0, "roomCreate", Flag(g.roomCreate));
    LookupSlot(VideoSlots(g), 1, "roomList", Flag(g.roomList));
    LookupSlot(VideoSlots(g), 2, "roomRecord", Flag(g.roomRecord));
    LookupSlot(VideoSlots(g), 3, "roomAdmin", Flag(g.roomAdmin));
    LookupSlot(VideoSlots(g), 4, "roomJoin", Flag(g.roomJoin));
  }

  lemma OtherFlagMembers(g: VideoGrant)
    ensures SaysTrue(Present(VideoSlots(g)), "ingressAdmin", g.ingressAdmin)
    ensures SaysTrue(Present(VideoSlots(g)), "hidden", g.hidden)
    ensures SaysTrue(Present(VideoSlots(g)), "recorder", g.recorder)
    ensures SaysTrue(Present(VideoSlots(g)), "agent", g.agent)
  {
    VideoNames(g);
    hide Lookup, Present, DistinctNames, TriState, NonEmpty, SourcesValue;
    LookupSlot(VideoSlots(g), 7, "ingressAdmin", Flag(g.ingressAdmin));
    LookupSlot(VideoSlots(g), 13, "hidden", Flag(g.hidden));
    LookupSlot(VideoSlots(g), 14, "recorder", Flag(g.recorder));
    LookupSlot(VideoSlots(g), 15, "agent", Flag(g.agent));
  }

  /** The optional rights: printed when they are set, true or false. */
  lemma PermissionMembers(g: VideoGrant)
    ensures SaysBool(Present(VideoSlots(g)), "canPublish", g.canPublish)
    ensures SaysBool(Present(VideoSlots(g)), "canSubscribe", g.canSubscribe)
    ensures SaysBool(Present(VideoSlots(g)), "canPublishData", g.canPublishData)
    ensures SaysBool(Present(VideoSlots(g)), "canUpdateOwnMetadata", g.canUpdateOwnMetadata)
  {
    VideoNames(g);
    hide Lookup, Present, DistinctNames, Flag, NonEmpty, SourcesValue;
    LookupSlot(VideoSlots(g), 8, "canPublish", TriState(g.canPublish));
    LookupSlot(VideoSlots(g), 9, "canSubscribe", TriState(g.canSubscribe));
    LookupSlot(VideoSlots(g), 10, "canPublishData", TriState(g.canPublishData));
    LookupSlot(VideoSlots(g), 11, "canUpdateOwnMetadata", TriState(g.canUpdateOwnMetadata));
  }

  lemma RoomNameMembers(g: VideoGrant)
    ensures SaysString(Present(VideoSlots(g)), "room", g.room)
    ensures SaysString(Present(VideoSlots(g)), "destinationRoom", g.destinationRoom)
    ensures Lookup(Present(VideoSlots(g)), "canPublishSources")
            == if g.canPublishSources == [] then None else Some(Arr(Strings(g.canPublishSources)))
  {
    VideoNames(g);
    hide Lookup, Present, DistinctNames, Flag, TriState;
    LookupSlot(VideoSlots(g), 5, "room", NonEmpty(g.room));
    LookupSlot(VideoSlots(g), 6, "destinationRoom", NonEmpty(g.destinationRoom));
    LookupSlot(VideoSlots(g), 12, "canPublishSources", SourcesValue(g.canPublishSources));
  }

  lemma TextMembers(t: Token, issued: int, expires: int, ms: seq<Member>)
    requires ms == Present(TokenSlots(t, issued, expires))
    ensures Lookup(ms, "iss") == Some(Str(t.apiKey)) && Lookup(ms, "nbf") == Some(Int(issued))
    ensures Lookup(ms, "exp") == Some(Int(expires)) && Lookup(ms, "iat") == Some(Int(issued))
    ensures SaysString(ms, "sub", t.identity) && SaysString(ms, "name", t.name)
    ensures SaysString(ms, "metadata", t.metadata)
  {
    var slots := TokenSlots(t, issued, expires);
    TokenNames(t, issued, expires);
    hide Lookup, Present, DistinctNames, VideoValue, SipValue, AgentValue, AttributesValue;
    LookupSlot(slots, 0, "iss", Some(Str(t.apiKey)));
    LookupSlot(slots, 1, "nbf", Some(Int(issued)));
    LookupSlot(slots, 2, "exp", Some(Int(expires)));
    LookupSlot(slots, 3, "iat", Some(Int(issued)));
    LookupSlot(slots, 4, "sub", NonEmpty(t.identity));
    LookupSlot(slots, 5, "name", NonEmpty(t.name));
    LookupSlot(slots, 6, "metadata", NonEmpty(t.metadata));
  }

  lemma PrintedMembers(t: Token, issued: int, expires: int)
    ensures Read(ClaimsText(t, issued, expires)) == Some(Obj(Present(TokenSlots(t, issued, expires))))
  {
    hide Print, Read, Present, TokenSlots;
    ReadPrint(Native, ClaimsTree(t, issued, expires));
  }

  /** Under which name each claim is printed. */
  lemma ClaimMembers(t: Token, issued: int, expires: int, text: Text)
    requires text == ClaimsText(t, issued, expires)
    ensures Read(text).Some? && Read(text).value.Obj?
    ensures var ms := Read(text).value.members;
            && Lookup(ms, "iss") == Some(Str(t.apiKey)) && Lookup(ms, "nbf") == Some(Int(issued))
            && Lookup(ms, "exp") == Some(Int(expires)) && Lookup(ms, "iat") == Some(Int(issued))
            && SaysString(ms, "sub", t.identity) && SaysString(ms, "name", t.name)
            && SaysString(ms, "metadata", t.metadata)
            && Lookup(ms, "attributes")
               == (if t.attributes == [] then None else Some(Obj(EntryMembers(t.attributes))))
            && Lookup(ms, "video")
               == (if t.video.Some? then Some(Obj(Present(VideoSlots(t.video.value)))) else None)
            && Lookup(ms, "sip") == (if t.sip.Some? then Some(Obj(Present(SipSlots(t.sip.value)))) else None)
            && Lookup(ms, "agent") == (if t.agent.Some? then Some(Obj(Present(AgentSlots(t.agent.value)))) else None)
  {
    hide Lookup, Present, Read, ClaimsText, TokenSlots, SaysString, VideoSlots, SipSlots, AgentSlots, EntryMembers;
    PrintedMembers(t, issued, expires);
    var ms := Present(TokenSlots(t, issued, expires));
    TextMembers(t, issued, expires, ms);
    ObjectLookups(t, issued, expires, ms);
  }

  lemma SipAgentMembers(s: SipGrant, a: AgentGrant)
    ensures SaysTrue(Present(SipSlots(s)), "admin", s.admin) && SaysTrue(Present(SipSlots(s)), "call", s.call)
    ensures SaysTrue(Present(AgentSlots(a)), "admin", a.admin)
    ensures SaysTrue(Present(AgentSlots(a)), "simulationAdmin", a.simulationAdmin)
  {
    hide Lookup, Present;
    LookupSlot(SipSlots(s), 0, "admin", Flag(s.admin));
    LookupSlot(SipSlots(s), 1, "call", Flag(s.call));
    LookupSlot(AgentSlots(a), 0, "admin", Flag(a.admin));
    LookupSlot(AgentSlots(a), 1, "simulationAdmin", Flag(a.simulationAdmin));
  }
}
