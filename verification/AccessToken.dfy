/** The token builder and the JWT it signs (section 7.1 of RFC 7515, section 3.2 of RFC 7518). */
module AccessToken {
  import opened Text
  import opened Wrappers
  import opened Json
  import opened JsonBytes
  import opened Claims
  import opened Clock
  import opened TokenPrinter
  import opened Base64
  import opened Base64RoundTrip

  type Bytes = t: Text | IsBytes(t) witness []

  type Digest = t: Text | IsBytes(t) && |t| == 32 witness seq(32, _ => 0)

  /** HMAC-SHA256 by key and message; its inner working is not modelled. */
  type Mac = (Text, Text) -> Digest

  const HEADER := "{\"alg\":\"HS256\",\"typ\":\"JWT\"}"
  const DOT: nat := '.' as nat

  predicate ByteTexts(s: seq<Text>) {
    forall i :: 0 <= i < |s| ==> IsBytes(s[i])
  }

  predicate ByteEntries(s: seq<Entry>) {
    forall i :: 0 <= i < |s| ==> IsBytes(s[i].key) && IsBytes(s[i].value)
  }

  predicate ByteVideo(g: VideoGrant) {
    IsBytes(g.room) && IsBytes(g.destinationRoom) && ByteTexts(g.canPublishSources)
  }

  /** Every string of the token is a byte string. */
  predicate ByteToken(t: Token) {
    && IsBytes(t.apiKey) && IsBytes(t.identity) && IsBytes(t.name) && IsBytes(t.metadata)
    && ByteEntries(t.attributes)
    && (t.video.Some? ==> ByteVideo(t.video.value))
  }

  predicate ByteSlots(slots: seq<Slot>) {
    forall i :: 0 <= i < |slots| ==>
      ByteName(slots[i].name) && (slots[i].value.Some? ==> ByteTree(slots[i].value.value))
  }

  predicate ByteName(name: string) {
    IsBytes(Ascii(name))
  }

  lemma {:induction false} PresentBytes(slots: seq<Slot>)
    requires ByteSlots(slots)
    ensures ByteMembers(Present(slots))
  {
    if slots != [] {
      PresentBytes(slots[1..]);
      assert ByteName(slots[0].name);
      if slots[0].value.Some? {
        assert Present(slots)[1..] == Present(slots[1..]);
      } else {
        assert Present(slots) == Present(slots[1..]);
      }
    }
  }

  lemma {:induction false} StringsBytes(s: seq<Text>)
    requires ByteTexts(s)
    ensures ByteItems(Strings(s))
  {
    if s != [] {
      assert Strings(s)[1..] == Strings(s[1..]);
      StringsBytes(s[1..]);
    }
  }

  lemma {:induction false} EntriesBytes(s: seq<Entry>)
    requires ByteEntries(s)
    ensures ByteMembers(EntryMembers(s))
  {
    if s != [] {
      assert EntryMembers(s)[1..] == EntryMembers(s[1..]);
      EntriesBytes(s[1..]);
    }
  }

  lemma RoomRightNames()
    ensures ByteName("roomCreate") && ByteName("roomList")
    ensures ByteName("roomRecord") && ByteName("roomAdmin")
  {
  }

  lemma RoomNames()
    ensures ByteName("roomJoin") && ByteName("room")
    ensures ByteName("destinationRoom") && ByteName("ingressAdmin")
  {
  }

  lemma PermissionNames()
    ensures ByteName("canPublish") && ByteName("canSubscribe")
    ensures ByteName("canPublishData") && ByteName("canUpdateOwnMetadata")
  {
  }

  lemma KindNames()
    ensures ByteName("canPublishSources") && ByteName("hidden")
    ensures ByteName("recorder") && ByteName("agent")
  {
  }

  lemma StandardNames()
    ensures ByteName("iss") && ByteName("nbf")
    ensures ByteName("exp") && ByteName("iat")
    ensures ByteName("sub") && ByteName("name")
  {
  }

  lemma LiveKitNames()
    ensures ByteName("metadata") && ByteName("attributes")
    ensures ByteName("video") && ByteName("sip")
    ensures ByteName("agent") && ByteName("admin")
  {
  }

  lemma GrantNames()
    ensures ByteName("call") && ByteName("simulationAdmin")
  {
  }

  lemma VideoBytes(g: VideoGrant)
    requires ByteVideo(g)
    ensures ByteTree(Obj(Present(VideoSlots(g))))
  {
    StringsBytes(g.canPublishSources);
    RoomRightNames();
    RoomNames();
    PermissionNames();
    KindNames();
    hide ByteName, Strings;
    assert ByteSlots(VideoSlots(g));
    PresentBytes(VideoSlots(g));
  }

  lemma SipAgentBytes(s: SipGrant, a: AgentGrant)
    ensures ByteTree(Obj(Present(SipSlots(s)))) && ByteTree(Obj(Present(AgentSlots(a))))
  {
    LiveKitNames();
    GrantNames();
    hide ByteName;
    PresentBytes(SipSlots(s));
    PresentBytes(AgentSlots(a));
  }

  lemma GrantBytes(t: Token)
    requires ByteToken(t)
    ensures t.video.Some? ==> ByteTree(VideoValue(t.video).value)
    ensures t.sip.Some? ==> ByteTree(SipValue(t.sip).value)
    ensures t.agent.Some? ==> ByteTree(AgentValue(t.agent).value)
    ensures t.attributes != [] ==> ByteTree(AttributesValue(t.attributes).value)
  {
    EntriesBytes(t.attributes);
    if t.video.Some? {
      VideoBytes(t.video.value);
    }
    SipAgentBytes(if t.sip.Some? then t.sip.value else SipGrant(false, false),
                  if t.agent.Some? then t.agent.value else AgentGrant(false, false));
  }

  lemma ClaimsBytes(t: Token, issued: int, expires: int)
    requires ByteToken(t)
    ensures IsBytes(ClaimsText(t, issued, expires))
  {
    TokenSlotsBytes(t, issued, expires);
    hide ByteSlots, TokenSlots, Present, Print;
    PresentBytes(TokenSlots(t, issued, expires));
    PrintBytes(ClaimsTree(t, issued, expires));
  }

  lemma TokenSlotsBytes(t: Token, issued: int, expires: int)
    requires ByteToken(t)
    ensures ByteSlots(TokenSlots(t, issued, expires))
  {
    GrantBytes(t);
    StandardNames();
    LiveKitNames();
    hide ByteName, VideoValue, SipValue, AgentValue, AttributesValue;
  }

  // The token

  function SigningInput(header: Text, claims: Text): Text {
    Base64UrlEncode(header) + [DOT] + Base64UrlEncode(claims)
  }

  /** A compact JWS over HS256: header, claims and signature in unpadded base64url. */
  function Jws(header: Text, claims: Text, secret: Text, hmac: Mac): Text {
    SigningInput(header, claims) + [DOT] + Base64UrlEncode(hmac(secret, SigningInput(header, claims)))
  }

  function UnsignedToken(claims: Text): Text {
    SigningInput(Ascii(HEADER), claims)
  }

  /** The token under the SDK's own header. */
  function Jwt(claims: Text, secret: Text, hmac: Mac): Text {
    Jws(Ascii(HEADER), claims, secret, hmac)
  }

  lemma NoDot(data: Text)
    ensures DOT !in Base64UrlEncode(data)
  {
    UrlLetters();
    hide UrlAlphabet, DataSextets;
    var t := Base64UrlEncode(data);
    forall i | 0 <= i < |t| ensures t[i] != DOT {
      assert Base64UrlValue(t[i]) == DataSextets(data)[i];
    }
  }

  lemma NoSpace(data: Text)
    ensures forall i :: 0 <= i < |Base64UrlEncode(data)| ==> Base64UrlEncode(data)[i] != ' ' as nat
  {
    UrlLetters();
    hide UrlAlphabet, DataSextets;
    var t := Base64UrlEncode(data);
    forall i | 0 <= i < |t| ensures t[i] != ' ' as nat {
      assert Base64UrlValue(t[i]) == DataSextets(data)[i];
    }
  }

  lemma HeaderBytes()
    ensures IsBytes(Ascii(HEADER))
  {
  }

  /** `Overflow`: the expiry does not fit 64 bits, which C++ leaves undefined. */
  datatype Signing = Signed(jwt: Text) | Refused(error: ErrorCode) | Overflow

  /** The builder the SDK hands out; every setter overwrites one field. */
  class AccessToken {
    var apiKey: Bytes
    var apiSecret: Bytes
    var identity: Bytes
    var name: Bytes
    var metadata: Bytes
    var attributes: OrderedMap
    var validFor: int
    var videoGrant: Option<VideoGrant>
    var sipGrant: Option<SipGrant>
    var agentGrant: Option<AgentGrant>

    ghost predicate Valid()
      reads this
    {
      ByteToken(Contents()) && 0 < validFor <= INT64_MAX
    }

    ghost function Contents(): Token
      reads this
    {
      Token(apiKey, identity, name, metadata, attributes, videoGrant, sipGrant, agentGrant)
    }

    constructor (apiKey: Bytes, apiSecret: Bytes)
      ensures Valid() && this.apiSecret == apiSecret && validFor == 6 * 3600
      ensures Contents() == Token(apiKey, [], [], [], [], None, None, None)
    {
      this.apiKey, this.apiSecret := apiKey, apiSecret;
      identity, name, metadata, attributes := [], [], [], [];
      validFor := 6 * 3600;
      videoGrant, sipGrant, agentGrant := None, None, None;
    }

    method SetIdentity(identity: Bytes)
      requires Valid()
      modifies this`identity
      ensures Valid() && Contents() == old(Contents()).(identity := identity)
    {
      this.identity := identity;
    }

    method SetName(name: Bytes)
      requires Valid()
      modifies this`name
      ensures Valid() && Contents() == old(Contents()).(name := name)
    {
      this.name := name;
    }

    method SetMetadata(metadata: Bytes)
      requires Valid()
      modifies this`metadata
      ensures Valid() && Contents() == old(Contents()).(metadata := metadata)
    {
      this.metadata := metadata;
    }

    method SetAttributes(attributes: OrderedMap)
      requires Valid() && ByteEntries(attributes)
      modifies this`attributes
      ensures Valid() && Contents() == old(Contents()).(attributes := attributes)
    {
      this.attributes := attributes;
    }

    method SetValidFor(validFor: int) returns (r: Option<ErrorCode>)
      requires Valid() && InInt64(validFor)
      modifies this`validFor
      ensures Valid() && Contents() == old(Contents())
      ensures r == if validFor <= 0 then Some(InvalidArgument) else None
      ensures this.validFor == if validFor <= 0 then old(this.validFor) else validFor
    {
      if validFor <= 0 {
        return Some(InvalidArgument);
      }
      this.validFor := validFor;
      return None;
    }

    method SetVideoGrant(grant: VideoGrant)
      requires Valid() && ByteVideo(grant)
      modifies this`videoGrant
      ensures Valid() && Contents() == old(Contents()).(video := Some(grant))
    {
      videoGrant := Some(grant);
    }

    method SetSipGrant(grant: SipGrant)
      requires Valid()
      modifies this`sipGrant
      ensures Valid() && Contents() == old(Contents()).(sip := Some(grant))
    {
      sipGrant := Some(grant);
    }

    method SetAgentGrant(grant: AgentGrant)
      requires Valid()
      modifies this`agentGrant
      ensures Valid() && Contents() == old(Contents()).(agent := Some(grant))
    {
      agentGrant := Some(grant);
    }

    /** Signs the claims at the given clock reading. A sum of issue time and lifetime that does not fit a
        64-bit integer is a signed overflow. */
    method ToJwt(now: int, ticksPerSecond: nat, hmac: Mac) returns (r: Signing)
      requires Valid() && ticksPerSecond > 0 && InInt64(now)
      ensures r.Refused? <==> apiKey == [] || apiSecret == []
      ensures r.Refused? ==> r.error == Authentication
      ensures r.Overflow? <==> apiKey != [] && apiSecret != [] && !InInt64(ToSeconds(now, ticksPerSecond) + validFor)
      ensures r.Signed? ==>
        var issued := ToSeconds(now, ticksPerSecond);
        r.jwt == Jwt(ClaimsText(Contents(), issued, issued + validFor), apiSecret, hmac)
    {
      hide ClaimsText, Base64UrlEncode, Encoded;
      if apiKey == [] || apiSecret == [] {
        return Refused(Authentication);
      }
      var issuedAt := ToSeconds(now, ticksPerSecond);
      if !InInt64(issuedAt + validFor) {
        return Overflow;
      }
      var expiresAt := issuedAt + validFor;
      var token := Token(apiKey, identity, name, metadata, attributes, videoGrant, sipGrant, agentGrant);
      ClaimsBytes(token, issuedAt, expiresAt);
      var claims := PrintClaims(token, issuedAt, expiresAt);
      var unsignedToken := SignedPart(claims);
      var signature := UrlEncode(hmac(apiSecret, unsignedToken));
      return Signed(unsignedToken + [DOT] + signature);
    }
  }

  /** With the longest lifetime the sum overflows at every clock reading from one second on, and at none
      before. */
  lemma LongestLifetime(now: int, ticksPerSecond: nat)
    requires ticksPerSecond > 0 && InInt64(now)
    ensures !InInt64(ToSeconds(now, ticksPerSecond) + INT64_MAX) <==> now >= ticksPerSecond
  {
    if now >= 0 {
      WholeSeconds(now, ticksPerSecond);
    } else {
      WholeSeconds(-now, ticksPerSecond);
    }
    hide *;
  }

  lemma WholeSeconds(ticks: nat, perSecond: nat)
    requires perSecond > 0
    ensures ToSeconds(-(ticks as int), perSecond) == -ToSeconds(ticks, perSecond)
    ensures 0 <= ToSeconds(ticks, perSecond) <= ticks
    ensures ToSeconds(ticks, perSecond) >= 1 <==> ticks >= perSecond
  {
    QuotientIs(ticks, perSecond, ticks / perSecond);
  }

  lemma QuotientIs(ticks: nat, perSecond: nat, q: int)
    requires perSecond > 0 && q == ticks / perSecond
    ensures 0 <= q <= ticks && (q >= 1 <==> ticks >= perSecond)
  {
    assert ticks == q * perSecond + ticks % perSecond;
    if q >= 1 {
      Product(q - 1, perSecond);
      assert q * perSecond == (q - 1) * perSecond + perSecond;
    }
  }

  lemma Product(a: nat, b: nat)
    requires b > 0
    ensures a * b >= a
  {
  }

  /** A token that is given the longest lifetime and signed at a clock reading of one second. */
  method OverflowingToken(apiKey: Bytes, apiSecret: Bytes, ticksPerSecond: nat, hmac: Mac)
    returns (lifetime: Option<ErrorCode>, r: Signing)
    requires apiKey != [] && apiSecret != [] && 0 < ticksPerSecond <= INT64_MAX
    ensures lifetime == None && r == Overflow
  {
    var token := new AccessToken(apiKey, apiSecret);
    lifetime := token.SetValidFor(INT64_MAX);
    LongestLifetime(ticksPerSecond, ticksPerSecond);
    r := token.ToJwt(ticksPerSecond, ticksPerSecond, hmac);
  }

  method UrlEncode(data: Bytes) returns (t: Text)
    ensures t == Base64UrlEncode(data)
  {
    UrlLetters();
    t := Base64.Base64(data, UrlAlphabet(), false);
  }

  method SignedPart(claims: Bytes) returns (t: Text)
    ensures t == UnsignedToken(claims)
  {
    HeaderBytes();
    var header := UrlEncode(Ascii(HEADER));
    var payload := UrlEncode(claims);
    t := header + [DOT] + payload;
  }

  // What a verifier finds in a token

  predicate HasParts(jwt: Text, header: Text, payload: Text, signature: Text) {
    && jwt == header + [DOT] + payload + [DOT] + signature
    && DOT !in header && DOT !in payload && DOT !in signature
  }

  /** Cutting a text at its dots is unambiguous. */
  lemma PartsUnique(jwt: Text, h: Text, p: Text, s: Text, h': Text, p': Text, s': Text)
    requires HasParts(jwt, h, p, s) && HasParts(jwt, h', p', s')
    ensures h == h' && p == p' && s == s'
  {
    FirstDotUnique(h, p + [DOT] + s, h', p' + [DOT] + s', jwt);
    FirstDotUnique(p, s, p', s', p + [DOT] + s);
  }

  lemma FirstDotUnique(a: Text, rest: Text, a': Text, rest': Text, t: Text)
    requires t == a + [DOT] + rest && t == a' + [DOT] + rest'
    requires DOT !in a && DOT !in a'
    ensures a == a' && rest == rest'
  {
    FirstDot(a, rest, t);
    FirstDot(a', rest', t);
    assert |a| == |a'|;
    assert a == t[..|a|] && a' == t[..|a'|];
    assert rest == t[|a| + 1..] && rest' == t[|a'| + 1..];
  }

  lemma FirstDot(a: Text, rest: Text, t: Text)
    requires t == a + [DOT] + rest && DOT !in a
    ensures t[|a|] == DOT && forall i :: 0 <= i < |a| ==> t[i] != DOT
  {
    forall i | 0 <= i < |a| ensures t[i] != DOT {
      assert t[i] == a[i];
    }
  }

  /** End to end: whichever way a signed token is cut at its dots, the middle part decodes to claims
      that read back as the token and its times, and the last part to the MAC of what precedes it. */
  lemma JwtRoundTrip(t: Token, issued: int, expires: int, secret: Bytes, hmac: Mac, h: Text, p: Text, s: Text)
    requires ByteToken(t)
    requires HasParts(Jwt(ClaimsText(t, issued, expires), secret, hmac), h, p, s)
    ensures Decode(h) == Some(Ascii(HEADER))
    ensures Decode(p).Some? && ReadClaims(Decode(p).value) == Some(Claims.Contents(t, issued, expires, issued))
    ensures Decode(s) == Some(hmac(secret, h + [DOT] + p))
  {
    hide ClaimsText, Base64UrlEncode, Decode, ReadClaims;
    var claims := ClaimsText(t, issued, expires);
    HeaderBytes();
    ClaimsBytes(t, issued, expires);
    var mac := hmac(secret, UnsignedToken(claims));
    NoDot(Ascii(HEADER));
    NoDot(claims);
    NoDot(mac);
    PartsUnique(Jwt(claims, secret, hmac), h, p, s,
                Base64UrlEncode(Ascii(HEADER)), Base64UrlEncode(claims), Base64UrlEncode(mac));
    RoundTrip(Ascii(HEADER));
    RoundTrip(claims);
    RoundTrip(mac);
    ClaimsRoundTrip(t, issued, expires);
  }
}
