/** Tokens assembled the way the SDK and the server do it, put through the verifier. */
module WebhookTokens {
  import opened Text
  import opened Wrappers
  import opened Clock
  import opened Json
  import opened JsonRoundTrip
  import opened JsonBytes
  import opened Claims
  import opened TokenPrinter
  import opened Base64
  import opened Base64RoundTrip
  import opened IntegerScan
  import opened ClaimsScan
  import opened PrintedScan
  import opened WebhookReceiver

  /** The Authorization header of a token, with or without the scheme. */
  function Authorization(bearer: bool, jwt: Text): Text {
    if bearer then Ascii("Bearer ") + jwt else jwt
  }

  lemma JwsParts(header: Text, claims: Text, secret: Text, hmac: AT.Mac)
    ensures AT.HasParts(AT.Jws(header, claims, secret, hmac), Base64UrlEncode(header), Base64UrlEncode(claims),
                        Base64UrlEncode(hmac(secret, AT.SigningInput(header, claims))))
  {
    hide Base64UrlEncode;
    AT.NoDot(header);
    AT.NoDot(claims);
    AT.NoDot(hmac(secret, AT.SigningInput(header, claims)));
  }

  predicate NoSpaceIn(t: Text) {
    forall i :: 0 <= i < |t| ==> t[i] != ' ' as nat
  }

  lemma DottedHasNoSpace(a: Text, b: Text, c: Text)
    requires NoSpaceIn(a) && NoSpaceIn(b) && NoSpaceIn(c)
    ensures NoSpaceIn(a + [DOT] + b + [DOT] + c)
  {
  }

  /** A token never looks as if it carried the scheme already. */
  lemma NoScheme(header: Text, claims: Text, secret: Text, hmac: AT.Mac)
    ensures !StartsWith(AT.Jws(header, claims, secret, hmac), Ascii("Bearer "))
  {
    var input := AT.SigningInput(header, claims);
    AT.NoSpace(header);
    AT.NoSpace(claims);
    AT.NoSpace(hmac(secret, input));
    hide Base64UrlEncode;
    var jws := AT.Jws(header, claims, secret, hmac);
    DottedHasNoSpace(Base64UrlEncode(header), Base64UrlEncode(claims), Base64UrlEncode(hmac(secret, input)));
    SchemeHasSpace(jws);
  }

  lemma SchemeHasSpace(t: Text)
    requires NoSpaceIn(t)
    ensures !StartsWith(t, Ascii("Bearer "))
  {
    assert Ascii("Bearer ")[6] == ' ' as nat;
    assert |t| >= 7 ==> t[..7][6] == t[6];
  }

  lemma SchemeIsStripped(bearer: bool, jwt: Text)
    requires !StartsWith(jwt, Ascii("Bearer "))
    ensures StripBearer(Authorization(bearer, jwt)) == jwt
  {
    if bearer {
      assert (Ascii("Bearer ") + jwt)[..7] == Ascii("Bearer ");
      assert (Ascii("Bearer ") + jwt)[7..] == jwt;
    }
  }

  /** A token assembled from encoded segments under a header that says HS256 and signed with the secret
      of its issuer is authentic. */
  lemma AssembledIsAuthentic(lib: Library, provider: KeyProvider, header: Text, claims: Text, issuer: Text,
                             secret: AT.Bytes)
    requires IsBytes(header) && IsBytes(claims)
    requires StringField(lib.parseStruct(header), "alg") == Success(Ascii("HS256"))
    requires StringField(lib.parseStruct(claims), "iss") == Success(issuer) && issuer != []
    requires provider(issuer) == Success(secret) && secret != []
    ensures var input := AT.SigningInput(header, claims);
            && Authentic(lib, provider, AT.Jws(header, claims, secret, lib.hmac), Base64UrlEncode(header),
                         Base64UrlEncode(claims), Base64UrlEncode(lib.hmac(secret, input)))
            && Decode(Base64UrlEncode(claims)) == Some(claims)
  {
    hide Base64UrlEncode, Decode, AT.HasParts;
    JwsParts(header, claims, secret, lib.hmac);
    RoundTrip(header);
    RoundTrip(claims);
    RoundTrip(lib.hmac(secret, AT.SigningInput(header, claims)));
  }

  // Any token in base64url

  /** Three byte strings as a token. */
  function Assembled(header: Text, claims: Text, signature: Text): Text {
    Base64UrlEncode(header) + Ascii(".") + Base64UrlEncode(claims) + Ascii(".") + Base64UrlEncode(signature)
  }

  lemma AssembledParts(header: Text, claims: Text, signature: Text)
    ensures AT.HasParts(Assembled(header, claims, signature), Base64UrlEncode(header), Base64UrlEncode(claims),
                        Base64UrlEncode(signature))
    ensures !StartsWith(Assembled(header, claims, signature), Ascii("Bearer "))
  {
    assert Ascii(".") == [DOT];
    hide Base64UrlEncode, StartsWith, Ascii;
    AT.NoDot(header);
    AT.NoDot(claims);
    AT.NoDot(signature);
    AT.NoSpace(header);
    AT.NoSpace(claims);
    AT.NoSpace(signature);
    DottedHasNoSpace(Base64UrlEncode(header), Base64UrlEncode(claims), Base64UrlEncode(signature));
    SchemeHasSpace(Assembled(header, claims, signature));
  }

  /** A member of a parsed object is that string. */
  ghost predicate SaysText(fields: Option<Fields>, name: string, s: Text) {
    fields.Some? && Ascii(name) in fields.value && fields.value[Ascii(name)] == Str(s)
  }

  lemma FieldSays(fields: Option<Fields>, name: string, s: Text)
    requires s != []
    ensures StringField(fields, name) == Success(s) <==> SaysText(fields, name, s)
  {
    hide Ascii;
  }

  /** Whether the time claims the scan finds admit the moment: a minute of leeway at either end. */
  predicate TimesAdmit(exp: Scan, nbf: Scan, now: int) {
    && (exp == Absent || (exp.Number? && now <= exp.n + 60 <= 0x7FFF_FFFF_FFFF_FFFF))
    && (nbf == Absent || (nbf.Number? && nbf.n <= now + 60))
  }

  lemma TimelyIs(claims: Text, now: int)
    ensures Timely(claims, now) <==> TimesAdmit(ScanField(claims, "exp"), ScanField(claims, "nbf"), now)
  {
    hide ScanField;
  }

  /** The issuer named by the claims has a secret, and the signature is the MAC under it. */
  ghost predicate SignedByIssuer(lib: Library, provider: KeyProvider, header: Text, claims: Text, signature: Text) {
    exists issuer ::
      && SaysText(lib.parseStruct(claims), "iss", issuer) && issuer != []
      && provider(issuer).Success? && provider(issuer).value != []
      && signature == lib.hmac(provider(issuer).value,
                               Base64UrlEncode(header) + Ascii(".") + Base64UrlEncode(claims))
  }

  lemma SignedIs(lib: Library, provider: KeyProvider, header: Text, claims: Text, signature: Text)
    requires IsBytes(claims) && IsBytes(signature)
    ensures IsSigned(lib, provider, Base64UrlEncode(header), Base64UrlEncode(claims), Base64UrlEncode(signature))
            <==> SignedByIssuer(lib, provider, header, claims, signature)
  {
    assert Ascii(".") == [DOT];
    hide Base64UrlEncode, Decode, Ascii, SaysText, StringField;
    RoundTrip(claims);
    RoundTrip(signature);
    var fields := lib.parseStruct(claims);
    var issuer := StringField(fields, "iss");
    if issuer.Success? && issuer.value != [] {
      FieldSays(fields, "iss", issuer.value);
    }
    forall name | SaysText(fields, "iss", name) && name != [] ensures issuer == Success(name) {
      FieldSays(fields, "iss", name);
    }
  }

  lemma Hs256Is(lib: Library, header: Text)
    requires IsBytes(header)
    ensures IsHs256(lib, Base64UrlEncode(header)) <==> SaysText(lib.parseStruct(header), "alg", Ascii("HS256"))
  {
    hide Base64UrlEncode, Decode, SaysText, StringField;
    RoundTrip(header);
    FieldSays(lib.parseStruct(header), "alg", Ascii("HS256"));
  }

  lemma ChecksumIs(lib: Library, claims: Text, body: Text)
    ensures ChecksumMatches(lib, claims, body)
            <==> SaysText(lib.parseStruct(claims), "sha256", Base64Encode(lib.sha256(body)))
  {
    hide Base64Encode, SaysText, StringField;
    EncodingNotEmpty(lib.sha256(body));
    FieldSays(lib.parseStruct(claims), "sha256", Base64Encode(lib.sha256(body)));
  }

  lemma OneReading(lib: Library, provider: KeyProvider, jwt: Text, h: Text, p: Text, s: Text, body: Text,
                   authorization: Text, now: int)
    requires AT.HasParts(jwt, h, p, s) && StripBearer(authorization) == jwt
    ensures Genuine(lib, provider, body, authorization, now)
            <==> IsHs256(lib, h) && IsSigned(lib, provider, h, p, s) && Timely(Decode(p).value, now)
                 && ChecksumMatches(lib, Decode(p).value, body) && lib.parseEvent(body).Some?
  {
    SignedDecodes(lib, provider, h, p, s);
    hide AT.HasParts, IsHs256, IsSigned, Timely, ChecksumMatches, Decode;
    forall h', p', s' | Authentic(lib, provider, jwt, h', p', s') ensures h' == h && p' == p && s' == s {
      AT.PartsUnique(jwt, h, p, s, h', p', s');
    }
    if IsHs256(lib, h) && IsSigned(lib, provider, h, p, s) {
      assert Authentic(lib, provider, jwt, h, p, s);
    }
  }

  lemma SignedDecodes(lib: Library, provider: KeyProvider, h: Text, p: Text, s: Text)
    ensures IsSigned(lib, provider, h, p, s) ==> Decode(p).Some?
  {
    hide Decode, StringField;
  }

  /** Soundness and completeness over any three byte strings, sent as a token with or without the scheme:
      the verifier accepts exactly when the header says HS256, the claims name an issuer whose secret
      makes the third part the MAC of the first two, the times admit the moment, the checksum is the
      body's, and the body parses. */
  lemma AssembledToken(lib: Library, provider: KeyProvider, header: AT.Bytes, claims: AT.Bytes, signature: AT.Bytes,
                       body: Text, bearer: bool, now: int)
    ensures Genuine(lib, provider, body, Authorization(bearer, Assembled(header, claims, signature)), now)
            <==>
            && SaysText(lib.parseStruct(header), "alg", Ascii("HS256"))
            && SignedByIssuer(lib, provider, header, claims, signature)
            && TimesAdmit(ScanField(claims, "exp"), ScanField(claims, "nbf"), now)
            && SaysText(lib.parseStruct(claims), "sha256", Base64Encode(lib.sha256(body)))
            && lib.parseEvent(body).Some?
  {
    hide *;
    var jwt := Assembled(header, claims, signature);
    AssembledParts(header, claims, signature);
    SchemeIsStripped(bearer, jwt);
    OneReading(lib, provider, jwt, Base64UrlEncode(header), Base64UrlEncode(claims), Base64UrlEncode(signature), body,
               Authorization(bearer, jwt), now);
    RoundTrip(claims);
    Hs256Is(lib, header);
    SignedIs(lib, provider, header, claims, signature);
    TimelyIs(claims, now);
    ChecksumIs(lib, claims, body);
  }

  /** A token whose third part is anything but the MAC is refused, whatever else it says. */
  lemma ForgedToken(lib: Library, provider: KeyProvider, header: AT.Bytes, claims: AT.Bytes, signature: AT.Bytes,
                    issuer: Text, body: Text, bearer: bool, now: int)
    requires SaysText(lib.parseStruct(claims), "iss", issuer) && provider(issuer).Success?
    requires signature != lib.hmac(provider(issuer).value,
                                   Base64UrlEncode(header) + Ascii(".") + Base64UrlEncode(claims))
    ensures !Genuine(lib, provider, body, Authorization(bearer, Assembled(header, claims, signature)), now)
  {
    hide Base64UrlEncode, Genuine, Authorization, Assembled, TimesAdmit, ScanField, Base64Encode;
    AssembledToken(lib, provider, header, claims, signature, body, bearer, now);
  }

  // Tokens signed as they should be

  /** With HS256, a known issuer and the right signature, the rest decides. */
  lemma SignedToken(lib: Library, provider: KeyProvider, header: Text, claims: Text, issuer: Text,
                    secret: AT.Bytes, body: Text, bearer: bool, now: int)
    requires IsBytes(header) && IsBytes(claims)
    requires StringField(lib.parseStruct(header), "alg") == Success(Ascii("HS256"))
    requires StringField(lib.parseStruct(claims), "iss") == Success(issuer) && issuer != []
    requires provider(issuer) == Success(secret) && secret != []
    ensures Genuine(lib, provider, body, Authorization(bearer, AT.Jws(header, claims, secret, lib.hmac)), now)
            <==> Timely(claims, now) && ChecksumMatches(lib, claims, body) && lib.parseEvent(body).Some?
  {
    AssembledIsAuthentic(lib, provider, header, claims, issuer, secret);
    hide Base64UrlEncode, Decode, Timely, ChecksumMatches, AT.HasParts, AT.Jws, IsHs256, IsSigned, Genuine;
    var jws := AT.Jws(header, claims, secret, lib.hmac);
    var s := Base64UrlEncode(lib.hmac(secret, AT.SigningInput(header, claims)));
    NoScheme(header, claims, secret, lib.hmac);
    SchemeIsStripped(bearer, jws);
    OneReading(lib, provider, jws, Base64UrlEncode(header), Base64UrlEncode(claims), s, body,
               Authorization(bearer, jws), now);
  }

  // Reading claims with the JSON reader

  /** Members by name; the first of several equal names wins. */
  function MapOf(members: seq<Member>): map<Text, Json> {
    if members == [] then map[] else MapOf(members[1..])[members[0].name := members[0].value]
  }

  ghost function ReadFields(t: Text): Option<Fields> {
    match Read(t)
    case Some(Obj(members)) =>
      if forall k :: k in MapOf(members) && MapOf(members)[k].Str? ==> IsBytes(MapOf(members)[k].s)
      then Some(MapOf(members)) else None
    case _ => None
  }

  lemma {:induction false} MapLookup(members: seq<Member>, name: string)
    ensures Lookup(members, name)
            == if Ascii(name) in MapOf(members) then Some(MapOf(members)[Ascii(name)]) else None
  {
    if members != [] {
      MapLookup(members[1..], name);
    }
  }

  lemma {:induction false} MapStrings(members: seq<Member>)
    requires ByteMembers(members)
    ensures forall k :: k in MapOf(members) && MapOf(members)[k].Str? ==> IsBytes(MapOf(members)[k].s)
  {
    if members != [] {
      MapStrings(members[1..]);
    }
  }

  /** Reading printed members finds their fields. */
  lemma FieldsOfPrinted(members: seq<Member>, name: string)
    requires ByteMembers(members)
    ensures var fields := ReadFields(Print(Native, Obj(members)));
            fields.Some? && Lookup(members, name)
                            == if Ascii(name) in fields.value then Some(fields.value[Ascii(name)]) else None
  {
    hide Print, Read, MapOf;
    ReadPrint(Native, Obj(members));
    MapStrings(members);
    MapLookup(members, name);
  }

  // The tokens a server sends with its webhooks

  function WebhookSlots(key: Text, nbf: int, exp: int, checksum: Text): seq<Slot> {
    [Slot("iss", Some(Str(key))), Slot("nbf", Some(Int(nbf))), Slot("exp", Some(Int(exp))),
     Slot("sha256", Some(Str(checksum)))]
  }

  function WebhookClaims(key: Text, nbf: int, exp: int, checksum: Text): Text {
    Print(Native, Obj(Present(WebhookSlots(key, nbf, exp, checksum))))
  }

  lemma WebhookNames()
    ensures AT.ByteName("iss") && AT.ByteName("nbf") && AT.ByteName("exp") && AT.ByteName("sha256")
  {
  }

  lemma WebhookBytes(key: Text, nbf: int, exp: int, checksum: Text)
    requires IsBytes(key) && IsBytes(checksum)
    ensures ByteMembers(Present(WebhookSlots(key, nbf, exp, checksum)))
    ensures IsBytes(WebhookClaims(key, nbf, exp, checksum))
  {
    WebhookNames();
    hide AT.ByteName, Print, Present;
    AT.PresentBytes(WebhookSlots(key, nbf, exp, checksum));
    PrintBytes(Obj(Present(WebhookSlots(key, nbf, exp, checksum))));
  }

  lemma WebhookFields(lib: Library, key: Text, nbf: int, exp: int, checksum: Text)
    requires IsBytes(key) && IsBytes(checksum)
    requires var t := WebhookClaims(key, nbf, exp, checksum); lib.parseStruct(t) == ReadFields(t)
    ensures var fields := lib.parseStruct(WebhookClaims(key, nbf, exp, checksum));
            StringField(fields, "iss") == Success(key) && StringField(fields, "sha256") == Success(checksum)
  {
    hide ReadFields, Present, Print, Lookup;
    var slots := WebhookSlots(key, nbf, exp, checksum);
    WebhookBytes(key, nbf, exp, checksum);
    LookupSlot(slots, 0, "iss", Some(Str(key)));
    LookupSlot(slots, 3, "sha256", Some(Str(checksum)));
    FieldsOfPrinted(Present(slots), "iss");
    FieldsOfPrinted(Present(slots), "sha256");
  }

  lemma WebhookStart(key: Text, nbf: int, exp: int, checksum: Text)
    ensures WebhookClaims(key, nbf, exp, checksum)
            == StartOfClaims(Escape(Native, key), Decimal(nbf), Decimal(exp),
                             PrintMembers(Native, Present(WebhookSlots(key, nbf, exp, checksum)[3..])) + Ascii("}"))
  {
    hide Print, PrintMembers, Present, StartOfClaims;
    var slots := WebhookSlots(key, nbf, exp, checksum);
    FirstSlots(slots, Str(key), Int(nbf), Int(exp));
    PrintedStart(key, nbf, exp, Present(slots[3..]));
  }

  /** The expiry the verifier goes by: the claim's own, except under a key that looks like its marker. */
  function EffectiveExpiry(key: Text, nbf: int, exp: int): int {
    if LooksLikeExp(key) then nbf else exp
  }

  lemma WebhookTimes(key: Text, nbf: int, exp: int, checksum: Text, now: int)
    requires -INT64_MAX <= nbf <= INT64_MAX && -INT64_MAX <= exp <= INT64_MAX
    ensures Timely(WebhookClaims(key, nbf, exp, checksum), now)
            <==> nbf <= now + LEEWAY && EffectiveExpiry(key, nbf, exp) <= INT64_MAX - LEEWAY
                 && now <= EffectiveExpiry(key, nbf, exp) + LEEWAY
  {
    hide StartOfClaims, ScanField, Escape, LooksLikeExp, WebhookClaims, PrintMembers, Present;
    var more := Present(WebhookSlots(key, nbf, exp, checksum)[3..]);
    WebhookStart(key, nbf, exp, checksum);
    AfterTimes(more);
    ScanNbf(key, nbf, Decimal(exp), PrintMembers(Native, more) + Ascii("}"));
    ScanExp(key, nbf, exp, PrintMembers(Native, more) + Ascii("}"));
  }

  /** A token with the claims in the order of ToJwt, from printing to checking, under every API key: it is
      accepted exactly within a minute of its validity, its end being read from "nbf" under a key that
      looks like the "exp" marker. */
  lemma IssuedToken(lib: Library, provider: KeyProvider, header: Text, key: AT.Bytes, nbf: int, exp: int,
                    secret: AT.Bytes, body: Text, bearer: bool, now: int)
    requires IsBytes(header) && StringField(lib.parseStruct(header), "alg") == Success(Ascii("HS256"))
    requires key != [] && provider(key) == Success(secret) && secret != [] && lib.parseEvent(body).Some?
    requires -INT64_MAX <= nbf <= INT64_MAX && -INT64_MAX <= exp <= INT64_MAX
    requires var t := WebhookClaims(key, nbf, exp, Base64Encode(lib.sha256(body))); lib.parseStruct(t) == ReadFields(t)
    ensures var claims := WebhookClaims(key, nbf, exp, Base64Encode(lib.sha256(body)));
            Genuine(lib, provider, body, Authorization(bearer, AT.Jws(header, claims, secret, lib.hmac)), now)
            <==> nbf <= now + LEEWAY && EffectiveExpiry(key, nbf, exp) <= INT64_MAX - LEEWAY
                 && now <= EffectiveExpiry(key, nbf, exp) + LEEWAY
  {
    var checksum := Base64Encode(lib.sha256(body));
    hide Base64Encode, WebhookClaims, ReadFields, Genuine, Timely, EffectiveExpiry, LooksLikeExp;
    EncodingNotEmpty(lib.sha256(body));
    WebhookBytes(key, nbf, exp, checksum);
    WebhookFields(lib, key, nbf, exp, checksum);
    WebhookTimes(key, nbf, exp, checksum, now);
    SignedToken(lib, provider, header, WebhookClaims(key, nbf, exp, checksum), key, secret, body, bearer, now);
  }

  /** The leeway does overflow: a properly signed token whose expiry lies in the last minute of 64-bit
      time, under any ordinary key, takes the verifier there. */
  lemma OverflowIsReached(lib: Library, provider: KeyProvider, header: Text, key: AT.Bytes, nbf: int, exp: int,
                          secret: AT.Bytes, checksum: AT.Bytes, bearer: bool)
    requires IsBytes(header) && StringField(lib.parseStruct(header), "alg") == Success(Ascii("HS256"))
    requires key != [] && !LooksLikeExp(key) && provider(key) == Success(secret) && secret != []
    requires -INT64_MAX <= nbf <= INT64_MAX && INT64_MAX - LEEWAY < exp <= INT64_MAX
    requires var t := WebhookClaims(key, nbf, exp, checksum); lib.parseStruct(t) == ReadFields(t)
    ensures var claims := WebhookClaims(key, nbf, exp, checksum);
            var token := Authorization(bearer, AT.Jws(header, claims, secret, lib.hmac));
            exists h, p, s :: Authentic(lib, provider, StripBearer(token), h, p, s) && ExpOverflows(Decode(p).value)
  {
    var claims := WebhookClaims(key, nbf, exp, checksum);
    WebhookStart(key, nbf, exp, checksum);
    hide ReadFields, WebhookClaims, Decode, LooksLikeExp, Escape, PrintMembers, Present, StartOfClaims, ScanField;
    WebhookBytes(key, nbf, exp, checksum);
    WebhookFields(lib, key, nbf, exp, checksum);
    var more := Present(WebhookSlots(key, nbf, exp, checksum)[3..]);
    AfterTimes(more);
    ScanExp(key, nbf, exp, PrintMembers(Native, more) + Ascii("}"));
    assert ExpOverflows(claims);
    AssembledIsAuthentic(lib, provider, header, claims, key, secret);
    NoScheme(header, claims, secret, lib.hmac);
    SchemeIsStripped(bearer, AT.Jws(header, claims, secret, lib.hmac));
    hide Authentic, ExpOverflows, Base64UrlEncode;
  }

  // Claims in any order

  /** What an object says about an integer claim: nothing, or its number, when no string before it looks
      like the claim's name. */
  ghost predicate Says(members: seq<Member>, name: string, v: Option<int>) {
    match v
    case None => ClearMembers(members, Ascii(name))
    case Some(k) => exists i: nat :: SaysAt(members, name, k, i)
  }

  predicate SaysAt(members: seq<Member>, name: string, k: int, i: nat) {
    i < |members| && members[i] == Member(Ascii(name), Int(k)) && ClearMembers(members[..i], Ascii(name))
  }

  lemma ScanSays(members: seq<Member>, name: string, v: Option<int>)
    requires Says(members, name, v) && name != "" && IsName(Ascii(name))
    ensures ScanField(Print(Native, Obj(members)), name)
            == match v
               case None => Absent
               case Some(k) => if -INT64_MAX <= k <= INT64_MAX then Number(k) else TooLarge
  {
    hide ScanField, Print, ClearMembers, Ascii, IsName;
    match v
    case None => NoClaim(members, name);
    case Some(k) =>
      var i: nat :| SaysAt(members, name, k, i);
      assert members == members[..i] + [Member(Ascii(name), Int(k))] + members[i + 1..];
      FirstClaim(members[..i], name, k, members[i + 1..]);
  }

  lemma TimeNames()
    ensures IsName(Ascii("nbf")) && IsName(Ascii("exp"))
  {
  }

  predicate InTime(nbf: Option<int>, exp: Option<int>, now: int) {
    && (nbf.Some? ==> -INT64_MAX <= nbf.value <= INT64_MAX && nbf.value <= now + LEEWAY)
    && (exp.Some? ==> -INT64_MAX <= exp.value <= INT64_MAX - LEEWAY && now <= exp.value + LEEWAY)
  }

  lemma TimelySays(members: seq<Member>, nbf: Option<int>, exp: Option<int>, now: int)
    requires Says(members, "nbf", nbf) && Says(members, "exp", exp)
    ensures Timely(Print(Native, Obj(members)), now) <==> InTime(nbf, exp, now)
  {
    hide ScanField, Print, Says, IsName, Ascii;
    TimeNames();
    ScanSays(members, "nbf", nbf);
    ScanSays(members, "exp", exp);
  }

  lemma FieldFound(members: seq<Member>, name: string, s: Text)
    requires ByteMembers(members) && Lookup(members, name) == Some(Str(s))
    ensures StringField(ReadFields(Print(Native, Obj(members))), name) == Success(s)
  {
    hide ReadFields, Print, Lookup;
    FieldsOfPrinted(members, name);
  }

  /** A server's webhook token with its members in any order, with any other members of any depth and any
      header that says HS256: it is accepted exactly within a minute of its validity and with the body's
      checksum. */
  lemma ServerToken(lib: Library, provider: KeyProvider, header: Text, members: seq<Member>, key: Text,
                    nbf: Option<int>, exp: Option<int>, checksum: Text, secret: AT.Bytes, body: Text, bearer: bool,
                    now: int)
    requires IsBytes(header) && StringField(lib.parseStruct(header), "alg") == Success(Ascii("HS256"))
    requires ByteMembers(members)
    requires Lookup(members, "iss") == Some(Str(key)) && Lookup(members, "sha256") == Some(Str(checksum))
    requires Says(members, "nbf", nbf) && Says(members, "exp", exp)
    requires key != [] && provider(key) == Success(secret) && secret != [] && lib.parseEvent(body).Some?
    requires var t := Print(Native, Obj(members)); lib.parseStruct(t) == ReadFields(t)
    ensures var claims := Print(Native, Obj(members));
            Genuine(lib, provider, body, Authorization(bearer, AT.Jws(header, claims, secret, lib.hmac)), now)
            <==> InTime(nbf, exp, now) && checksum == Base64Encode(lib.sha256(body))
  {
    hide Print, ReadFields, Lookup, Says, Timely, InTime, Base64Encode, Genuine, ByteMembers, Ascii;
    PrintBytes(Obj(members));
    FieldFound(members, "iss", key);
    FieldFound(members, "sha256", checksum);
    TimelySays(members, nbf, exp, now);
    SignedToken(lib, provider, header, Print(Native, Obj(members)), key, secret, body, bearer, now);
  }

  /** The reader does read the header the SDK writes. */
  lemma HeaderIsHs256()
    ensures StringField(ReadFields(Ascii(AT.HEADER)), "alg") == Success(Ascii("HS256"))
  {
    var slots := [Slot("alg", Some(Str(Ascii("HS256")))), Slot("typ", Some(Str(Ascii("JWT"))))];
    HeaderPrinted(slots);
    HeaderSlotBytes(slots);
    hide Print, Present, Lookup, ReadFields, ByteMembers, Ascii;
    LookupSlot(slots, 0, "alg", Some(Str(Ascii("HS256"))));
    FieldsOfPrinted(Present(slots), "alg");
  }

  lemma HeaderSlotBytes(slots: seq<Slot>)
    requires slots == [Slot("alg", Some(Str(Ascii("HS256")))), Slot("typ", Some(Str(Ascii("JWT"))))]
    ensures ByteMembers(Present(slots))
  {
    assert AT.ByteName("alg") && AT.ByteName("typ") && AT.ByteName("HS256") && AT.ByteName("JWT");
    hide Present, Ascii;
    AT.PresentBytes(slots);
  }

  /** One more plain string member, as text. */
  lemma HeaderMember(before: Text, first: bool, slots: seq<Slot>, name: string, value: string)
    requires Plain(name) && Plain(value) && Printed(Ascii("{"), before, first, slots)
    ensures Printed(Ascii("{"),
                    before + (if first then [] else Ascii(",")) + Ascii("\"") + Ascii(name) + Ascii("\":\"")
                    + Ascii(value) + Ascii("\""),
                    false, slots + [Slot(name, Some(Str(Ascii(value))))])
  {
    FilledSlot(Ascii("{"), before, first, slots, name, Str(Ascii(value)));
    PlainEscape(value);
    StringMember(before + if first then [] else Ascii(","), name, Ascii(value));
    hide Printed, PrintMember, Escape, Plain;
  }

  lemma HeaderStart()
    ensures Ascii("{") + [] + Ascii("\"") + Ascii("alg") + Ascii("\":\"") + Ascii("HS256") + Ascii("\"")
            == Ascii("{\"alg\":\"HS256\"")
  {
  }

  lemma HeaderEnd()
    ensures Ascii(",") + Ascii("\"") + Ascii("typ") + Ascii("\":\"") + Ascii("JWT") + Ascii("\"") + Ascii("}")
            == Ascii(",\"typ\":\"JWT\"}")
  {
  }

  lemma HeaderHalves()
    ensures Ascii("{\"alg\":\"HS256\"") + Ascii(",\"typ\":\"JWT\"}") == Ascii(AT.HEADER)
  {
  }

  lemma SevenPieces(open: Text, a: Text, b: Text, c: Text, d: Text, e: Text, f: Text, g: Text)
    ensures open + a + b + c + d + e + f + g == open + (a + b + c + d + e + f + g)
  {
  }

  lemma HeaderText(open: Text)
    requires open == Ascii("{") + [] + Ascii("\"") + Ascii("alg") + Ascii("\":\"") + Ascii("HS256") + Ascii("\"")
    ensures open + Ascii(",") + Ascii("\"") + Ascii("typ") + Ascii("\":\"") + Ascii("JWT") + Ascii("\"") + Ascii("}")
            == Ascii(AT.HEADER)
  {
    hide *;
    HeaderStart();
    HeaderEnd();
    HeaderHalves();
    SevenPieces(open, Ascii(","), Ascii("\""), Ascii("typ"), Ascii("\":\""), Ascii("JWT"), Ascii("\""), Ascii("}"));
  }

  lemma HeaderPrinted(slots: seq<Slot>)
    requires slots == [Slot("alg", Some(Str(Ascii("HS256")))), Slot("typ", Some(Str(Ascii("JWT"))))]
    ensures Print(Native, Obj(Present(slots))) == Ascii(AT.HEADER)
  {
    hide Printed, Print, Present;
    NothingPrinted(Ascii("{"));
    HeaderMember(Ascii("{"), true, [], "alg", "HS256");
    var open := Ascii("{") + [] + Ascii("\"") + Ascii("alg") + Ascii("\":\"") + Ascii("HS256") + Ascii("\"");
    assert [] + [slots[0]] == [slots[0]];
    HeaderMember(open, false, [slots[0]], "typ", "JWT");
    HeaderText(open);
    assert [slots[0]] + [slots[1]] == slots;
    hide Ascii;
    FinishObject(open + Ascii(",") + Ascii("\"") + Ascii("typ") + Ascii("\":\"") + Ascii("JWT") + Ascii("\""),
                 false, slots);
  }
}
