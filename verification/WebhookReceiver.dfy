/** The webhook verifier: which requests it accepts, and what each refusal means. */
module WebhookReceiver {
  import opened Text
  import opened Wrappers
  import opened Clock
  import opened Json
  import opened Base64
  import opened Base64RoundTrip
  import opened IntegerScan
  import opened ConstantTime
  import AT = AccessToken

  const DOT: nat := AT.DOT
  const LEEWAY: int := 60

  /** The members of a parsed object; strings are byte strings. */
  type Fields = m: map<Text, Json> | forall k :: k in m && m[k].Str? ==> IsBytes(m[k].s) witness map[]

  /** What the verifier uses of a parsed webhook body. */
  datatype Parsed = Parsed(event: Text, id: Text, createdAt: int, room: Option<Room>,
                           participant: Option<Participant>, track: Option<Track>,
                           egress: Option<Egress>, ingress: Option<Ingress>)

  datatype Room = Room(sid: Text, name: Text, metadata: Text)
  datatype Participant = Participant(sid: Text, identity: Text, name: Text, metadata: Text)
  datatype Track = Track(sid: Text, name: Text)
  datatype Egress = Egress(egressId: Text, roomId: Text, roomName: Text)
  datatype Ingress = Ingress(ingressId: Text, name: Text, roomName: Text)

  datatype WebhookEvent = WebhookEvent(parsed: Parsed, rawBody: Text)

  /** The libraries the verifier calls: digests, the JSON object parser and the protobuf parser. */
  datatype Library = Library(
    hmac: AT.Mac,
    sha256: Text -> AT.Digest,
    parseStruct: Text -> Option<Fields>,
    parseEvent: Text -> Option<Parsed>)

  /** The application's secret lookup; an empty secret means an unknown key, and it may throw. */
  type KeyProvider = Text -> Result<AT.Bytes, ErrorCode>

  datatype Reason =
    | HeaderMissing | NotAJwt | BadBase64 | BadJson | BadStringClaim(name: string) | WrongAlgorithm | IssuerMissing
    | ProviderFailed(code: ErrorCode) | SecretMissing | BadSignature | BadTimeClaim | Expired | NotYetValid
    | BadChecksum | BadBody

  /** The error category the caller sees. */
  function CodeOf(reason: Reason): ErrorCode {
    match reason
    case ProviderFailed(code) => code
    case BadBody => Protocol
    case _ => Authentication
  }

  /** `Overflow`: adding the leeway to "exp" would overflow a signed 64-bit integer, which C++ leaves
      undefined. */
  datatype Verdict = Accepted(event: WebhookEvent) | Rejected(reason: Reason) | Overflow

  // What makes a request genuine

  function StripBearer(authorization: Text): Text {
    if StartsWith(authorization, Ascii("Bearer ")) then authorization[7..] else authorization
  }

  /** A string claim; empty when absent. */
  function StringField(fields: Option<Fields>, name: string): Result<Text, Reason> {
    if fields.None? then Failure(BadJson)
    else if Ascii(name) !in fields.value then Success([])
    else
      match fields.value[Ascii(name)]
      case Str(s) => Success(s)
      case _ => Failure(BadStringClaim(name))
  }

  predicate IsHs256(lib: Library, header: Text) {
    Decode(header).Some?
    && StringField(lib.parseStruct(Decode(header).value), "alg") == Success(Ascii("HS256"))
  }

  /** The third part is the MAC of everything before the second dot, under the issuer's secret. */
  predicate IsSigned(lib: Library, provider: KeyProvider, header: Text, payload: Text, signature: Text) {
    Decode(payload).Some?
    && var issuer := StringField(lib.parseStruct(Decode(payload).value), "iss");
    issuer.Success? && issuer.value != []
    && var secret := provider(issuer.value);
    secret.Success? && secret.value != []
    && Decode(signature) == Some(lib.hmac(secret.value, header + [DOT] + payload))
  }

  predicate Authentic(lib: Library, provider: KeyProvider, jwt: Text, h: Text, p: Text, s: Text) {
    AT.HasParts(jwt, h, p, s) && IsHs256(lib, h) && IsSigned(lib, provider, h, p, s)
  }

  /** Section 4.1.4 of RFC 7519 with a minute of leeway; the bound keeps the sum in 64 bits. */
  predicate NotExpired(claims: Text, now: int) {
    match ScanField(claims, "exp")
    case Absent => true
    case Number(n) => n <= INT64_MAX - LEEWAY && now <= n + LEEWAY
    case _ => false
  }

  /** Section 4.1.5 of RFC 7519 with a minute of leeway. */
  predicate AlreadyValid(claims: Text, now: int) {
    match ScanField(claims, "nbf")
    case Absent => true
    case Number(n) => n <= now + LEEWAY
    case _ => false
  }

  predicate ChecksumMatches(lib: Library, claims: Text, body: Text) {
    StringField(lib.parseStruct(claims), "sha256") == Success(Base64Encode(lib.sha256(body)))
  }

  predicate Timely(claims: Text, now: int) {
    NotExpired(claims, now) && AlreadyValid(claims, now)
  }

  ghost predicate Genuine(lib: Library, provider: KeyProvider, body: Text, authorization: Text, now: int) {
    exists h, p, s :: Authentic(lib, provider, StripBearer(authorization), h, p, s)
                      && Timely(Decode(p).value, now) && ChecksumMatches(lib, Decode(p).value, body)
                      && lib.parseEvent(body).Some?
  }

  /** The application's key lookup throws for the issuer of this payload. */
  predicate LookupThrowsFor(lib: Library, provider: KeyProvider, payload: Text, code: ErrorCode) {
    Decode(payload).Some?
    && var issuer := StringField(lib.parseStruct(Decode(payload).value), "iss");
    issuer.Success? && issuer.value != [] && provider(issuer.value) == Failure(code)
  }

  ghost predicate LookupThrows(lib: Library, provider: KeyProvider, token: Text, code: ErrorCode) {
    exists h, p, s :: AT.HasParts(token, h, p, s) && IsHs256(lib, h) && LookupThrowsFor(lib, provider, p, code)
  }

  /** Everything about the request is right, only its body is no event. */
  ghost predicate OnlyBodyIsBad(lib: Library, provider: KeyProvider, body: Text, authorization: Text, now: int) {
    lib.parseEvent(body).None?
    && exists h, p, s :: Authentic(lib, provider, StripBearer(authorization), h, p, s)
                         && Timely(Decode(p).value, now) && ChecksumMatches(lib, Decode(p).value, body)
  }

  /** A refusal that is only given to a request whose signature has been verified. */
  predicate AfterSignature(reason: Reason) {
    reason.BadTimeClaim? || reason.Expired? || reason.NotYetValid? || reason.BadChecksum? || reason.BadBody?
    || reason == BadStringClaim("sha256")
  }

  /** What such a refusal says about the claims. */
  predicate Explains(reason: Reason, lib: Library, claims: Text, body: Text, now: int) {
    match reason
    case BadTimeClaim => ScanField(claims, "exp").NoColon? || ScanField(claims, "exp").NoDigits?
                         || ScanField(claims, "exp").TooLarge? || ScanField(claims, "nbf").NoColon?
                         || ScanField(claims, "nbf").NoDigits? || ScanField(claims, "nbf").TooLarge?
    case Expired => ScanField(claims, "exp").Number? && now > ScanField(claims, "exp").n + LEEWAY
    case NotYetValid => ScanField(claims, "nbf").Number? && now + LEEWAY < ScanField(claims, "nbf").n
    case BadChecksum => Timely(claims, now) && !ChecksumMatches(lib, claims, body)
    case BadStringClaim(name) => Timely(claims, now) && StringField(lib.parseStruct(claims), name).Failure?
    case BadBody => Timely(claims, now) && ChecksumMatches(lib, claims, body) && lib.parseEvent(body).None?
    case _ => true
  }

  // The verifier

  /** The three parts are found by searching for dots. */
  lemma DotsOfParts(t: Text, h: Text, p: Text, s: Text)
    requires AT.HasParts(t, h, p, s)
    ensures Find(t, [DOT], 0) == |h| && Find(t, [DOT], |h| + 1) == |h| + 1 + |p|
    ensures Find(t, [DOT], |h| + 1 + |p| + 1) == -1
  {
    hide Find;
    var first, second := |h|, |h| + 1 + |p|;
    assert t[first] == DOT && t[second] == DOT;
    assert forall i :: 0 <= i < |t| && i != first && i != second ==> t[i] != DOT by {
      forall i | 0 <= i < |t| && i != first && i != second ensures t[i] != DOT {
        PartUnit(t, h, p, s, i);
      }
    }
    FindDot(t, 0, first);
    FindDot(t, first + 1, second);
    NoDotFrom(t, second + 1);
  }

  lemma PartUnit(t: Text, h: Text, p: Text, s: Text, i: nat)
    requires AT.HasParts(t, h, p, s) && i < |t| && i != |h| && i != |h| + 1 + |p|
    ensures t[i] != DOT
  {
    if i < |h| {
      assert t[i] == h[i];
    } else if i < |h| + 1 + |p| {
      assert t[i] == p[i - |h| - 1];
    } else {
      assert t[i] == s[i - |h| - |p| - 2];
    }
  }

  lemma DotOccurs(t: Text, i: nat)
    ensures Occurs(t, [DOT], i) <==> i < |t| && t[i] == DOT
  {
    if i < |t| {
      assert t[i..i + 1] == [t[i]];
    }
  }

  lemma FindDot(t: Text, from: nat, at: nat)
    requires from <= at < |t| && t[at] == DOT && forall i :: from <= i < at ==> t[i] != DOT
    ensures Find(t, [DOT], from) == at
  {
    DotOccurs(t, at);
    forall i | from <= i < at ensures !Occurs(t, [DOT], i) { DotOccurs(t, i); }
    FindIs(t, [DOT], from, at);
  }

  lemma NoDotFrom(t: Text, from: nat)
    requires forall i :: from <= i < |t| ==> t[i] != DOT
    ensures Find(t, [DOT], from) == -1
  {
    var at := Find(t, [DOT], from);
    if at != -1 {
      DotOccurs(t, at);
    }
  }

  lemma PartsOfDots(t: Text, first: int, second: int)
    requires first == Find(t, [DOT], 0) && first != -1
    requires second == Find(t, [DOT], first + 1) && second != -1
    requires Find(t, [DOT], second + 1) == -1
    ensures AT.HasParts(t, t[..first], t[first + 1..second], t[second + 1..])
  {
    hide Find;
    DotOccurs(t, first);
    DotOccurs(t, second);
    assert t == t[..first] + [DOT] + t[first + 1..second] + [DOT] + t[second + 1..];
    forall i: nat | i < |t| && i != first && i != second ensures t[i] != DOT { DotOccurs(t, i); }
    assert DOT !in t[..first] && DOT !in t[first + 1..second] && DOT !in t[second + 1..];
  }

  /** Two dots exactly: the parts when there are such, and a proof that there are none otherwise. */
  method SplitToken(t: Text) returns (found: bool, h: Text, p: Text, s: Text)
    ensures found ==> AT.HasParts(t, h, p, s)
    ensures !found ==> forall h, p, s :: !AT.HasParts(t, h, p, s)
  {
    hide Find, AT.HasParts;
    var firstDot := Find(t, [DOT], 0);
    // When there is no first dot the source searches from npos + 1, which wraps to 0.
    var secondDot := Find(t, [DOT], firstDot + 1);
    h, p, s := [], [], [];
    forall h, p, s | AT.HasParts(t, h, p, s)
      ensures firstDot != -1 && secondDot != -1 && Find(t, [DOT], secondDot + 1) == -1
    {
      DotsOfParts(t, h, p, s);
    }
    if firstDot == -1 || secondDot == -1 || Find(t, [DOT], secondDot + 1) != -1 {
      return false, h, p, s;
    }
    PartsOfDots(t, firstDot, secondDot);
    return true, t[..firstDot], t[firstDot + 1..secondDot], t[secondDot + 1..];
  }

  predicate ExpOverflows(claims: Text) {
    ScanField(claims, "exp").Number? && ScanField(claims, "exp").n > INT64_MAX - LEEWAY
  }

  datatype TimeCheck = InTime | OutOfTime(reason: Reason) | TimeOverflow

  /** The two time claims, "exp" first. */
  method CheckTimes(claims: Text, now: int) returns (r: TimeCheck)
    ensures r.InTime? <==> Timely(claims, now)
    ensures r.TimeOverflow? <==> ExpOverflows(claims)
    ensures r.OutOfTime? ==> AfterSignature(r.reason)
                             && forall lib, body :: Explains(r.reason, lib, claims, body, now)
  {
    hide ScanField;
    var expires := JsonIntegerField(claims, "exp");
    match expires {
      case Absent =>
      case Number(n) =>
        if n > INT64_MAX - LEEWAY {
          return TimeOverflow;
        }
        if now > n + LEEWAY {
          return OutOfTime(Expired);
        }
      case _ => return OutOfTime(BadTimeClaim);
    }
    var notBefore := JsonIntegerField(claims, "nbf");
    match notBefore {
      case Absent =>
      case Number(n) =>
        if now + LEEWAY < n {
          return OutOfTime(NotYetValid);
        }
      case _ => return OutOfTime(BadTimeClaim);
    }
    return InTime;
  }

  datatype SignatureCheck = Verified(claims: Text) | NotVerified(reason: Reason)

  /** Header, issuer, secret and signature, in the source's order. */
  method CheckSignature(lib: Library, provider: KeyProvider, h: Text, p: Text, s: Text) returns (r: SignatureCheck)
    ensures r.Verified? <==> IsHs256(lib, h) && IsSigned(lib, provider, h, p, s)
    ensures r.Verified? ==> Decode(p) == Some(r.claims)
    ensures r.Verified? ==> exists issuer :: provider(issuer).Success?
                                             && Decode(s) == Some(lib.hmac(provider(issuer).value, h + [DOT] + p))
    ensures r.NotVerified? ==> !AfterSignature(r.reason)
    ensures r.NotVerified? && r.reason.ProviderFailed?
            <==> exists code :: IsHs256(lib, h) && LookupThrowsFor(lib, provider, p, code)
    ensures r.NotVerified? && r.reason.ProviderFailed?
            ==> IsHs256(lib, h) && LookupThrowsFor(lib, provider, p, r.reason.code)
  {
    hide Decodable, Decoded;
    var header := Base64UrlDecode(h);
    if header.Failure? {
      return NotVerified(BadBase64);
    }
    var algorithm := StringField(lib.parseStruct(header.value), "alg");
    if algorithm.Failure? {
      return NotVerified(algorithm.error);
    }
    if algorithm.value != Ascii("HS256") {
      return NotVerified(WrongAlgorithm);
    }
    var claims := Base64UrlDecode(p);
    if claims.Failure? {
      return NotVerified(BadBase64);
    }
    var issuer := StringField(lib.parseStruct(claims.value), "iss");
    if issuer.Failure? {
      return NotVerified(issuer.error);
    }
    if issuer.value == [] {
      return NotVerified(IssuerMissing);
    }
    var secret := provider(issuer.value);
    if secret.Failure? {
      assert LookupThrowsFor(lib, provider, p, secret.error);
      return NotVerified(ProviderFailed(secret.error));
    }
    if secret.value == [] {
      return NotVerified(SecretMissing);
    }
    var expected := lib.hmac(secret.value, h + [DOT] + p);
    var actual := Base64UrlDecode(s);
    if actual.Failure? {
      return NotVerified(BadBase64);
    }
    assert IsBytes(actual.value) by { DecodedBytes(s); }
    var equal := ConstantTimeEqual(expected, actual.value);
    if !equal {
      return NotVerified(BadSignature);
    }
    return Verified(claims.value);
  }

  lemma DecodedBytes(s: Text)
    requires Decodable(s)
    ensures IsBytes(Decoded(s))
  {
  }

  lemma EncodingNotEmpty(data: Text)
    requires IsBytes(data) && |data| == 32
    ensures Base64Encode(data) != [] && IsBytes(Base64Encode(data))
  {
    EncodingsDiffer(data);
    StdBytes(data);
    hide Base64Encode, Base64UrlEncode;
  }

  lemma StdBytes(data: Text)
    ensures IsBytes(Base64Encode(data))
  {
    StdLetters();
    hide StdAlphabet, DataSextets;
    var t := Base64Encode(data);
    forall i | 0 <= i < |t| ensures t[i] < 256 {
      if i < |DataSextets(data)| {
        assert Base64UrlValue(t[i]) == DataSextets(data)[i];
      }
    }
  }

  method StdEncode(data: AT.Bytes) returns (t: Text)
    ensures t == Base64Encode(data)
  {
    StdLetters();
    t := Base64.Base64(data, StdAlphabet(), true);
  }

  /** The body checksum claim; the claims are known to parse at this point. */
  method CheckChecksum(lib: Library, claims: Text, body: Text) returns (r: Option<Reason>)
    requires lib.parseStruct(claims).Some?
    ensures r.None? <==> ChecksumMatches(lib, claims, body)
    ensures r.Some? ==> r.value == BadChecksum || (r.value == BadStringClaim("sha256")
                                                  && StringField(lib.parseStruct(claims), "sha256").Failure?)
  {
    hide Base64Encode;
    var claimed := StringField(lib.parseStruct(claims), "sha256");
    var digest := lib.sha256(body);
    var actual := StdEncode(digest);
    if claimed.Failure? {
      return Some(claimed.error);
    }
    EncodingNotEmpty(digest);
    if claimed.value == [] {
      return Some(BadChecksum);
    }
    var equal := ConstantTimeEqual(claimed.value, actual);
    return if equal then None else Some(BadChecksum);
  }

  /** The verifier accepts exactly the genuine requests; every refusal after the signature check is
      explained by the claims, and every other one means that no reading of the header is authentic. */
  method ReceiveAt(lib: Library, provider: KeyProvider, body: Text, authorization: Text,
                   now: int, ticksPerSecond: nat)
    returns (v: Verdict)
    requires InInt64(now) && ticksPerSecond >= 1_000_000
    ensures v.Accepted? <==> Genuine(lib, provider, body, authorization, ToSeconds(now, ticksPerSecond))
    ensures v.Accepted? ==> lib.parseEvent(body).Some? && v.event == WebhookEvent(lib.parseEvent(body).value, body)
    ensures v.Overflow? <==> exists h, p, s :: Authentic(lib, provider, StripBearer(authorization), h, p, s)
                                               && ExpOverflows(Decode(p).value)
    ensures v.Rejected? && AfterSignature(v.reason) ==>
      exists h, p, s :: Authentic(lib, provider, StripBearer(authorization), h, p, s)
                        && Explains(v.reason, lib, Decode(p).value, body, ToSeconds(now, ticksPerSecond))
    ensures v.Rejected? && !AfterSignature(v.reason) ==>
      forall h, p, s :: !Authentic(lib, provider, StripBearer(authorization), h, p, s)
    ensures v.Rejected? ==>
      && (CodeOf(v.reason) == Authentication
          || OnlyBodyIsBad(lib, provider, body, authorization, ToSeconds(now, ticksPerSecond))
          || LookupThrows(lib, provider, StripBearer(authorization), CodeOf(v.reason)))
    ensures OnlyBodyIsBad(lib, provider, body, authorization, ToSeconds(now, ticksPerSecond))
            ==> v.Rejected? && CodeOf(v.reason) == Protocol
    ensures forall code ::
      LookupThrows(lib, provider, StripBearer(authorization), code) ==> v.Rejected? && CodeOf(v.reason) == code
  {
    hide AT.HasParts, IsHs256, IsSigned, Decode, Timely, ChecksumMatches, ExpOverflows, LookupThrowsFor;
    var token := authorization;
    if StartsWith(token, Ascii("Bearer ")) {
      token := token[7..];
    }
    if token == [] {
      NoPartsInEmpty();
      return Rejected(HeaderMissing);
    }
    var found, h, p, s := SplitToken(token);
    if !found {
      return Rejected(NotAJwt);
    }
    forall h', p', s' | AT.HasParts(token, h', p', s') ensures h' == h && p' == p && s' == s {
      AT.PartsUnique(token, h, p, s, h', p', s');
    }
    var signed := CheckSignature(lib, provider, h, p, s);
    LookupThrowsOnce(lib, provider, p);
    if signed.NotVerified? {
      return Rejected(signed.reason);
    }
    assert Authentic(lib, provider, StripBearer(authorization), h, p, s);
    assert Decode(p).value == signed.claims;
    var nowSeconds := ToSeconds(now, ticksPerSecond);
    var times := CheckTimes(signed.claims, nowSeconds);
    if times.TimeOverflow? {
      OverflowNotTimely(signed.claims, nowSeconds);
      assert Authentic(lib, provider, StripBearer(authorization), h, p, s) && ExpOverflows(Decode(p).value);
      return Overflow;
    }
    if times.OutOfTime? {
      return Rejected(times.reason);
    }
    SignedParses(lib, provider, h, p, s);
    var checksum := CheckChecksum(lib, signed.claims, body);
    if checksum.Some? {
      assert Authentic(lib, provider, StripBearer(authorization), h, p, s)
             && Explains(checksum.value, lib, Decode(p).value, body, nowSeconds);
      return Rejected(checksum.value);
    }
    var parsed := lib.parseEvent(body);
    if parsed.None? {
      return Rejected(BadBody);
    }
    assert Authentic(lib, provider, StripBearer(authorization), h, p, s) && Timely(Decode(p).value, nowSeconds);
    return Accepted(WebhookEvent(parsed.value, body));
  }

  lemma LookupThrowsOnce(lib: Library, provider: KeyProvider, payload: Text)
    ensures forall c, d ::
      LookupThrowsFor(lib, provider, payload, c) && LookupThrowsFor(lib, provider, payload, d) ==> c == d
  {
    hide Decode;
  }

  lemma NoPartsInEmpty()
    ensures forall h, p, s :: !AT.HasParts([], h, p, s)
  {
    forall h, p, s ensures !AT.HasParts([], h, p, s) {
      assert |h + [DOT] + p + [DOT] + s| >= 2;
    }
  }

  lemma OverflowNotTimely(claims: Text, now: int)
    requires ExpOverflows(claims)
    ensures !Timely(claims, now)
  {
  }

  lemma SignedParses(lib: Library, provider: KeyProvider, h: Text, p: Text, s: Text)
    requires IsSigned(lib, provider, h, p, s)
    ensures Decode(p).Some? && lib.parseStruct(Decode(p).value).Some?
  {
  }
}
