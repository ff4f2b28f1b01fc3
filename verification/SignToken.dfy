/** Signing a token for a binding: integers arrive as text, and the times must fit the native clock. */
module SignToken {
  import opened Text
  import opened Wrappers
  import opened Clock
  import opened Claims
  import opened Base64
  import opened IntegerScan
  import opened AccessToken

  // Integers as text

  predicate AllSpace(t: Text) {
    forall i :: 0 <= i < |t| ==> IsCSpace(t[i])
  }

  /** The number at the start of the text, after white space, and where it ends. */
  function Scanned(text: Text): Option<(int, nat)> {
    var start := SpaceRun(text);
    var signed := start < |text| && (text[start] == '-' as nat || text[start] == '+' as nat);
    var digits := if signed then start + 1 else start;
    var run := DigitRun(text[digits..]);
    if run == 0 then None
    else
      var magnitude: int := Value(text[digits..][..run]);
      Some((if signed && text[start] == '-' as nat then -magnitude else magnitude, digits + run))
  }

  /** `std::stoll` in base 10: the number and where it ends, or an exception. */
  function Stoll(text: Text): Option<(int, nat)> {
    match Scanned(text)
    case None => None
    case Some(parsed) => if InInt64(parsed.0) then Some(parsed) else None
  }

  method Integer(text: Text) returns (r: Result<int, ErrorCode>)
    ensures r.Success? ==> Writes(text, r.value) && InInt64(r.value)
    ensures r.Failure? ==> r.error == InvalidArgument && !exists n :: InInt64(n) && Writes(text, n)
  {
    match Stoll(text) {
      case Some(parsed) =>
        var (result, end) := parsed;
        if end == |text| {
          ParsedWrites(text);
          return Success(result);
        }
      case None =>
    }
    forall n | InInt64(n) ensures !Writes(text, n) {
      if Writes(text, n) {
        WritesParsed(text, n);
      }
    }
    return Failure(InvalidArgument);
  }

  /** The text is the number n: white space, an optional sign, and digits to the very end. */
  ghost predicate WritesAs(text: Text, n: int, space: Text, sign: Text, digits: Text) {
    && text == space + sign + digits && AllSpace(space) && digits != [] && AllDigits(digits)
    && (sign == [] || sign == ['+' as nat] || sign == ['-' as nat])
    && n == if sign == ['-' as nat] then -(Value(digits) as int) else Value(digits)
  }

  ghost predicate Writes(text: Text, n: int) {
    exists space, sign, digits :: WritesAs(text, n, space, sign, digits)
  }

  lemma ParsedWrites(text: Text)
    requires Scanned(text).Some? && Scanned(text).value.1 == |text|
    ensures Writes(text, Scanned(text).value.0)
  {
    hide SpaceRun, DigitRun, Value;
    var start := SpaceRun(text);
    var signed := start < |text| && (text[start] == '-' as nat || text[start] == '+' as nat);
    var d := if signed then start + 1 else start;
    var digits := text[d..];
    var run := DigitRun(digits);
    assert digits[..run] == digits;
    var sign := if signed then [text[start]] else [];
    assert text == text[..start] + sign + digits;
    assert WritesAs(text, Scanned(text).value.0, text[..start], sign, digits);
  }

  lemma ScanParts(text: Text, space: Text, sign: Text, digits: Text)
    requires text == space + sign + digits && AllSpace(space) && digits != [] && AllDigits(digits)
    requires sign == [] || sign == ['+' as nat] || sign == ['-' as nat]
    ensures SpaceRun(text) == |space| && text[|space| + |sign|..] == digits
    ensures text[|space|] == (if sign == [] then digits[0] else sign[0])
    ensures sign == [] ==> IsDigit(text[|space|])
  {
    hide SpaceRun;
    assert forall i :: 0 <= i < |space| ==> text[i] == space[i];
    assert text[|space|] == (sign + digits)[0];
    assert IsDigit(digits[0]);
    SpaceRunUnique(text, |space|);
  }

  lemma AllAreDigits(digits: Text)
    requires AllDigits(digits)
    ensures DigitRun(digits) == |digits| && digits[..|digits|] == digits
  {
    assert digits[..|digits|] == digits;
    DigitRunUnique(digits, |digits|);
  }

  lemma WritesParsed(text: Text, n: int)
    requires Writes(text, n)
    ensures Scanned(text) == Some((n, |text|))
  {
    var space, sign, digits :| WritesAs(text, n, space, sign, digits);
    ScanParts(text, space, sign, digits);
    AllAreDigits(digits);
    hide SpaceRun, DigitRun, Value, AllSpace, AllDigits, Writes;
    assert |text| == |space| + |sign| + |digits|;
  }

  /** A text writes at most one number, so the parsed value is the written one. */
  lemma WritesUnique(text: Text, n: int, m: int)
    requires Writes(text, n) && Writes(text, m)
    ensures n == m
  {
    hide Writes, Scanned;
    WritesParsed(text, n);
    WritesParsed(text, m);
  }

  lemma SignedWrites(space: Text, sign: Text, digits: Text, n: int)
    requires AllSpace(space) && digits != [] && AllDigits(digits)
    requires sign == [] || sign == ['+' as nat] || sign == ['-' as nat]
    requires n == if sign == ['-' as nat] then -(Value(digits) as int) else Value(digits)
    ensures Writes(space + sign + digits, n)
  {
    hide Value, AllDigits, AllSpace;
    assert WritesAs(space + sign + digits, n, space, sign, digits);
  }

  lemma SpaceUnits(space: Text)
    requires forall i :: 0 <= i < |space| ==> space[i] in {0x20, 0x09, 0x0A, 0x0B, 0x0C, 0x0D}
    ensures AllSpace(space)
  {
  }

  /** The forms of an integer: digits, with a sign or none, after white space of any of the six kinds. */
  lemma IntegerForms(space: Text, digits: Text)
    requires forall i :: 0 <= i < |space| ==> space[i] in {0x20, 0x09, 0x0A, 0x0B, 0x0C, 0x0D}
    requires digits != [] && AllDigits(digits)
    ensures Writes(space + digits, Value(digits)) && Writes(space + Ascii("+") + digits, Value(digits))
    ensures Writes(space + Ascii("-") + digits, -(Value(digits) as int))
  {
    assert Ascii("+") == ['+' as nat] && Ascii("-") == ['-' as nat];
    SpaceUnits(space);
    hide *;
    assert space + [] == space;
    SignedWrites(space, [], digits, Value(digits));
    SignedWrites(space, ['+' as nat], digits, Value(digits));
    SignedWrites(space, ['-' as nat], digits, -(Value(digits) as int));
  }

  /** What the hosts print for a 64-bit integer is read back as that integer. */
  lemma DecimalWrites(n: int)
    ensures Writes(Decimal(n), n)
  {
    assert Ascii("-") == ['-' as nat];
    hide Value, AllDigits, Writes, Ascii;
    var digits := DecimalNat(if n < 0 then -n else n);
    hide DecimalNat;
    var sign: Text := if n < 0 then ['-' as nat] else [];
    SignedWrites([], sign, digits, n);
    assert [] + sign + digits == Decimal(n);
  }

  // Signing

  datatype SignOptions = SignOptions(
    apiKey: Bytes, apiSecret: Bytes, identity: Bytes, name: Bytes, metadata: Bytes, attributes: OrderedMap,
    validFor: Text, now: Text, video: Option<VideoGrant>, sip: Option<SipGrant>, agent: Option<AgentGrant>)

  predicate ByteOptions(o: SignOptions) {
    ByteEntries(o.attributes) && (o.video.Some? ==> ByteVideo(o.video.value))
  }

  /** The clock's range in whole seconds. */
  function MaxSeconds(ticksPerSecond: nat): (max: nat)
    requires ticksPerSecond > 0
    ensures max <= INT64_MAX
  {
    INT64_MAX / ticksPerSecond
  }

  /** Both times are 64-bit integers, and issue and expiry lie in the clock's range. */
  ghost predicate Signable(o: SignOptions, now: int, validFor: int, ticksPerSecond: nat)
    requires ticksPerSecond > 0
  {
    && Writes(o.now, now) && Writes(o.validFor, validFor)
    && now >= 0 && validFor >= 1 && now + validFor <= MaxSeconds(ticksPerSecond)
  }

  ghost predicate TimesFit(o: SignOptions, ticksPerSecond: nat)
    requires ticksPerSecond > 0
  {
    exists now, validFor :: Signable(o, now, validFor, ticksPerSecond)
  }

  /** jwt carries the options' claims, valid from now until now + validFor. */
  ghost predicate SignedOver(o: SignOptions, ticksPerSecond: nat, hmac: Mac, jwt: Text)
    requires ticksPerSecond > 0
  {
    exists now, validFor :: SignedAs(o, now, validFor, ticksPerSecond, hmac, jwt)
  }

  ghost predicate SignedAs(o: SignOptions, now: int, validFor: int, ticksPerSecond: nat, hmac: Mac, jwt: Text)
    requires ticksPerSecond > 0
  {
    && Signable(o, now, validFor, ticksPerSecond)
    && jwt == Jwt(ClaimsText(OptionsToken(o), now, now + validFor), o.apiSecret, hmac)
  }

  function OptionsToken(o: SignOptions): Token {
    Token(o.apiKey, o.identity, o.name, o.metadata, o.attributes, o.video, o.sip, o.agent)
  }

  /** Whole seconds survive the trip through the clock, and neither end overflows. */
  lemma SecondsBack(now: int, ticksPerSecond: nat)
    requires ticksPerSecond > 0 && 0 <= now <= MaxSeconds(ticksPerSecond)
    ensures InInt64(now * ticksPerSecond)
    ensures ToSeconds(now * ticksPerSecond, ticksPerSecond) == now
  {
    var max, rest := INT64_MAX / ticksPerSecond, INT64_MAX % ticksPerSecond;
    assert INT64_MAX == max * ticksPerSecond + rest;
    Monotone(now, max, ticksPerSecond);
    QuotientOf(now, 0, ticksPerSecond);
  }

  /** The range is not smaller than the clock's: more seconds do not fit in 64-bit ticks. */
  lemma RangeIsExact(now: nat, ticksPerSecond: nat)
    requires ticksPerSecond > 0
    ensures now <= MaxSeconds(ticksPerSecond) <==> now * ticksPerSecond <= 0x7FFF_FFFF_FFFF_FFFF
  {
    var max, rest := INT64_MAX / ticksPerSecond, INT64_MAX % ticksPerSecond;
    assert INT64_MAX == max * ticksPerSecond + rest;
    if now <= max {
      Monotone(now, max, ticksPerSecond);
    } else {
      Monotone(max + 1, now, ticksPerSecond);
      NextMultiple(max, ticksPerSecond);
    }
  }

  /** What the signed token says, whichever way it is cut: the options' own key, identity, name, metadata,
      attributes and grants, valid from now until now + validFor, under the MAC of the options' secret. */
  lemma SignedClaims(o: SignOptions, now: int, validFor: int, ticksPerSecond: nat, hmac: Mac, jwt: Text,
                     h: Text, p: Text, s: Text)
    requires ticksPerSecond > 0 && ByteOptions(o) && SignedAs(o, now, validFor, ticksPerSecond, hmac, jwt)
    requires HasParts(jwt, h, p, s)
    ensures Decode(p).Some? && ReadClaims(Decode(p).value).Some?
    ensures var c := ReadClaims(Decode(p).value).value;
            && c.token.apiKey == o.apiKey && c.token.identity == o.identity && c.token.name == o.name
            && c.token.metadata == o.metadata && c.token.attributes == o.attributes
            && c.token.video == o.video && c.token.sip == o.sip && c.token.agent == o.agent
            && c.nbf == now && c.iat == now && c.exp == now + validFor
    ensures Decode(s) == Some(hmac(o.apiSecret, h + Ascii(".") + p))
  {
    hide Decode, ReadClaims, ClaimsText, Jwt, HasParts, Signable;
    JwtRoundTrip(OptionsToken(o), now, now + validFor, o.apiSecret, hmac, h, p, s);
    assert Ascii(".") == [DOT];
  }

  method SetClaims(token: AccessToken, o: SignOptions)
    requires token.Valid() && ByteOptions(o)
    modifies token
    ensures token.Valid() && token.validFor == old(token.validFor) && token.apiSecret == old(token.apiSecret)
    ensures token.Contents() == old(token.Contents()).(identity := o.identity, name := o.name, metadata := o.metadata,
                                                       attributes := o.attributes)
  {
    hide ByteToken;
    token.SetIdentity(o.identity);
    token.SetName(o.name);
    token.SetMetadata(o.metadata);
    token.SetAttributes(o.attributes);
  }

  /** Only the grants given are set. */
  method SetGrants(token: AccessToken, o: SignOptions)
    requires token.Valid() && ByteOptions(o)
    modifies token
    ensures token.Valid() && token.validFor == old(token.validFor) && token.apiSecret == old(token.apiSecret)
    ensures token.Contents()
            == old(token.Contents()).(video := if o.video.Some? then o.video else old(token.videoGrant),
                                      sip := if o.sip.Some? then o.sip else old(token.sipGrant),
                                      agent := if o.agent.Some? then o.agent else old(token.agentGrant))
  {
    hide ByteToken;
    if o.video.Some? {
      token.SetVideoGrant(o.video.value);
    }
    if o.sip.Some? {
      token.SetSipGrant(o.sip.value);
    }
    if o.agent.Some? {
      token.SetAgentGrant(o.agent.value);
    }
  }

  /** Sign: accepted exactly when the times fit the clock and the credentials are there; the token then
      says it is valid from now until now + validFor. No step overflows 64 bits. */
  method Sign(o: SignOptions, ticksPerSecond: nat, hmac: Mac) returns (r: Result<Text, ErrorCode>)
    requires ByteOptions(o) && 0 < ticksPerSecond <= INT64_MAX
    ensures r.Success? <==> TimesFit(o, ticksPerSecond) && o.apiKey != [] && o.apiSecret != []
    ensures r.Success? ==> SignedOver(o, ticksPerSecond, hmac, r.value)
    ensures r.Failure? ==> r.error == if TimesFit(o, ticksPerSecond) then Authentication else InvalidArgument
  {
    hide ClaimsText, Jwt, Writes, ToSeconds, ByteToken;
    var token := new AccessToken(o.apiKey, o.apiSecret);
    SetClaims(token, o);
    var times := ReadTimes(o, ticksPerSecond);
    if times.None? {
      return Failure(InvalidArgument);
    }
    var (now, ttl) := times.value;
    SecondsBack(now, ticksPerSecond);
    var refused := token.SetValidFor(ttl);
    SetGrants(token, o);
    var signing := token.ToJwt(now * ticksPerSecond, ticksPerSecond, hmac);
    assert signing.Signed? ==> SignedAs(o, now, ttl, ticksPerSecond, hmac, signing.jwt);
    return match signing case Signed(jwt) => Success(jwt) case _ => Failure(Authentication);
  }

  /** Issue time and lifetime, when both are integers and the clock can represent the expiry. */
  method ReadTimes(o: SignOptions, ticksPerSecond: nat) returns (times: Option<(int, int)>)
    requires 0 < ticksPerSecond <= INT64_MAX
    ensures times.Some? ==> Signable(o, times.value.0, times.value.1, ticksPerSecond)
    ensures times.None? ==> !TimesFit(o, ticksPerSecond)
  {
    hide Writes;
    var ttl := Integer(o.validFor);
    var now := Integer(o.now);
    if ttl.Failure? || now.Failure? {
      NotSignable(o, ticksPerSecond);
      return None;
    }
    var max := ToSeconds(INT64_MAX, ticksPerSecond);
    if now.value < 0 || ttl.value <= 0 || ttl.value > max || now.value > max - ttl.value {
      OutOfRange(o, now.value, ttl.value, ticksPerSecond);
      return None;
    }
    return Some((now.value, ttl.value));
  }

  lemma SignableInts(o: SignOptions, now: int, validFor: int, ticksPerSecond: nat)
    requires ticksPerSecond > 0 && Signable(o, now, validFor, ticksPerSecond)
    ensures InInt64(now) && InInt64(validFor)
  {
  }

  lemma NotSignable(o: SignOptions, ticksPerSecond: nat)
    requires ticksPerSecond > 0
    requires (!exists n :: InInt64(n) && Writes(o.now, n)) || (!exists n :: InInt64(n) && Writes(o.validFor, n))
    ensures !TimesFit(o, ticksPerSecond)
  {
    hide Writes;
    forall now, validFor ensures !Signable(o, now, validFor, ticksPerSecond) {
      if Signable(o, now, validFor, ticksPerSecond) {
        SignableInts(o, now, validFor, ticksPerSecond);
      }
    }
  }

  lemma OutOfRange(o: SignOptions, n: int, ttl: int, ticksPerSecond: nat)
    requires ticksPerSecond > 0 && Writes(o.now, n) && Writes(o.validFor, ttl) && InInt64(n) && InInt64(ttl)
    requires !Signable(o, n, ttl, ticksPerSecond)
    ensures !TimesFit(o, ticksPerSecond)
  {
    hide Writes;
    forall now, validFor ensures !Signable(o, now, validFor, ticksPerSecond) {
      if Signable(o, now, validFor, ticksPerSecond) {
        SignableInts(o, now, validFor, ticksPerSecond);
        WritesUnique(o.now, n, now);
        WritesUnique(o.validFor, ttl, validFor);
      }
    }
  }
}
