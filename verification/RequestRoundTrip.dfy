/** Requests on their way from native code to the host, and replies on their way back. */
module RequestRoundTrip {
  import opened Text
  import opened Wrappers
  import opened Json
  import opened Claims
  import opened Base64
  import opened Base64RoundTrip
  import opened Clock
  import opened HostRequest
  import opened CallbackProtocol
  import opened NativeInterface
  import opened NativeCallback

  // Native requests arrive

  lemma BodyBack(host: Host, body: Text)
    requires IsBytes(body)
    ensures BodyOf(host, Base64UrlEncode(body)) == Some(body)
  {
    var text := Base64UrlEncode(body);
    RoundTrip(body);
    ReEncode(text);
    assert Canonical(text);
    hide Decodable, Decoded, Base64UrlEncode;
  }

  lemma TimeoutBack(host: Host, n: int)
    requires InInt64(n)
    ensures TimeoutOf(host, Decimal(n)) == Some(n)
  {
    SignToken.DecimalWrites(n);
    SignToken.WritesParsed(Decimal(n), n);
    hide SignToken.Scanned, SignToken.Writes;
    var first := Decimal(n)[0];
    assert first == '-' as nat || IsDigit(first);
  }

  lemma {:induction false} HeadersBack(headers: seq<(Text, Text)>)
    ensures HeadersOf(Pairs(headers)) == Some(headers)
    decreases |headers|
  {
    if headers != [] {
      HeadersBack(headers[1..]);
      assert Pairs(headers)[1..] == Pairs(headers[1..]);
      assert headers == [headers[0]] + headers[1..];
    }
  }

  lemma Found(text: Text, slots: seq<Slot>, i: nat)
    requires DistinctNames(slots) && forall j :: 0 <= j < |slots| ==> slots[j].value.Some?
    requires ReadsAs(text, FieldsOf(slots)) && i < |slots|
    ensures Read(text).Some? && Read(text).value.Obj?
    ensures Lookup(Read(text).value.members, slots[i].name) == slots[i].value
  {
    FieldOfSlot(slots, i);
    hide Lookup, FieldsOf, DistinctNames;
  }

  /** Whatever native code sends, either host reads that very request. */
  lemma TransportArrives(host: Host, request: HttpRequest, text: Text)
    requires IsBytes(request.body) && InInt64(request.timeout)
    requires ReadsAs(text, FieldsOf(TransportSlots(request)))
    ensures RequestIn(host, text)
            == TransportRequest(request.url, request.verb, request.headers, Some(request.body), Some(request.timeout))
  {
    var slots := TransportSlots(request);
    hide Read, Lookup, ReadsAs, FieldsOf, BodyOf, TimeoutOf, HeadersOf, Pairs, Base64UrlEncode, Decimal, Ascii,
         DistinctNames;
    Found(text, slots, 0);
    Found(text, slots, 1);
    Found(text, slots, 2);
    Found(text, slots, 3);
    Found(text, slots, 4);
    Found(text, slots, 5);
    BodyBack(host, request.body);
    TimeoutBack(host, request.timeout);
    HeadersBack(request.headers);
  }

  lemma KeyArrives(host: Host, key: Text, text: Text)
    requires ReadsAs(text, FieldsOf(KeySlots(key)))
    ensures RequestIn(host, text) == KeyRequest(key)
  {
    Found(text, KeySlots(key), 0);
    Found(text, KeySlots(key), 1);
    assert |Ascii("transport")| != |Ascii("key")|;
    hide Read, Lookup, ReadsAs, FieldsOf, TransportOf, Ascii;
  }

  /** A host never fails to read what native code asks: its code is entered exactly when the callback was
      supplied. */
  lemma NativeRequestEnters(host: Host, transport: bool, key: bool, call: Callback, request: HttpRequest)
    requires IsBytes(request.body) && InInt64(request.timeout)
    requires ReadsAs(call.text, FieldsOf(TransportSlots(request)))
    ensures Enters(host, transport, key, call) <==> transport
  {
    TransportArrives(host, request, call.text);
    hide RequestIn, ReadsAs, FieldsOf, TransportSlots;
  }

  lemma NativeKeyEnters(host: Host, transport: bool, key: bool, call: Callback, apiKey: Text)
    requires ReadsAs(call.text, FieldsOf(KeySlots(apiKey)))
    ensures Enters(host, transport, key, call) <==> key
  {
    KeyArrives(host, apiKey, call.text);
    hide RequestIn, ReadsAs, FieldsOf, KeySlots;
  }

  // There and back

  /** The callback of a host that offers both callbacks and whose code answers a request so. */
  function HostCallback(host: Host, code: Request -> Reply): Text -> Handed {
    (text: Text) => HandedBy(host, code, text)
  }

  function HandedBy(host: Host, code: Request -> Reply, text: Text): Handed {
    match TryCallback(host, true, true, Callback(text, [], code(RequestIn(host, text))))
    case Replied(bytes) => Handed(0, Some(bytes))
    case _ => Handed(1, None)
  }

  function Asked(request: HttpRequest): Request {
    TransportRequest(request.url, request.verb, request.headers, Some(request.body), Some(request.timeout))
  }

  lemma HostHands(host: Host, code: Request -> Reply, text: Text, request: Request)
    requires RequestIn(host, text) == request
    requires request.KeyRequest? || (request.TransportRequest? && request.body.Some? && request.timeout.Some?)
    ensures HandedBy(host, code, text)
            == match code(request)
               case Returned(answer) => Handed(0, Some(ReplyText(host, request, answer)))
               case _ => Handed(1, None)
  {
    hide ReplyText, RequestIn;
  }

  lemma Refuses(request: Option<Text>, callback: Text -> Handed, parse: Parser, r: Result<map<string, Json>, ErrorCode>)
    requires request.Some? && callback(request.value) == Handed(1, None)
    requires Exchanged(true, request, callback, parse, r)
    ensures r == Failure(Transport)
  {
  }

  lemma Delivers(request: Option<Text>, callback: Text -> Handed, parse: Parser, fields: map<string, Json>,
                 r: Result<map<string, Json>, ErrorCode>)
    requires request.Some? && Arrives(callback(request.value), parse, fields)
    requires Exchanged(true, request, callback, parse, r)
    ensures r == Success(fields)
  {
  }

  /** Sending through a host is calling the host's transport: its code is given exactly the request, and
      Send returns the status and body it answers, or fails when it fails or the status is out of range. */
  lemma SendsThroughHost(host: Host, request: HttpRequest, code: Request -> Reply, encode: Encoder, parse: Parser,
                         r: Result<(int, Text), ErrorCode>)
    requires Prints(encode) && Parses(parse) && IsBytes(request.body) && InInt64(request.timeout)
    requires encode(FieldsOf(TransportSlots(request))).Some?
    requires Sent(request, true, encode, HostCallback(host, code), parse, r)
    ensures match code(Asked(request))
            case Returned(answer) =>
              IsBytes(answer.body) && |ReplyText(host, Asked(request), answer)| <= INT_MAX ==>
                if 100 <= answer.status <= 599 then r == Success((answer.status, answer.body)) else r.Failure?
            case _ => r == Failure(Transport)
  {
    var fields := FieldsOf(TransportSlots(request));
    var text := encode(fields);
    var callback := HostCallback(host, code);
    var reply :| Exchanged(true, text, callback, parse, reply)
                 && match reply case Failure(error) => r == Failure(error) case Success(found) => ReadAs(found, r);
    assert ReadsAs(text.value, fields);
    TransportArrives(host, request, text.value);
    var asked := Asked(request);
    HostHands(host, code, text.value, asked);
    assert callback(text.value) == HandedBy(host, code, text.value);
    hide *;
    match code(asked)
    case Returned(answer) =>
      if IsBytes(answer.body) && |ReplyText(host, asked, answer)| <= INT_MAX {
        AnswerIsNoError(host, asked, answer, parse);
        var found := FieldsOf(AnswerSlots(host, asked, answer));
        Delivers(text, callback, parse, found, reply);
        ReadsAnswer(host, asked, answer, parse, found, r);
      }
    case _ => Refuses(text, callback, parse, reply);
  }

  lemma ReadsAnswer(host: Host, request: Request, answer: Answer, parse: Parser, fields: map<string, Json>,
                    r: Result<(int, Text), ErrorCode>)
    requires request.TransportRequest? && Parses(parse) && IsBytes(answer.body)
    requires Arrives(Handed(0, Some(ReplyText(host, request, answer))), parse, fields) && ReadAs(fields, r)
    ensures if 100 <= answer.status <= 599 then r == Success((answer.status, answer.body)) else r.Failure?
  {
    hide Arrives, Responds, ReplyText;
    AnswerArrives(host, request, answer, parse, fields, answer.status, answer.body);
    if r.Success? {
      AnswerArrives(host, request, answer, parse, fields, r.value.0, r.value.1);
    }
  }

  /** Looking a key up through a host is calling the host's key provider; no secret is an empty one. */
  lemma LooksUpThroughHost(host: Host, key: Text, code: Request -> Reply, encode: Encoder, parse: Parser,
                           r: Result<Text, ErrorCode>)
    requires Prints(encode) && Parses(parse) && encode(FieldsOf(KeySlots(key))).Some?
    requires LookedUp(key, true, encode, HostCallback(host, code), parse, r)
    ensures match code(KeyRequest(key))
            case Returned(answer) =>
              |ReplyText(host, KeyRequest(key), answer)| <= INT_MAX ==>
                r == Success(if answer.secret.Some? then answer.secret.value else [])
            case _ => r == Failure(Transport)
  {
    var fields := FieldsOf(KeySlots(key));
    var text := encode(fields);
    var callback := HostCallback(host, code);
    var reply :| Exchanged(true, text, callback, parse, reply)
                 && match reply case Failure(error) => r == Failure(error)
                    case Success(found) => r == StringOf(found, "secret");
    assert ReadsAs(text.value, fields);
    KeyArrives(host, key, text.value);
    var asked := KeyRequest(key);
    HostHands(host, code, text.value, asked);
    assert callback(text.value) == HandedBy(host, code, text.value);
    hide *;
    match code(asked)
    case Returned(answer) =>
      if |ReplyText(host, asked, answer)| <= INT_MAX {
        AnswerIsNoError(host, asked, answer, parse);
        var found := FieldsOf(AnswerSlots(host, asked, answer));
        Delivers(text, callback, parse, found, reply);
        SecretArrives(host, asked, answer, parse, found);
      }
    case _ => Refuses(text, callback, parse, reply);
  }
}
