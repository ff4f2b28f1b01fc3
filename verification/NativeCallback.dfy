/** The native half of a callback: what native code makes of the host's reply. */
module NativeCallback {
  import opened Text
  import opened Wrappers
  import opened Json
  import opened Claims
  import opened Base64
  import opened Base64RoundTrip
  import opened HostRequest
  import opened CallbackProtocol
  import opened NativeInterface
  import SignToken

  /** What the C callback hands back: its status and the response buffer, if it set one. */
  datatype Handed = Handed(status: int, response: Option<Text>)

  /** A callback succeeds with status 0 and a response of at most INT_MAX bytes. */
  predicate Succeeds(h: Handed) {
    h.status == 0 && h.response.Some? && |h.response.value| <= INT_MAX
  }

  /** The protobuf JSON parser: it reads every object the JSON reader reads, as the same members. */
  type Parser = Text -> Option<map<string, Json>>

  ghost predicate Parses(parse: Parser) {
    forall text, fields :: ReadsAs(text, fields) ==> parse(text) == Some(fields)
  }

  /** The error flag of a reply. */
  function Flag(fields: map<string, Json>): Result<bool, ErrorCode> {
    if "error" !in fields then Success(false)
    else match fields["error"] case Bool(b) => Success(b) case _ => Failure(InvalidArgument)
  }

  /** A string member; empty when absent. */
  function StringOf(fields: map<string, Json>, name: string): Result<Text, ErrorCode> {
    if name !in fields then Success([])
    else match fields[name] case Str(s) => Success(s) case _ => Failure(InvalidArgument)
  }

  /** The reply is an object without an error flag that is set. */
  ghost predicate Arrives(h: Handed, parse: Parser, fields: map<string, Json>) {
    Succeeds(h) && parse(h.response.value) == Some(fields) && Flag(fields) == Success(false)
  }

  /** What Exchange returns for what the callback handed back, unless the request cannot be encoded. */
  ghost predicate Exchanged(provided: bool, request: Option<Text>, callback: Text -> Handed, parse: Parser,
                            r: Result<map<string, Json>, ErrorCode>) {
    if !provided then r == Failure(InvalidArgument)
    else if request.None? then r == Failure(Protocol)
    else
      var h := callback(request.value);
      && (r.Success? <==> exists fields :: Arrives(h, parse, fields))
      && (r.Success? ==> Arrives(h, parse, r.value))
      && (r.Failure? ==> r.error == if !Succeeds(h) || SaysError(h, parse) then Transport else InvalidArgument)
  }

  /** One exchange, with the wrapper around the C callback. */
  method Exchange(request: map<string, Json>, provided: bool, encode: Encoder, callback: Text -> Handed, parse: Parser)
    returns (r: Result<map<string, Json>, ErrorCode>)
    ensures Exchanged(provided, encode(request), callback, parse, r)
  {
    if !provided {
      return Failure(InvalidArgument);
    }
    var json := encode(request);
    if json.None? {
      return Failure(Protocol);
    }
    var h := callback(json.value);
    if h.status != 0 || h.response.None? || |h.response.value| > INT_MAX {
      return Failure(Transport);
    }
    var result := parse(h.response.value);
    if result.None? {
      return Failure(InvalidArgument);
    }
    var error := Flag(result.value);
    if error.Failure? {
      return Failure(error.error);
    }
    if error.value {
      return Failure(Transport);
    }
    assert Arrives(h, parse, result.value);
    return Success(result.value);
  }

  /** When an exchange fails: no callback, a request that cannot be encoded, a status that is not 0, no
      response or one of more than 2^31 - 1 bytes, a reply that is no object, or an error flag that is set
      or no flag at all. */
  lemma ExchangeFails(provided: bool, request: Option<Text>, callback: Text -> Handed, parse: Parser,
                      r: Result<map<string, Json>, ErrorCode>)
    requires Exchanged(provided, request, callback, parse, r)
    ensures !provided ==> r == Failure(InvalidArgument)
    ensures provided && request.None? ==> r == Failure(Protocol)
    ensures provided && request.Some? ==>
      match callback(request.value)
      case Handed(status, None) => r == Failure(Transport)
      case Handed(status, Some(response)) =>
        if status != 0 || |response| > 0x7FFF_FFFF then r == Failure(Transport)
        else
          match parse(response)
          case None => r == Failure(InvalidArgument)
          case Some(fields) =>
            if "error" !in fields || fields["error"] == Bool(false) then r == Success(fields)
            else r == Failure(if fields["error"] == Bool(true) then Transport else InvalidArgument)
  {
    if provided && request.Some? {
      var h := callback(request.value);
      if Succeeds(h) && parse(h.response.value).Some? {
        var fields := parse(h.response.value).value;
        assert Flag(fields) == Success(false) ==> Arrives(h, parse, fields);
      }
    }
  }

  /** The host set the error flag. */
  predicate SaysError(h: Handed, parse: Parser)
    requires Succeeds(h)
  {
    var fields := parse(h.response.value);
    fields.Some? && Flag(fields.value) == Success(true)
  }

  /** status and body are what the reply says: a status between 100 and 599, and a decodable body. */
  ghost predicate Responds(fields: map<string, Json>, status: int, body: Text) {
    && StringOf(fields, "status_code").Success? && SignToken.Writes(StringOf(fields, "status_code").value, status)
    && 100 <= status <= 599
    && StringOf(fields, "body").Success? && Decode(StringOf(fields, "body").value) == Some(body)
  }

  ghost predicate ReadAs(fields: map<string, Json>, r: Result<(int, Text), ErrorCode>) {
    match r
    case Success(response) => Responds(fields, response.0, response.1)
    case Failure(_) => forall status, body :: !Responds(fields, status, body)
  }

  /** The HTTP response of a transport callback. */
  method ReadResponse(fields: map<string, Json>) returns (r: Result<(int, Text), ErrorCode>)
    ensures ReadAs(fields, r)
  {
    hide SignToken.Writes, Decodable, Decoded;
    var text := StringOf(fields, "status_code");
    if text.Failure? {
      return Failure(text.error);
    }
    var status := SignToken.Integer(text.value);
    if status.Failure? {
      return Failure(status.error);
    }
    if status.value < 100 || status.value > 599 {
      OutOfRange(fields, status.value);
      return Failure(Transport);
    }
    var body := StringOf(fields, "body");
    if body.Failure? {
      return Failure(body.error);
    }
    var bytes := Base64UrlDecode(body.value);
    if bytes.Failure? {
      return Failure(bytes.error);
    }
    return Success((status.value, bytes.value));
  }

  lemma OutOfRange(fields: map<string, Json>, status: int)
    requires StringOf(fields, "status_code").Success?
    requires SignToken.Writes(StringOf(fields, "status_code").value, status)
    requires status < 100 || status > 599
    ensures forall s, body :: !Responds(fields, s, body)
  {
    hide SignToken.Writes, Decode;
    forall s, body ensures !Responds(fields, s, body) {
      if Responds(fields, s, body) {
        SignToken.WritesUnique(StringOf(fields, "status_code").value, s, status);
      }
    }
  }

  // The request

  /** What the SDK sends through a transport; the timeout is in milliseconds. */
  datatype HttpRequest = HttpRequest(url: Text, verb: Text, headers: seq<(Text, Text)>, body: Text, timeout: int)

  function Pairs(headers: seq<(Text, Text)>): seq<Json> {
    seq(|headers|, i requires 0 <= i < |headers| => Arr([Str(headers[i].0), Str(headers[i].1)]))
  }

  function TransportSlots(request: HttpRequest): (slots: seq<Slot>)
    ensures DistinctNames(slots) && forall i :: 0 <= i < |slots| ==> slots[i].value.Some?
  {
    [Slot("kind", Some(Str(Ascii("transport")))), Slot("url", Some(Str(request.url))),
     Slot("method", Some(Str(request.verb))), Slot("body", Some(Str(Base64UrlEncode(request.body)))),
     Slot("timeout_ms", Some(Str(Decimal(request.timeout)))), Slot("headers", Some(Arr(Pairs(request.headers))))]
  }

  function KeySlots(key: Text): (slots: seq<Slot>)
    ensures DistinctNames(slots) && forall i :: 0 <= i < |slots| ==> slots[i].value.Some?
  {
    [Slot("kind", Some(Str(Ascii("key")))), Slot("key", Some(Str(key)))]
  }

  /** A header is a pair of its name and its value, and the pairs stand in order. */
  lemma PairAt(headers: seq<(Text, Text)>, i: nat)
    requires i < |headers|
    ensures |Pairs(headers)| == |headers| && Pairs(headers)[i] == Arr([Str(headers[i].0), Str(headers[i].1)])
  {
  }

  lemma TransportFields(request: HttpRequest)
    ensures FieldsOf(TransportSlots(request))
            == map["kind" := Str(Ascii("transport")), "url" := Str(request.url), "method" := Str(request.verb),
                   "body" := Str(Base64UrlEncode(request.body)), "timeout_ms" := Str(Decimal(request.timeout)),
                   "headers" := Arr(Pairs(request.headers))]
  {
    hide Base64UrlEncode, Decimal, Pairs, Ascii;
    var slots := TransportSlots(request);
    assert slots[..5][..4] == slots[..4] && slots[..4][..3] == slots[..3];
    assert slots[..3][..2] == slots[..2] && slots[..2][..1] == slots[..1];
    assert FieldsOf(slots[..1]) == map["kind" := slots[0].value.value];
    assert FieldsOf(slots[..2]) == FieldsOf(slots[..1])["url" := slots[1].value.value];
    assert FieldsOf(slots[..3]) == FieldsOf(slots[..2])["method" := slots[2].value.value];
    assert FieldsOf(slots[..4]) == FieldsOf(slots[..3])["body" := slots[3].value.value];
    assert FieldsOf(slots[..5]) == FieldsOf(slots[..4])["timeout_ms" := slots[4].value.value];
  }

  lemma KeyFields(key: Text)
    ensures FieldsOf(KeySlots(key)) == map["kind" := Str(Ascii("key")), "key" := Str(key)]
  {
    var slots := KeySlots(key);
    assert FieldsOf(slots[..1]) == map["kind" := slots[0].value.value];
  }

  /** What comes of sending a request: the status and body of the reply that arrived. */
  ghost predicate Sent(request: HttpRequest, provided: bool, encode: Encoder, callback: Text -> Handed, parse: Parser,
                       r: Result<(int, Text), ErrorCode>) {
    exists reply ::
      && Exchanged(provided, encode(FieldsOf(TransportSlots(request))), callback, parse, reply)
      && match reply
         case Failure(error) => r == Failure(error)
         case Success(fields) => ReadAs(fields, r)
  }

  /** CallbackTransport::Send. */
  method Send(request: HttpRequest, provided: bool, encode: Encoder, callback: Text -> Handed, parse: Parser)
    returns (r: Result<(int, Text), ErrorCode>)
    requires IsBytes(request.body)
    ensures Sent(request, provided, encode, callback, parse, r)
  {
    hide Exchanged, ReadAs, TransportSlots, FieldsOf;
    var data: map<string, Json> := map[];
    data := data["kind" := Str(Ascii("transport"))];
    data := data["url" := Str(request.url)];
    data := data["method" := Str(request.verb)];
    var body := Base64.Base64(request.body, UrlAlphabet(), false);
    data := data["body" := Str(body)];
    data := data["timeout_ms" := Str(Decimal(request.timeout))];
    var headers: seq<Json> := [];
    for i := 0 to |request.headers|
      invariant headers == Pairs(request.headers)[..i]
    {
      headers := headers + [Arr([Str(request.headers[i].0), Str(request.headers[i].1)])];
    }
    data := data["headers" := Arr(headers)];
    TransportFields(request);
    assert headers == Pairs(request.headers);
    assert data == FieldsOf(TransportSlots(request));
    var reply := Exchange(data, provided, encode, callback, parse);
    if reply.Failure? {
      return Failure(reply.error);
    }
    r := ReadResponse(reply.value);
  }

  /** What comes of asking for a key: the secret of the reply that arrived. */
  ghost predicate LookedUp(key: Text, provided: bool, encode: Encoder, callback: Text -> Handed, parse: Parser,
                           r: Result<Text, ErrorCode>) {
    exists reply ::
      && Exchanged(provided, encode(FieldsOf(KeySlots(key))), callback, parse, reply)
      && match reply
         case Failure(error) => r == Failure(error)
         case Success(fields) => r == StringOf(fields, "secret")
  }

  /** The key provider of a webhook receiver. */
  method LookUp(key: Text, provided: bool, encode: Encoder, callback: Text -> Handed, parse: Parser)
    returns (r: Result<Text, ErrorCode>)
    ensures LookedUp(key, provided, encode, callback, parse, r)
  {
    hide Exchanged, KeySlots, FieldsOf, StringOf;
    var request: map<string, Json> := map[];
    request := request["kind" := Str(Ascii("key"))];
    request := request["key" := Str(key)];
    KeyFields(key);
    var reply := Exchange(request, provided, encode, callback, parse);
    if reply.Failure? {
      return Failure(reply.error);
    }
    r := StringOf(reply.value, "secret");
  }

  // The host's answer arrives

  lemma AnswerReads(host: Host, request: Request, answer: Answer)
    ensures ReadsAs(ReplyText(host, request, answer), FieldsOf(AnswerSlots(host, request, answer)))
  {
    SlotsRead(AnswerSlots(host, request, answer));
  }

  /** The members of a reply: status code and body, or the secret. */
  lemma AnswerMembers(host: Host, request: Request, answer: Answer)
    ensures var fields := FieldsOf(AnswerSlots(host, request, answer));
            && ReadsAs(ReplyText(host, request, answer), fields)
            && fields == if request.TransportRequest? then
                           map["status_code" := Str(Decimal(answer.status)),
                               "body" := Str(Base64UrlEncode(answer.body))]
                         else map["secret" := Str(if answer.secret.Some? then answer.secret.value else [])]
  {
    AnswerReads(host, request, answer);
    var slots := AnswerSlots(host, request, answer);
    assert FieldsOf(slots[..1]) == map[slots[0].name := slots[0].value.value] by {
      assert slots[..1][..0] == [];
    }
    assert |slots| == 1 ==> slots[..1] == slots;
    hide ReadsAs, ReplyText, Base64UrlEncode, Decimal;
  }

  /** The status and the body a host answers are the ones native code reads, from either host. */
  lemma AnswerArrives(host: Host, request: Request, answer: Answer, parse: Parser, fields: map<string, Json>,
                      status: int, body: Text)
    requires request.TransportRequest? && Parses(parse) && IsBytes(answer.body)
    requires Arrives(Handed(0, Some(ReplyText(host, request, answer))), parse, fields)
    ensures Responds(fields, status, body)
            <==> status == answer.status && body == answer.body && 100 <= answer.status <= 599
  {
    hide ReadsAs, ReplyText, Decode, SignToken.Writes, Base64UrlEncode, DistinctNames, FieldsOf;
    var slots := AnswerSlots(host, request, answer);
    AnswerReads(host, request, answer);
    assert fields == FieldsOf(slots);
    FieldOfSlot(slots, 0);
    FieldOfSlot(slots, 1);
    RoundTrip(answer.body);
    SignToken.DecimalWrites(answer.status);
    if Responds(fields, status, body) {
      SignToken.WritesUnique(Decimal(answer.status), status, answer.status);
    }
  }

  /** A reply carries no error flag, so it arrives whenever it is short enough. */
  lemma AnswerIsNoError(host: Host, request: Request, answer: Answer, parse: Parser)
    requires Parses(parse) && |ReplyText(host, request, answer)| <= INT_MAX
    ensures Arrives(Handed(0, Some(ReplyText(host, request, answer))), parse,
                    FieldsOf(AnswerSlots(host, request, answer)))
  {
    hide ReadsAs, ReplyText, FieldsOf, DistinctNames;
    AnswerReads(host, request, answer);
    OnlySlots(AnswerSlots(host, request, answer), "error");
  }

  /** The secret a host answers is the one native code reads; no secret reads as an empty one. */
  lemma SecretArrives(host: Host, request: Request, answer: Answer, parse: Parser, fields: map<string, Json>)
    requires request.KeyRequest? && Parses(parse)
    requires Arrives(Handed(0, Some(ReplyText(host, request, answer))), parse, fields)
    ensures StringOf(fields, "secret") == Success(if answer.secret.Some? then answer.secret.value else [])
  {
    hide ReadsAs, ReplyText, FieldsOf, DistinctNames;
    AnswerReads(host, request, answer);
    FieldOfSlot(AnswerSlots(host, request, answer), 0);
  }
}
