/** Invocations of the native library by a host, as trees: native code calls back into the host, and
    host code may invoke the library again. */
module CallbackProtocol {
  import opened Text
  import opened Wrappers
  import opened Json
  import opened Claims
  import opened Base64
  import opened HostRequest

  /** What host code answers: status and body to a transport request, a secret or none to a key request. */
  datatype Answer = Answer(status: int, body: Text, secret: Option<Text>)

  /** What host code does once it is entered. */
  datatype Reply = Returned(answer: Answer) | Failed(error: nat) | Panicked(payload: nat)

  /** One callback: the text of the request, the invocations host code makes while it handles it, and its
      reply. */
  datatype Callback = Callback(text: Text, nested: seq<Invocation>, reply: Reply)

  /** One call of lks_invoke: which callbacks the host offers, the callbacks native code makes, and the
      result text it returns, if it can allocate and encode one. */
  datatype Invocation = Invocation(transport: bool, key: bool, calls: seq<Callback>, output: Option<Text>)

  datatype HostError =
    | InvalidJson
    | WrongType
    | Binding(reason: string)
    | Thrown(error: nat)
    | Native(code: int, text: Text, httpStatus: int, twirpCode: Text)

  /** How an invocation ends for its caller. */
  datatype Ending = Ok(value: Json) | Err(error: HostError) | Unwound(payload: nat)

  /** What can be observed of a run: host code entered, a native result allocated or freed, a context
      pushed on or popped off the stack at a depth, and the response buffers of an invocation released. */
  datatype Event =
    | Entered(request: Request)
    | Allocated(pointer: nat)
    | Freed(pointer: nat)
    | Pushed(depth: nat)
    | Popped(depth: nat)
    | Released(buffers: nat)

  // What one callback comes to

  /** Host code is reached when the request decodes and its callback was supplied. PHP casts the timeout
      and never refuses it. */
  predicate Enters(host: Host, transport: bool, key: bool, call: Callback) {
    match RequestIn(host, call.text)
    case Malformed => false
    case TransportRequest(_, _, _, body, timeout) => transport && body.Some? && (host.Php? || timeout.Some?)
    case KeyRequest(_) => key
  }

  /** Why host code is not reached. */
  function Refusal(host: Host, transport: bool, request: Request): HostError {
    match request
    case Malformed => InvalidJson
    case TransportRequest(_, _, _, body, _) =>
      if !transport then Binding("Transport callback is required")
      else if body.Some? then Binding("Invalid callback timeout")
      else Binding(if host.Rust? then "Invalid base64url" else "Invalid base64url payload")
    case KeyRequest(_) => Binding("Key provider is required")
  }

  /** The members of the response object, in the order the host's JSON library has them. */
  function AnswerSlots(host: Host, request: Request, answer: Answer): (slots: seq<Slot>)
    ensures DistinctNames(slots) && forall i :: 0 <= i < |slots| ==> slots[i].value.Some?
  {
    match request
    case TransportRequest(_, _, _, _, _) =>
      var status := Slot("status_code", Some(Str(Decimal(answer.status))));
      var body := Slot("body", Some(Str(Base64UrlEncode(answer.body))));
      if host.Rust? then [body, status] else [status, body]
    case _ => [Slot("secret", Some(Str(if answer.secret.Some? then answer.secret.value else [])))]
  }

  function ReplyText(host: Host, request: Request, answer: Answer): Text {
    Print(Style.Native, Obj(Present(AnswerSlots(host, request, answer))))
  }

  /** What one callback amounts to. */
  datatype Attempt = Replied(bytes: Text) | Refused(error: HostError) | Panicking(payload: nat)

  function TryCallback(host: Host, transport: bool, key: bool, call: Callback): Attempt {
    if !Enters(host, transport, key, call) then Refused(Refusal(host, transport, RequestIn(host, call.text)))
    else
      match call.reply
      case Returned(answer) => Replied(ReplyText(host, RequestIn(host, call.text), answer))
      case Failed(error) => Refused(Thrown(error))
      case Panicked(payload) => if host.Rust? then Panicking(payload) else Refused(Thrown(payload))
  }

  /** After a failure the Rust adapter enters no host code any more; the PHP adapter does. */
  predicate GoesOn(host: Host, transport: bool, key: bool, call: Callback) {
    host.Php? || TryCallback(host, transport, key, call).Replied?
  }

  // What an invocation amounts to

  /** Without any callback native code is given a null function pointer. */
  function MadeCalls(inv: Invocation): seq<Callback> {
    if inv.transport || inv.key then inv.calls else []
  }

  /** The failure of one callback, as the invocation's ending. */
  function FailureOf(host: Host, transport: bool, key: bool, call: Callback): Option<Ending> {
    match TryCallback(host, transport, key, call)
    case Replied(_) => None
    case Refused(error) => Some(Err(error))
    case Panicking(payload) => Some(Unwound(payload))
  }

  /** The first callback that failed. */
  function FirstFailure(host: Host, transport: bool, key: bool, calls: seq<Callback>): Option<Ending> {
    if calls == [] then None
    else
      match FailureOf(host, transport, key, calls[0])
      case Some(ending) => Some(ending)
      case None => FirstFailure(host, transport, key, calls[1..])
  }

  /** A host failure comes first, then a missing result, then what the result decodes to. */
  function Conclusion(failure: Option<Ending>, output: Option<Text>, decode: Text -> Ending): Ending {
    match failure
    case Some(ending) => ending
    case None =>
      match output
      case None => Err(Binding("Native C ABI could not allocate or encode its result"))
      case Some(bytes) => decode(bytes)
  }

  /** The first failure of the invocation's own callbacks, or else what its result decodes to. */
  function EndingOf(host: Host, decode: Text -> Ending, inv: Invocation): Ending {
    Conclusion(FirstFailure(host, inv.transport, inv.key, MadeCalls(inv)), inv.output, decode)
  }

  /** The response one callback lends to native code. */
  function LentBy(host: Host, transport: bool, key: bool, call: Callback): seq<Text> {
    match TryCallback(host, transport, key, call)
    case Replied(bytes) => [bytes]
    case _ => []
  }

  /** The responses lent to native code, in order. */
  function Lent(host: Host, transport: bool, key: bool, calls: seq<Callback>): seq<Text> {
    if calls == [] then []
    else
      LentBy(host, transport, key, calls[0])
      + if GoesOn(host, transport, key, calls[0]) then Lent(host, transport, key, calls[1..]) else []
  }

  /** How many results are allocated, and so must be freed. */
  function Results(host: Host, inv: Invocation): nat
    decreases inv, 2
  {
    (if inv.transport || inv.key then CallResults(host, inv.transport, inv.key, inv.calls) else 0)
    + if inv.output.Some? then 1 else 0
  }

  function CallResults(host: Host, transport: bool, key: bool, calls: seq<Callback>): nat
    decreases calls, 1
  {
    if calls == [] then 0
    else
      EntryResults(host, transport, key, calls[0])
      + if GoesOn(host, transport, key, calls[0]) then CallResults(host, transport, key, calls[1..]) else 0
  }

  /** While host code handles one callback. */
  function EntryResults(host: Host, transport: bool, key: bool, call: Callback): nat
    decreases call, 1
  {
    if Enters(host, transport, key, call) then NestedResults(host, call.nested) else 0
  }

  function NestedResults(host: Host, invs: seq<Invocation>): nat
    decreases invs, 0
  {
    if invs == [] then 0 else Results(host, invs[0]) + NestedResults(host, invs[1..])
  }

  /** The depth nested invocations start at; only PHP keeps a stack of contexts. */
  function Deeper(host: Host, depth: nat): nat {
    if host.Php? then depth + 1 else depth
  }

  /** Everything observable of an invocation that starts at a stack depth when so many results have been
      allocated before. Its result is freed before its context is popped and its buffers go. */
  function Trace(host: Host, inv: Invocation, depth: nat, issued: nat): seq<Event>
    decreases inv, 2
  {
    (if host.Php? then [Pushed(depth)] else [])
    + WhileNative(host, inv, Deeper(host, depth), issued)
    + Closing(host, inv, depth, issued)
  }

  /** While native code runs: its callbacks, then the result it returns. */
  function WhileNative(host: Host, inv: Invocation, depth: nat, issued: nat): seq<Event>
    decreases inv, 1
  {
    (if inv.transport || inv.key then CallTrace(host, inv.transport, inv.key, inv.calls, depth, issued) else [])
    + if inv.output.Some? then [Allocated(issued + Results(host, inv) - 1)] else []
  }

  function Closing(host: Host, inv: Invocation, depth: nat, issued: nat): seq<Event> {
    (if inv.output.Some? then [Freed(issued + Results(host, inv) - 1)] else [])
    + (if host.Php? then [Popped(depth)] else [])
    + [Released(|Lent(host, inv.transport, inv.key, MadeCalls(inv))|)]
  }

  function CallTrace(host: Host, transport: bool, key: bool, calls: seq<Callback>, depth: nat, issued: nat): seq<Event>
    decreases calls, 1
  {
    if calls == [] then []
    else
      EntryTrace(host, transport, key, calls[0], depth, issued)
      + if GoesOn(host, transport, key, calls[0]) then
          CallTrace(host, transport, key, calls[1..], depth, issued + EntryResults(host, transport, key, calls[0]))
        else []
  }

  /** While host code handles one callback. */
  function EntryTrace(host: Host, transport: bool, key: bool, call: Callback, depth: nat, issued: nat): seq<Event>
    decreases call, 1
  {
    if Enters(host, transport, key, call) then
      [Entered(RequestIn(host, call.text))] + NestedTrace(host, call.nested, depth, issued)
    else []
  }

  function NestedTrace(host: Host, invs: seq<Invocation>, depth: nat, issued: nat): seq<Event>
    decreases invs, 0
  {
    if invs == [] then []
    else
      Trace(host, invs[0], depth, issued) + NestedTrace(host, invs[1..], depth, issued + Results(host, invs[0]))
  }
}
