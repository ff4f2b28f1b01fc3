/** The Rust side of the callback protocol: what is freed, what stays alive, what is reported. */
module RustAdapter {
  import opened Text
  import opened Wrappers
  import opened Json
  import opened Claims
  import opened HostRequest
  import opened CallbackProtocol
  import opened CallbackRuns
  import opened NativeInterface
  import opened NativeMemory

  // Reading the result

  function DecodeFailure(members: seq<Member>): Ending {
    match (Lookup(members, "code"), Lookup(members, "message"), Lookup(members, "http_status"),
           Lookup(members, "twirp_code"))
    case (Some(Int(code)), Some(Str(message)), Some(Int(status)), Some(Str(twirp))) =>
      if InInt32(code) && InInt32(status) then Err(HostError.Native(code, message, status, twirp)) else Err(InvalidJson)
    case _ => Err(InvalidJson)
  }

  /** decode_envelope of the Rust adapter. */
  function DecodeEnvelope(bytes: Text): Ending {
    match Read(bytes)
    case None => Err(InvalidJson)
    case Some(Obj(members)) =>
      (match Lookup(members, "ok")
       case Some(Bool(true)) =>
         (match Lookup(members, "value")
          case Some(v) => Ok(v)
          case None => Err(Binding("Missing native value")))
       case Some(Bool(false)) => DecodeFailure(members)
       case _ => Err(Binding("Invalid native result envelope")))
    case Some(_) => Err(Binding("Invalid native result envelope"))
  }

  // The adapter

  class Context {
    const transport: bool
    const key: bool
    var buffers: seq<Buffer>
    var error: Option<HostError>
    var panic: Option<nat>

    ghost predicate Valid()
      reads this, buffers
    {
      AllAlive(buffers) && (error.None? || panic.None?)
    }

    ghost function Failure(): Option<Ending>
      reads this
    {
      match (error, panic)
      case (Some(e), _) => Some(Err(e))
      case (None, Some(p)) => Some(Unwound(p))
      case (None, None) => None
    }

    constructor (transport: bool, key: bool)
      ensures Valid() && this.transport == transport && this.key == key
      ensures buffers == [] && error == None && panic == None && Failure() == None
    {
      this.transport, this.key := transport, key;
      buffers, error, panic := [], None, None;
    }
  }

  /** Context::exchange under catch_unwind: host code may invoke the library again. */
  method HostExchange(world: World, context: Context, call: Callback) returns (a: Attempt)
    requires world.Valid()
    modifies world
    ensures a == TryCallback(Rust, context.transport, context.key, call)
    ensures Advances(world, EntryTrace(Rust, context.transport, context.key, call, 0, old(world.issued)),
                     EntryResults(Rust, context.transport, context.key, call))
    decreases call, 0
  {
    hide NestedTrace, NestedResults, ReplyText, RequestIn;
    var request := RequestIn(Rust, call.text);
    match request {
      case Malformed => return Refused(InvalidJson);
      case TransportRequest(_, _, _, body, timeout) =>
        if !context.transport {
          return Refused(Binding("Transport callback is required"));
        }
        if body.None? {
          return Refused(Binding("Invalid base64url"));
        }
        if timeout.None? {
          return Refused(Binding("Invalid callback timeout"));
        }
      case KeyRequest(_) =>
        if !context.key {
          return Refused(Binding("Key provider is required"));
        }
    }
    world.Note(Entered(request));
    InvokeNested(world, call.nested);
    match call.reply {
      case Returned(answer) => return Replied(ReplyText(Rust, request, answer));
      case Failed(error) => return Refused(Thrown(error));
      case Panicked(payload) => return Panicking(payload);
    }
  }

  method InvokeNested(world: World, invs: seq<Invocation>)
    requires world.Valid()
    modifies world
    ensures Advances(world, NestedTrace(Rust, invs, 0, old(world.issued)), NestedResults(Rust, invs))
    decreases invs, 3
  {
    hide Trace, Results, EndingOf;
    assert invs[0..] == invs;
    for i := 0 to |invs|
      invariant world.Valid() && world.live == old(world.live)
      invariant world.log + NestedTrace(Rust, invs[i..], 0, world.issued)
                == old(world.log) + NestedTrace(Rust, invs, 0, old(world.issued))
      invariant world.issued + NestedResults(Rust, invs[i..]) == old(world.issued) + NestedResults(Rust, invs)
      invariant old(world.frees) <= world.frees
      invariant |world.frees| - |old(world.frees)| == world.issued - old(world.issued)
    {
      assert invs[i..][0] == invs[i] && invs[i..][1..] == invs[i + 1..];
      var _ := Invoke(world, invs[i]);
    }
    assert invs[|invs|..] == [] && world.log + [] == world.log;
  }

  /** The callback given to native code. Nothing unwinds through it; once something has failed, host
      code is not entered again. */
  method Exchange(world: World, context: Context, call: Callback) returns (status: int, response: Option<Buffer>)
    requires world.Valid() && context.Valid()
    modifies world, context
    ensures context.Valid()
    ensures old(context.Failure()).Some? ==>
      && status == 1 && response == None && Advances(world, [], 0)
      && context.Failure() == old(context.Failure()) && context.buffers == old(context.buffers)
    ensures old(context.Failure()).None? ==>
      && Advances(world, EntryTrace(Rust, context.transport, context.key, call, 0, old(world.issued)),
                  EntryResults(Rust, context.transport, context.key, call))
      && context.Failure() == FailureOf(Rust, context.transport, context.key, call)
      && match TryCallback(Rust, context.transport, context.key, call)
         case Replied(bytes) =>
           status == 0 && response.Some? && fresh(response.value) && response.value.bytes == bytes
           && context.buffers == old(context.buffers) + [response.value]
         case _ => status == 1 && response == None && context.buffers == old(context.buffers)
    decreases call, 1
  {
    hide TryCallback, EntryTrace, EntryResults;
    if context.error.Some? || context.panic.Some? {
      return 1, None;
    }
    var attempt := HostExchange(world, context, call);
    match attempt {
      case Replied(bytes) =>
        var buffer := new Buffer(bytes);
        context.buffers := context.buffers + [buffer];
        return 0, Some(buffer);
      case Refused(error) =>
        context.error := Some(error);
        return 1, None;
      case Panicking(payload) =>
        context.panic := Some(payload);
        return 1, None;
    }
  }

  /** lks_invoke as the adapter sees it: any number of callbacks, then a result or NULL. Until it returns,
      native code may read every response it was lent. */
  method NativeInvoke(world: World, context: Context, inv: Invocation)
    returns (pointer: Option<nat>, lent: seq<Buffer>)
    requires world.Valid() && context.Valid() && context.buffers == [] && context.Failure() == None
    requires context.transport == inv.transport && context.key == inv.key
    modifies world, context
    ensures context.Valid() && lent == context.buffers && AllAlive(lent)
    ensures forall i :: 0 <= i < |lent| ==> fresh(lent[i])
    ensures Bytes(lent) == Lent(Rust, inv.transport, inv.key, MadeCalls(inv))
    ensures context.Failure() == FirstFailure(Rust, inv.transport, inv.key, MadeCalls(inv))
    ensures pointer.Some? <==> inv.output.Some?
    ensures world.Valid()
    ensures world.log == old(world.log) + WhileNative(Rust, inv, 0, old(world.issued))
    ensures world.issued == old(world.issued) + Results(Rust, inv)
    ensures world.live == old(world.live) + (if pointer.Some? then {pointer.value} else {})
    ensures pointer.Some? ==> pointer.value == world.issued - 1 && pointer.value !in old(world.live)
                              && world.contents[pointer.value] == inv.output.value
    ensures old(world.frees) <= world.frees
    ensures |world.frees| + (if pointer.Some? then 1 else 0) == |old(world.frees)| + Results(Rust, inv)
    decreases inv, 1
  {
    hide FirstFailure, Lent, CallTrace, CallResults, Closing;
    NoMoreCalls(Rust, inv.transport, inv.key, 0, world.issued);
    lent := [];
    if inv.transport || inv.key {
      lent := MakeCalls(world, context, inv.calls);
    }
    pointer := None;
    if inv.output.Some? {
      var p := world.Allocate(inv.output.value);
      pointer := Some(p);
    }
    var _ := LoadAll(lent);
  }

  /** Native code makes one callback after the other; it may go on after a failed one. */
  method MakeCalls(world: World, context: Context, made: seq<Callback>) returns (lent: seq<Buffer>)
    requires world.Valid() && context.Valid() && context.buffers == [] && context.Failure() == None
    modifies world, context
    ensures context.Valid() && lent == context.buffers && forall i :: 0 <= i < |lent| ==> fresh(lent[i])
    ensures Bytes(lent) == Lent(Rust, context.transport, context.key, made)
    ensures context.Failure() == FirstFailure(Rust, context.transport, context.key, made)
    ensures Advances(world, CallTrace(Rust, context.transport, context.key, made, 0, old(world.issued)),
                     CallResults(Rust, context.transport, context.key, made))
    decreases made, 2
  {
    hide FirstFailure, Lent, CallTrace, CallResults, EntryTrace, EntryResults, TryCallback, Context.Failure;
    var t, k := context.transport, context.key;
    lent := [];
    assert made[0..] == made;
    for i := 0 to |made|
      invariant world.Valid() && context.Valid() && world.live == old(world.live)
      invariant lent == context.buffers && forall j :: 0 <= j < |lent| ==> fresh(lent[j])
      invariant old(world.frees) <= world.frees
      invariant |world.frees| - |old(world.frees)| == world.issued - old(world.issued)
      invariant ToCome(Rust, t, k, 0, Progress(world.log, world.issued, Bytes(lent), context.Failure()), made[i..])
                == ToCome(Rust, t, k, 0, Progress(old(world.log), old(world.issued), [], None), made)
    {
      OneMore(Rust, t, k, 0, Progress(world.log, world.issued, Bytes(lent), context.Failure()), made, i);
      ghost var before := lent;
      LentIf(Rust, t, k, made[i]);
      var status, response := Exchange(world, context, made[i]);
      if status == 0 {
        lent := lent + [response.value];
      }
      assert Bytes(lent) == Bytes(before) + if status == 0 then [response.value.bytes] else [];
    }
    assert made[|made|..] == [];
    NoneToCome(Rust, t, k, 0, Progress(world.log, world.issued, Bytes(lent), context.Failure()));
  }

  /** Output::drop. */
  method DropOutput(world: World, pointer: Option<nat>)
    requires world.Valid() && (pointer.Some? ==> pointer.value in world.live)
    modifies world`live, world`frees, world`log
    ensures world.Valid()
    ensures world.live == old(world.live) - (if pointer.Some? then {pointer.value} else {})
    ensures world.frees == old(world.frees) + (if pointer.Some? then [pointer.value] else [])
    ensures world.log == old(world.log) + (if pointer.Some? then [Freed(pointer.value)] else [])
  {
    if pointer.Some? {
      world.Free(pointer.value);
    }
  }

  /** Everything goes out of scope, the output first and then the context. */
  method CleanUp(world: World, context: Context, pointer: Option<nat>)
    requires world.Valid() && (pointer.Some? ==> pointer.value in world.live)
    modifies world`live, world`frees, world`log, context.buffers
    ensures world.Valid()
    ensures world.log == old(world.log) + CleaningUp(Rust, pointer, 0, |context.buffers|)
    ensures world.live == old(world.live) - (if pointer.Some? then {pointer.value} else {})
    ensures world.frees == old(world.frees) + (if pointer.Some? then [pointer.value] else [])
  {
    DropOutput(world, pointer);
    ReleaseAll(world, context.buffers);
  }

  /** A host failure comes first, then a missing result, then what the result says. */
  method Conclude(world: World, context: Context, pointer: Option<nat>) returns (ending: Ending)
    requires world.Valid() && context.Valid() && (pointer.Some? ==> pointer.value in world.live)
    ensures ending == Conclusion(context.Failure(), if pointer.Some? then Some(world.contents[pointer.value]) else None,
                                 DecodeEnvelope)
  {
    hide DecodeEnvelope;
    if context.panic.Some? {
      ending := Unwound(context.panic.value);
    } else if context.error.Some? {
      ending := Err(context.error.value);
    } else if pointer.None? {
      ending := Err(Binding("Native C ABI could not allocate or encode its result"));
    } else {
      var bytes := world.Load(pointer.value);
      ending := DecodeEnvelope(bytes);
    }
  }

  /** NativeLibrary::invoke: what can be observed is the specified trace. The native result is freed
      exactly once and only when there is one, before the response buffers go, and the first host failure
      wins over whatever native code returned. */
  method Invoke(world: World, inv: Invocation) returns (ending: Ending)
    requires world.Valid()
    modifies world
    ensures ending == EndingOf(Rust, DecodeEnvelope, inv)
    ensures Advances(world, Trace(Rust, inv, 0, old(world.issued)), Results(Rust, inv))
    decreases inv, 2
  {
    hide Trace, WhileNative, Conclusion, Results, FirstFailure, Lent, MadeCalls, Bytes, DecodeEnvelope, TryCallback,
         Context.Failure;
    ghost var issued := world.issued;
    var context := new Context(inv.transport, inv.key);
    var pointer, lent := NativeInvoke(world, context, inv);
    ghost var returned := world.log;
    ending := Conclude(world, context, pointer);
    ManyLent(lent);
    CleanUp(world, context, pointer);
    assert pointer == LastResult(Rust, inv, issued);
    hide CleaningUp, LastResult, Opening;
    Assemble(Rust, inv, 0, issued, |lent|, old(world.log), old(world.log) + [], returned, world.log);
  }

  // What comes of a native result

  /** A value is returned only from an object that says so. */
  lemma ValueMeans(bytes: Text, v: Json)
    ensures DecodeEnvelope(bytes) == Ok(v)
            <==> exists members :: Read(bytes) == Some(Obj(members)) && Lookup(members, "ok") == Some(Bool(true))
                                   && Lookup(members, "value") == Some(v)
  {
    hide Read, Lookup;
  }

  lemma DecodesValue(text: Text, members: seq<Member>, v: Json)
    requires Read(text) == Some(Obj(members))
    requires Lookup(members, "ok") == Some(Bool(true)) && Lookup(members, "value") == Some(v)
    ensures DecodeEnvelope(text) == Ok(v)
  {
    hide Read, Lookup, DecodeFailure;
  }

  lemma DecodesFailure(text: Text, members: seq<Member>, code: int, message: Text, status: int, twirp: Text)
    requires Read(text) == Some(Obj(members)) && InInt32(code) && InInt32(status)
    requires Lookup(members, "ok") == Some(Bool(false)) && Lookup(members, "code") == Some(Int(code))
    requires Lookup(members, "http_status") == Some(Int(status)) && Lookup(members, "twirp_code") == Some(Str(twirp))
    requires Lookup(members, "message") == Some(Str(message))
    ensures DecodeEnvelope(text) == Err(HostError.Native(code, message, status, twirp))
  {
    hide Read, Lookup;
  }

  /** Whatever native code reports is read back as that value or that error. */
  lemma EnvelopeRoundTrip(text: Text, e: Execution)
    requires ReadsAs(text, FieldsOf(Slots(e))) && (e.SdkError? ==> InInt32(e.httpStatus))
    ensures DecodeEnvelope(text) == Reported(e)
  {
    ReadsAsObject(text, e);
    var members := Read(text).value.members;
    hide ReadsAs, Lookup, Read, FieldsOf, Ascii, DecodeEnvelope, Slots;
    match e
    case Value(v) =>
      FoundValue(text, e);
      DecodesValue(text, members, v);
    case SdkError(code, message, status, twirp) =>
      SlotsOfFailure(e);
      FoundFailure(text, e, CodeNumber(code), message, status, twirp);
      DecodesFailure(text, members, CodeNumber(code), message, status, twirp);
    case OtherError(message) =>
      SlotsOfFailure(e);
      FoundFailure(text, e, CodeNumber(Unknown), message, 0, []);
      DecodesFailure(text, members, CodeNumber(Unknown), message, 0, []);
  }

  /** The caller is handed the number of the error's category, its message, HTTP status and Twirp code. */
  lemma CallerSeesNumber(text: Text, i: nat, message: Text, status: int, twirp: Text)
    requires i < |ERROR_NUMBERS| && InInt32(status)
    requires ReadsAs(text, FieldsOf(Slots(SdkError(ERROR_NUMBERS[i].0, message, status, twirp))))
    ensures DecodeEnvelope(text) == Err(HostError.Native(ERROR_NUMBERS[i].1, message, status, twirp))
  {
    hide DecodeEnvelope, ReadsAs, FieldsOf, Slots;
    EnvelopeRoundTrip(text, SdkError(ERROR_NUMBERS[i].0, message, status, twirp));
    NumberInTable(i);
  }

  lemma ReportsNativeResult(inv: Invocation, e: Execution)
    requires e.SdkError? ==> InInt32(e.httpStatus)
    requires forall i :: 0 <= i < |inv.calls| ==> TryCallback(Rust, inv.transport, inv.key, inv.calls[i]).Replied?
    requires inv.output.Some? && ReadsAs(inv.output.value, FieldsOf(Slots(e)))
    ensures EndingOf(Rust, DecodeEnvelope, inv) == Reported(e)
  {
    hide DecodeEnvelope, Reported, ReadsAs, TryCallback;
    NoFailure(Rust, inv.transport, inv.key, MadeCalls(inv));
    EnvelopeRoundTrip(inv.output.value, e);
  }
}
