/** The PHP side of the callback protocol: one stack of contexts for all nested invocations. */
module PhpAdapter {
  import opened Text
  import opened Wrappers
  import opened Json
  import opened Claims
  import opened HostRequest
  import opened CallbackProtocol
  import opened CallbackRuns
  import opened NativeInterface
  import opened NativeMemory

  // Reading the result

  /** PHP's conversion to bool; an absent property reads as null. */
  predicate IsTruthy(v: Option<Json>) {
    match v
    case None => false
    case Some(Null) => false
    case Some(Bool(b)) => b
    case Some(Int(n)) => n != 0
    case Some(Str(s)) => s != [] && s != Ascii("0")
    case Some(Arr(items)) => items != []
    case Some(Obj(_)) => true
  }

  /** `(int)` of a number, a bool or null. */
  function ToInt(v: Option<Json>): Option<int> {
    match v
    case None => Some(0)
    case Some(Null) => Some(0)
    case Some(Bool(b)) => Some(if b then 1 else 0)
    case Some(Int(n)) => Some(n)
    case _ => None
  }

  /** The result as invoke reads it; a message or Twirp code that is no string is a TypeError. */
  function DecodeResult(bytes: Text): Ending {
    match Read(bytes)
    case None => Err(InvalidJson)
    case Some(Obj(members)) =>
      if IsTruthy(Lookup(members, "ok")) then
        (match Lookup(members, "value")
         case Some(v) => Ok(v)
         case None => Ok(Null))
      else
        (match (Lookup(members, "message"), ToInt(Lookup(members, "code")), ToInt(Lookup(members, "http_status")),
                Lookup(members, "twirp_code"))
         case (Some(Str(message)), Some(code), Some(status), Some(Str(twirp))) =>
           Err(HostError.Native(code, message, status, twirp))
         case _ => Err(WrongType))
    case Some(_) => Err(WrongType)
  }

  // The adapter

  class CallContext {
    const transport: bool
    const key: bool
    var buffers: seq<Buffer>
    var error: Option<HostError>

    ghost function Failure(): Option<Ending>
      reads this
    {
      match error case Some(e) => Some(Err(e)) case None => None
    }

    constructor (transport: bool, key: bool)
      ensures this.transport == transport && this.key == key && buffers == [] && error == None && Failure() == None
    {
      this.transport, this.key := transport, key;
      buffers, error := [], None;
    }
  }

  class NativeLibrary {
    const world: World
    /** The contexts of the invocations in progress, outermost first. */
    var calls: seq<CallContext>

    constructor (world: World)
      ensures this.world == world && calls == []
    {
      this.world, calls := world, [];
    }

    method Push(context: CallContext)
      requires world.Valid()
      modifies this, world`log
      ensures world.Valid() && calls == old(calls) + [context] && world.log == old(world.log) + [Pushed(|old(calls)|)]
    {
      world.Note(Pushed(|calls|));
      calls := calls + [context];
    }

    /** `array_pop`. */
    method Pop()
      requires world.Valid() && calls != []
      modifies this, world`log
      ensures world.Valid() && calls == old(calls)[..|old(calls)| - 1]
      ensures world.log == old(world.log) + [Popped(|calls|)]
    {
      calls := calls[..|calls| - 1];
      world.Note(Popped(|calls|));
    }

    /** The trampoline. It finds its context on top of the stack: that is always the context of the
        invocation whose native code is calling, however deeply invocations are nested. */
    method Exchange(call: Callback, ghost caller: CallContext) returns (status: int, response: Option<Buffer>)
      requires world.Valid() && calls != [] && calls[|calls| - 1] == caller && AllAlive(caller.buffers)
      modifies this, world, caller
      ensures calls == old(calls) && AllAlive(caller.buffers)
      ensures Advances(world, EntryTrace(Php, caller.transport, caller.key, call, |calls|, old(world.issued)),
                       EntryResults(Php, caller.transport, caller.key, call))
      ensures caller.Failure() == (if old(caller.Failure()).Some? then old(caller.Failure())
                                   else FailureOf(Php, caller.transport, caller.key, call))
      ensures match TryCallback(Php, caller.transport, caller.key, call)
              case Replied(bytes) =>
                status == 0 && response.Some? && fresh(response.value) && response.value.bytes == bytes
                && caller.buffers == old(caller.buffers) + [response.value]
              case _ => status == 1 && response == None && caller.buffers == old(caller.buffers)
      decreases call, 1
    {
      hide TryCallback, EntryTrace, EntryResults;
      var context := calls[|calls| - 1];
      var attempt := HostExchange(call, context.transport, context.key);
      match attempt {
        case Replied(data) =>
          var buffer := new Buffer(data);
          context.buffers := context.buffers + [buffer];
          return 0, Some(buffer);
        case Refused(error) =>
          if context.error.None? {
            context.error := Some(error);
          }
          return 1, None;
        case Panicking(_) =>
          NoPanic(call, context.transport, context.key);
          assert false;
      }
    }

    /** The try block of the trampoline, every Throwable caught; the closure may invoke this library
        again. */
    method HostExchange(call: Callback, transport: bool, key: bool) returns (a: Attempt)
      requires world.Valid()
      modifies this, world
      ensures calls == old(calls)
      ensures a == TryCallback(Php, transport, key, call)
      ensures Advances(world, EntryTrace(Php, transport, key, call, |calls|, old(world.issued)),
                       EntryResults(Php, transport, key, call))
      decreases call, 0
    {
      hide NestedTrace, NestedResults, ReplyText, RequestIn;
      var request := RequestIn(Php, call.text);
      match request {
        case Malformed => return Refused(InvalidJson);
        case TransportRequest(_, _, _, body, _) =>
          if !transport {
            return Refused(Binding("Transport callback is required"));
          }
          if body.None? {
            return Refused(Binding("Invalid base64url payload"));
          }
        case KeyRequest(_) =>
          if !key {
            return Refused(Binding("Key provider is required"));
          }
      }
      world.Note(Entered(request));
      InvokeNested(call.nested);
      match call.reply {
        case Returned(answer) => return Replied(ReplyText(Php, request, answer));
        case Failed(error) => return Refused(Thrown(error));
        case Panicked(payload) => return Refused(Thrown(payload));
      }
    }

    method InvokeNested(invs: seq<Invocation>)
      requires world.Valid()
      modifies this, world
      ensures calls == old(calls)
      ensures Advances(world, NestedTrace(Php, invs, |calls|, old(world.issued)), NestedResults(Php, invs))
      decreases invs, 3
    {
      hide Trace, Results, EndingOf;
      assert invs[0..] == invs;
      for i := 0 to |invs|
        invariant calls == old(calls) && world.Valid() && world.live == old(world.live)
        invariant world.log + NestedTrace(Php, invs[i..], |calls|, world.issued)
                  == old(world.log) + NestedTrace(Php, invs, |calls|, old(world.issued))
        invariant world.issued + NestedResults(Php, invs[i..]) == old(world.issued) + NestedResults(Php, invs)
        invariant old(world.frees) <= world.frees
        invariant |world.frees| - |old(world.frees)| == world.issued - old(world.issued)
      {
        assert invs[i..][0] == invs[i] && invs[i..][1..] == invs[i + 1..];
        var _ := Invoke(invs[i]);
      }
      assert invs[|invs|..] == [] && world.log + [] == world.log;
    }

    /** Native code makes its callbacks, failed ones or not. */
    method MakeCalls(context: CallContext, made: seq<Callback>) returns (lent: seq<Buffer>)
      requires world.Valid() && calls != [] && calls[|calls| - 1] == context
      requires context.buffers == [] && context.error == None
      modifies this, world, context
      ensures calls == old(calls)
      ensures lent == context.buffers && AllAlive(lent) && forall i :: 0 <= i < |lent| ==> fresh(lent[i])
      ensures Bytes(lent) == Lent(Php, context.transport, context.key, made)
      ensures context.Failure() == FirstFailure(Php, context.transport, context.key, made)
      ensures Advances(world, CallTrace(Php, context.transport, context.key, made, |calls|, old(world.issued)),
                       CallResults(Php, context.transport, context.key, made))
      decreases made, 2
    {
      hide FirstFailure, FailureOf, Lent, CallTrace, CallResults, EntryTrace, EntryResults, TryCallback,
           CallContext.Failure;
      var t, k := context.transport, context.key;
      ghost var d := |calls|;
      lent := [];
      NotFailed(context);
      assert made[0..] == made;
      for i := 0 to |made|
        invariant calls == old(calls) && world.Valid() && world.live == old(world.live)
        invariant lent == context.buffers && AllAlive(lent) && forall j :: 0 <= j < |lent| ==> fresh(lent[j])
        invariant old(world.frees) <= world.frees
        invariant |world.frees| - |old(world.frees)| == world.issued - old(world.issued)
        invariant ToCome(Php, t, k, d, Progress(world.log, world.issued, Bytes(lent), context.Failure()), made[i..])
                  == ToCome(Php, t, k, d, Progress(old(world.log), old(world.issued), [], None), made)
      {
        OneMore(Php, t, k, d, Progress(world.log, world.issued, Bytes(lent), context.Failure()), made, i);
        ghost var before := lent;
        LentIf(Php, t, k, made[i]);
        var status, response := Exchange(made[i], context);
        if status == 0 {
          lent := lent + [response.value];
        }
        assert Bytes(lent) == Bytes(before) + if status == 0 then [response.value.bytes] else [];
      }
      assert made[|made|..] == [];
      NoneToCome(Php, t, k, d, Progress(world.log, world.issued, Bytes(lent), context.Failure()));
    }

    /** lks_invoke as the adapter sees it: any number of callbacks, then a result or NULL. Until it
        returns, native code may read every response it was lent. */
    method NativeInvoke(context: CallContext, inv: Invocation) returns (output: Option<nat>, lent: seq<Buffer>)
      requires world.Valid() && calls != [] && calls[|calls| - 1] == context
      requires context.buffers == [] && context.error == None
      requires context.transport == inv.transport && context.key == inv.key
      modifies this, world, context
      ensures calls == old(calls)
      ensures lent == context.buffers && AllAlive(lent) && forall i :: 0 <= i < |lent| ==> fresh(lent[i])
      ensures Bytes(lent) == Lent(Php, inv.transport, inv.key, MadeCalls(inv))
      ensures context.Failure() == FirstFailure(Php, inv.transport, inv.key, MadeCalls(inv))
      ensures output.Some? <==> inv.output.Some?
      ensures world.Valid()
      ensures world.log == old(world.log) + WhileNative(Php, inv, |calls|, old(world.issued))
      ensures world.issued == old(world.issued) + Results(Php, inv)
      ensures world.live == old(world.live) + (if output.Some? then {output.value} else {})
      ensures output.Some? ==> output.value == world.issued - 1 && output.value !in old(world.live)
                               && world.contents[output.value] == inv.output.value
      ensures old(world.frees) <= world.frees
      ensures |world.frees| + (if output.Some? then 1 else 0) == |old(world.frees)| + Results(Php, inv)
      decreases inv, 1
    {
      hide FirstFailure, Lent, CallTrace, CallResults, Closing;
      NoMoreCalls(Php, inv.transport, inv.key, |calls|, world.issued);
      lent := [];
      if inv.transport || inv.key {
        lent := MakeCalls(context, inv.calls);
      }
      output := None;
      if inv.output.Some? {
        var p := world.Allocate(inv.output.value);
        output := Some(p);
      }
      var _ := LoadAll(lent);
    }

    /** An own error comes first, then a missing result, then what the result says. */
    method Conclude(context: CallContext, output: Option<nat>) returns (ending: Ending)
      requires world.Valid() && (output.Some? ==> output.value in world.live)
      ensures ending == Conclusion(context.Failure(), if output.Some? then Some(world.contents[output.value]) else None,
                                   DecodeResult)
    {
      hide DecodeResult;
      if context.error.Some? {
        ending := Err(context.error.value);
      } else if output.None? {
        ending := Err(Binding("Native C ABI could not allocate or encode its result"));
      } else {
        var bytes := world.Load(output.value);
        ending := DecodeResult(bytes);
      }
    }

    /** The finally block: the result is freed, then the context popped; its buffers go with it. */
    method CleanUp(context: CallContext, output: Option<nat>)
      requires world.Valid() && calls != [] && calls[|calls| - 1] == context
      requires output.Some? ==> output.value in world.live
      modifies this, world, context.buffers
      ensures world.Valid() && calls == old(calls)[..|old(calls)| - 1]
      ensures world.log == old(world.log) + CleaningUp(Php, output, |calls|, |context.buffers|)
      ensures world.issued == old(world.issued)
      ensures world.live == old(world.live) - (if output.Some? then {output.value} else {})
      ensures world.frees == old(world.frees) + (if output.Some? then [output.value] else [])
    {
      if output.Some? {
        world.Free(output.value);
      }
      Pop();
      ReleaseAll(world, context.buffers);
    }

    /** invoke: push, call, decode, clean up. What can be observed is the specified trace, so the result is
        freed once, before its context goes; the stack is as before on every way out, and the first error
        of this invocation's own callbacks wins. */
    method Invoke(inv: Invocation) returns (ending: Ending)
      requires world.Valid()
      modifies this, world
      ensures calls == old(calls)
      ensures ending == EndingOf(Php, DecodeResult, inv)
      ensures Advances(world, Trace(Php, inv, |calls|, old(world.issued)), Results(Php, inv))
      decreases inv, 2
    {
      hide Trace, WhileNative, Conclusion, Results, FirstFailure, Lent, MadeCalls, Bytes, DecodeResult, TryCallback,
           CallContext.Failure;
      ghost var d, issued := |calls|, world.issued;
      var context := new CallContext(inv.transport, inv.key);
      Push(context);
      ghost var inside := world.log;
      var output, lent := NativeInvoke(context, inv);
      ghost var returned := world.log;
      ending := Conclude(context, output);
      ManyLent(lent);
      CleanUp(context, output);
      assert output == LastResult(Php, inv, issued);
      hide CleaningUp, LastResult, Opening;
      Assemble(Php, inv, d, issued, |lent|, old(world.log), inside, returned, world.log);
    }
  }

  lemma NotFailed(context: CallContext)
    requires context.error == None
    ensures context.Failure() == None
  {
  }

  lemma NoPanic(call: Callback, t: bool, k: bool)
    ensures !TryCallback(Php, t, k, call).Panicking?
  {
  }

  // What comes of a native result

  /** A value is returned only from an object whose flag is true to PHP. */
  lemma ValueMeans(bytes: Text, v: Json)
    ensures DecodeResult(bytes) == Ok(v)
            <==> exists members ::
                   && Read(bytes) == Some(Obj(members)) && IsTruthy(Lookup(members, "ok"))
                   && v == if Lookup(members, "value").Some? then Lookup(members, "value").value else Null
  {
    hide Read, Lookup, IsTruthy, ToInt;
  }

  lemma DecodesValue(text: Text, members: seq<Member>, v: Json)
    requires Read(text) == Some(Obj(members))
    requires Lookup(members, "ok") == Some(Bool(true)) && Lookup(members, "value") == Some(v)
    ensures DecodeResult(text) == Ok(v)
  {
    hide Read, Lookup, ToInt;
  }

  lemma DecodesFailure(text: Text, members: seq<Member>, code: int, message: Text, status: int, twirp: Text)
    requires Read(text) == Some(Obj(members))
    requires Lookup(members, "ok") == Some(Bool(false)) && Lookup(members, "code") == Some(Int(code))
    requires Lookup(members, "http_status") == Some(Int(status)) && Lookup(members, "twirp_code") == Some(Str(twirp))
    requires Lookup(members, "message") == Some(Str(message))
    ensures DecodeResult(text) == Err(HostError.Native(code, message, status, twirp))
  {
    hide Read, Lookup;
  }

  /** Whatever native code reports is read back as that value or that error. */
  lemma ResultRoundTrip(text: Text, e: Execution)
    requires ReadsAs(text, FieldsOf(Slots(e)))
    ensures DecodeResult(text) == Reported(e)
  {
    ReadsAsObject(text, e);
    var members := Read(text).value.members;
    hide ReadsAs, Lookup, Read, FieldsOf, Ascii, DecodeResult, Slots;
    match e
    case Value(v) =>
      FoundValue(text, e);
      DecodesValue(text, members, v);
    case SdkError(code, message, status, twirp) =>
      SlotsOfFailure(e);
      FoundFailure(text, e, CodeNumber(code), message, status, twirp);
      DecodesFailure(text, members, CodeNumber(code), message, status, twirp);
    case OtherError(message) =>
      SlotsOfFailure(e);
      FoundFailure(text, e, CodeNumber(Unknown), message, 0, []);
      DecodesFailure(text, members, CodeNumber(Unknown), message, 0, []);
  }

  /** The caller is handed the number of the error's category, its message, HTTP status and Twirp code. */
  lemma CallerSeesNumber(text: Text, i: nat, message: Text, status: int, twirp: Text)
    requires i < |ERROR_NUMBERS|
    requires ReadsAs(text, FieldsOf(Slots(SdkError(ERROR_NUMBERS[i].0, message, status, twirp))))
    ensures DecodeResult(text) == Err(HostError.Native(ERROR_NUMBERS[i].1, message, status, twirp))
  {
    hide DecodeResult, ReadsAs, FieldsOf, Slots;
    ResultRoundTrip(text, SdkError(ERROR_NUMBERS[i].0, message, status, twirp));
    NumberInTable(i);
  }

  /** Without an error the caller gets exactly what native code reported. */
  lemma ReportsNativeResult(inv: Invocation, e: Execution)
    requires forall i :: 0 <= i < |inv.calls| ==> TryCallback(Php, inv.transport, inv.key, inv.calls[i]).Replied?
    requires inv.output.Some? && ReadsAs(inv.output.value, FieldsOf(Slots(e)))
    ensures EndingOf(Php, DecodeResult, inv) == Reported(e)
  {
    hide DecodeResult, Reported, ReadsAs, TryCallback;
    NoFailure(Php, inv.transport, inv.key, MadeCalls(inv));
    ResultRoundTrip(inv.output.value, e);
  }
}
