/** What the specification of the callback protocol says over any run. */
module CallbackRuns {
  import opened Text
  import opened Wrappers
  import opened HostRequest
  import opened CallbackProtocol

  // One call at a time

  lemma NoMoreCalls(host: Host, t: bool, k: bool, depth: nat, issued: nat)
    ensures FirstFailure(host, t, k, []) == None && Lent(host, t, k, []) == []
    ensures CallTrace(host, t, k, [], depth, issued) == [] && CallResults(host, t, k, []) == 0
  {
  }

  /** What the call at i adds to what the calls after it amount to. */
  lemma OneCall(host: Host, t: bool, k: bool, calls: seq<Callback>, i: nat)
    requires i < |calls|
    ensures var goesOn := GoesOn(host, t, k, calls[i]);
            && FirstFailure(host, t, k, calls[i..])
               == (if FailureOf(host, t, k, calls[i]).Some? then FailureOf(host, t, k, calls[i])
                   else FirstFailure(host, t, k, calls[i + 1..]))
            && Lent(host, t, k, calls[i..])
               == LentBy(host, t, k, calls[i]) + (if goesOn then Lent(host, t, k, calls[i + 1..]) else [])
            && CallResults(host, t, k, calls[i..])
               == EntryResults(host, t, k, calls[i]) + (if goesOn then CallResults(host, t, k, calls[i + 1..]) else 0)
  {
    hide FailureOf, LentBy, EntryResults, GoesOn;
    assert calls[i..][0] == calls[i] && calls[i..][1..] == calls[i + 1..];
  }

  lemma OneCallTrace(host: Host, t: bool, k: bool, calls: seq<Callback>, i: nat, depth: nat, issued: nat)
    requires i < |calls|
    ensures CallTrace(host, t, k, calls[i..], depth, issued)
            == EntryTrace(host, t, k, calls[i], depth, issued)
               + (if GoesOn(host, t, k, calls[i]) then
                    CallTrace(host, t, k, calls[i + 1..], depth, issued + EntryResults(host, t, k, calls[i]))
                  else [])
  {
    hide EntryTrace, EntryResults, GoesOn;
    assert calls[i..][0] == calls[i] && calls[i..][1..] == calls[i + 1..];
  }

  lemma LentIf(host: Host, t: bool, k: bool, call: Callback)
    ensures LentBy(host, t, k, call) == match TryCallback(host, t, k, call) case Replied(bytes) => [bytes] case _ => []
    ensures FailureOf(host, t, k, call).None? <==> TryCallback(host, t, k, call).Replied?
  {
  }

  // Where an invocation stands after some of its callbacks

  datatype Progress = Progress(log: seq<Event>, issued: nat, lent: seq<Text>, failure: Option<Ending>)

  /** What it will come to with the callbacks still to be made. */
  function ToCome(host: Host, t: bool, k: bool, depth: nat, now: Progress, rest: seq<Callback>): Progress {
    if host.Rust? && now.failure.Some? then now
    else
      Progress(now.log + CallTrace(host, t, k, rest, depth, now.issued), now.issued + CallResults(host, t, k, rest),
               now.lent + Lent(host, t, k, rest),
               if now.failure.Some? then now.failure else FirstFailure(host, t, k, rest))
  }

  /** Where one callback takes it. */
  function After(host: Host, t: bool, k: bool, depth: nat, now: Progress, call: Callback): Progress {
    if host.Rust? && now.failure.Some? then now
    else
      Progress(now.log + EntryTrace(host, t, k, call, depth, now.issued), now.issued + EntryResults(host, t, k, call),
               now.lent + LentBy(host, t, k, call),
               if now.failure.Some? then now.failure else FailureOf(host, t, k, call))
  }

  lemma ToComeParts(host: Host, t: bool, k: bool, depth: nat, now: Progress, rest: seq<Callback>)
    requires host.Php? || now.failure.None?
    ensures var end := ToCome(host, t, k, depth, now, rest);
            && end.log == now.log + CallTrace(host, t, k, rest, depth, now.issued)
            && end.issued == now.issued + CallResults(host, t, k, rest)
            && end.lent == now.lent + Lent(host, t, k, rest)
            && end.failure == if now.failure.Some? then now.failure else FirstFailure(host, t, k, rest)
  {
    hide FirstFailure, Lent, CallTrace, CallResults;
  }

  lemma AfterParts(host: Host, t: bool, k: bool, depth: nat, now: Progress, call: Callback)
    requires host.Php? || now.failure.None?
    ensures var next := After(host, t, k, depth, now, call);
            && next.log == now.log + EntryTrace(host, t, k, call, depth, now.issued)
            && next.issued == now.issued + EntryResults(host, t, k, call)
            && next.lent == now.lent + LentBy(host, t, k, call)
            && next.failure == if now.failure.Some? then now.failure else FailureOf(host, t, k, call)
  {
    hide FailureOf, LentBy, EntryTrace, EntryResults;
  }

  lemma Stopped(t: bool, k: bool, depth: nat, now: Progress, rest: seq<Callback>)
    requires now.failure.Some?
    ensures ToCome(Rust, t, k, depth, now, rest) == now
    ensures rest != [] ==> After(Rust, t, k, depth, now, rest[0]) == now
  {
    hide FirstFailure, FailureOf, Lent, LentBy, CallTrace, EntryTrace, CallResults, EntryResults;
  }

  lemma OneMore(host: Host, t: bool, k: bool, depth: nat, now: Progress, calls: seq<Callback>, i: nat)
    requires i < |calls|
    ensures ToCome(host, t, k, depth, now, calls[i..])
            == ToCome(host, t, k, depth, After(host, t, k, depth, now, calls[i]), calls[i + 1..])
  {
    hide FirstFailure, FailureOf, Lent, LentBy, CallTrace, EntryTrace, CallResults, EntryResults, GoesOn, ToCome, After;
    var next := After(host, t, k, depth, now, calls[i]);
    if host.Rust? && now.failure.Some? {
      assert calls[i..][0] == calls[i];
      Stopped(t, k, depth, now, calls[i..]);
      Stopped(t, k, depth, now, calls[i + 1..]);
    } else {
      ToComeParts(host, t, k, depth, now, calls[i..]);
      AfterParts(host, t, k, depth, now, calls[i]);
      GoesOnIf(host, t, k, calls[i]);
      OneCall(host, t, k, calls, i);
      OneCallTrace(host, t, k, calls, i, depth, now.issued);
      if GoesOn(host, t, k, calls[i]) {
        ToComeParts(host, t, k, depth, next, calls[i + 1..]);
        Regroup(now.log, EntryTrace(host, t, k, calls[i], depth, now.issued),
                CallTrace(host, t, k, calls[i + 1..], depth, next.issued));
        Regroup(now.lent, LentBy(host, t, k, calls[i]), Lent(host, t, k, calls[i + 1..]));
      } else {
        Stopped(t, k, depth, next, calls[i + 1..]);
        Nothing(EntryTrace(host, t, k, calls[i], depth, now.issued));
        Nothing(LentBy(host, t, k, calls[i]));
      }
    }
  }

  lemma Regroup<T>(a: seq<T>, b: seq<T>, c: seq<T>)
    ensures a + (b + c) == (a + b) + c
  {
  }

  lemma Nothing<T>(a: seq<T>)
    ensures a + [] == a
  {
  }

  lemma GoesOnIf(host: Host, t: bool, k: bool, call: Callback)
    ensures GoesOn(host, t, k, call) <==> host.Php? || FailureOf(host, t, k, call).None?
  {
  }

  lemma NoneToCome(host: Host, t: bool, k: bool, depth: nat, now: Progress)
    ensures ToCome(host, t, k, depth, now, []) == now
  {
    NoMoreCalls(host, t, k, depth, now.issued);
    hide FirstFailure, Lent, CallTrace, CallResults;
  }

  // Which failure is reported

  /** The first failure is the one reported, whatever comes after it. */
  lemma {:induction false} FirstOfAll(host: Host, t: bool, k: bool, before: seq<Callback>, bad: Callback,
                                      after: seq<Callback>)
    requires forall i :: 0 <= i < |before| ==> TryCallback(host, t, k, before[i]).Replied?
    requires !TryCallback(host, t, k, bad).Replied?
    ensures FirstFailure(host, t, k, before + [bad] + after) == FailureOf(host, t, k, bad)
    ensures FailureOf(host, t, k, bad).Some?
    decreases |before|
  {
    hide TryCallback;
    if before != [] {
      assert (before + [bad] + after)[1..] == before[1..] + [bad] + after;
      FirstOfAll(host, t, k, before[1..], bad, after);
    }
  }

  /** A host failure is reported ahead of anything native code returned, an envelope, garbage or NULL. */
  lemma HostFailureWins(host: Host, decode: Text -> Ending, inv: Invocation, before: seq<Callback>, bad: Callback,
                        after: seq<Callback>)
    requires inv.transport || inv.key
    requires inv.calls == before + [bad] + after
    requires forall i :: 0 <= i < |before| ==> TryCallback(host, inv.transport, inv.key, before[i]).Replied?
    requires !TryCallback(host, inv.transport, inv.key, bad).Replied?
    ensures EndingOf(host, decode, inv)
            == match TryCallback(host, inv.transport, inv.key, bad)
               case Refused(error) => Err(error)
               case Panicking(payload) => Unwound(payload)
               case Replied(_) => EndingOf(host, decode, inv)
  {
    hide TryCallback;
    FirstOfAll(host, inv.transport, inv.key, before, bad, after);
  }

  /** Host code is entered for every one of these callbacks, and answers. */
  predicate AllAnswered(host: Host, t: bool, k: bool, calls: seq<Callback>) {
    forall i :: 0 <= i < |calls| ==> Enters(host, t, k, calls[i]) && calls[i].reply.Returned?
  }

  lemma AnsweredReplied(host: Host, t: bool, k: bool, calls: seq<Callback>)
    requires AllAnswered(host, t, k, calls)
    ensures forall i :: 0 <= i < |calls| ==> TryCallback(host, t, k, calls[i]).Replied?
  {
    hide Enters, ReplyText;
  }

  /** How an invocation ends whose first callback not to answer reaches host code, whatever comes after it
      and whatever native code returns: an error is returned as that error; a panic goes on unwinding from
      Rust, and PHP returns the exception like any other. */
  lemma EndsByReply(host: Host, decode: Text -> Ending, inv: Invocation, before: seq<Callback>, bad: Callback,
                    after: seq<Callback>)
    requires inv.transport || inv.key
    requires inv.calls == before + [bad] + after
    requires AllAnswered(host, inv.transport, inv.key, before) && Enters(host, inv.transport, inv.key, bad)
    ensures bad.reply.Failed? ==> EndingOf(host, decode, inv) == Err(Thrown(bad.reply.error))
    ensures bad.reply.Panicked? && host == Rust ==> EndingOf(host, decode, inv) == Unwound(bad.reply.payload)
    ensures bad.reply.Panicked? && host == Php ==> EndingOf(host, decode, inv) == Err(Thrown(bad.reply.payload))
  {
    if !bad.reply.Returned? {
      AnsweredReplied(host, inv.transport, inv.key, before);
      hide Enters, ReplyText, EndingOf;
      HostFailureWins(host, decode, inv, before, bad, after);
    }
  }

  /** How it ends when the request holds what the host can read, but its callback was not supplied. */
  lemma EndsUnsupplied(host: Host, decode: Text -> Ending, inv: Invocation, before: seq<Callback>, bad: Callback,
                       after: seq<Callback>)
    requires inv.transport || inv.key
    requires inv.calls == before + [bad] + after && AllAnswered(host, inv.transport, inv.key, before)
    ensures RequestIn(host, bad.text).TransportRequest? && !inv.transport
            ==> EndingOf(host, decode, inv) == Err(Binding("Transport callback is required"))
    ensures RequestIn(host, bad.text).KeyRequest? && !inv.key
            ==> EndingOf(host, decode, inv) == Err(Binding("Key provider is required"))
    ensures RequestIn(host, bad.text).Malformed? ==> EndingOf(host, decode, inv) == Err(InvalidJson)
  {
    AnsweredReplied(host, inv.transport, inv.key, before);
    hide ReplyText, EndingOf, RequestIn;
    if !TryCallback(host, inv.transport, inv.key, bad).Replied? {
      HostFailureWins(host, decode, inv, before, bad, after);
    }
  }

  /** When every callback answers, the result decides: a missing one is an error, another is decoded. */
  lemma EndsByResult(host: Host, decode: Text -> Ending, inv: Invocation)
    requires AllAnswered(host, inv.transport, inv.key, inv.calls)
    ensures inv.output.None?
            ==> EndingOf(host, decode, inv) == Err(Binding("Native C ABI could not allocate or encode its result"))
    ensures inv.output.Some? ==> EndingOf(host, decode, inv) == decode(inv.output.value)
  {
    AnsweredReplied(host, inv.transport, inv.key, inv.calls);
    hide TryCallback, Enters;
    NoFailure(host, inv.transport, inv.key, MadeCalls(inv));
  }

  lemma {:induction false} NoFailure(host: Host, t: bool, k: bool, calls: seq<Callback>)
    requires forall i :: 0 <= i < |calls| ==> TryCallback(host, t, k, calls[i]).Replied?
    ensures FirstFailure(host, t, k, calls) == None
    decreases |calls|
  {
    if calls != [] {
      NoFailure(host, t, k, calls[1..]);
    }
  }

  /** In Rust the callbacks after the first failure are as if they had never been made. */
  lemma {:induction false} NothingAfterFailure(t: bool, k: bool, before: seq<Callback>, bad: Callback,
                                               after: seq<Callback>, issued: nat)
    requires forall i :: 0 <= i < |before| ==> TryCallback(Rust, t, k, before[i]).Replied?
    requires !TryCallback(Rust, t, k, bad).Replied?
    ensures CallTrace(Rust, t, k, before + [bad] + after, 0, issued) == CallTrace(Rust, t, k, before + [bad], 0, issued)
    ensures Lent(Rust, t, k, before + [bad] + after) == Lent(Rust, t, k, before)
    decreases |before|
  {
    hide TryCallback, FirstFailure, CallTrace, Lent, CallResults, EntryTrace, EntryResults;
    var calls := before + [bad] + after;
    var some := before + [bad];
    assert calls[0..] == calls && some[0..] == some && before[0..] == before;
    OneCall(Rust, t, k, calls, 0);
    OneCallTrace(Rust, t, k, calls, 0, 0, issued);
    OneCall(Rust, t, k, some, 0);
    OneCallTrace(Rust, t, k, some, 0, 0, issued);
    if before == [] {
      assert calls[0] == bad && some[0] == bad;
      NoMoreCalls(Rust, t, k, 0, issued);
    } else {
      assert calls[0] == before[0] && some[0] == before[0];
      OneCall(Rust, t, k, before, 0);
      assert calls[1..] == before[1..] + [bad] + after && some[1..] == before[1..] + [bad];
      NothingAfterFailure(t, k, before[1..], bad, after, issued + EntryResults(Rust, t, k, before[0]));
    }
  }

  /** In PHP they are made as ever: host code is entered for them, and their answers are lent. */
  lemma {:induction false} GoesOnAfterFailure(t: bool, k: bool, before: seq<Callback>, after: seq<Callback>, depth: nat,
                                              issued: nat)
    ensures var n := CallResults(Php, t, k, before);
            CallTrace(Php, t, k, before + after, depth, issued)
            == CallTrace(Php, t, k, before, depth, issued) + CallTrace(Php, t, k, after, depth, issued + n)
    ensures Lent(Php, t, k, before + after) == Lent(Php, t, k, before) + Lent(Php, t, k, after)
    decreases |before|
  {
    NoMoreCalls(Php, t, k, depth, issued);
    hide *;
    if before == [] {
      assert before + after == after;
    } else {
      var calls, rest, n := before + after, before[1..], EntryResults(Php, t, k, before[0]);
      assert calls[1..] == rest + after && calls[0] == before[0];
      FirstInPhp(t, k, calls, depth, issued);
      FirstInPhp(t, k, before, depth, issued);
      GoesOnAfterFailure(t, k, rest, after, depth, issued + n);
      Regroup(EntryTrace(Php, t, k, before[0], depth, issued), CallTrace(Php, t, k, rest, depth, issued + n),
              CallTrace(Php, t, k, after, depth, issued + n + CallResults(Php, t, k, rest)));
      Regroup(LentBy(Php, t, k, before[0]), Lent(Php, t, k, rest), Lent(Php, t, k, after));
    }
  }

  lemma FirstInPhp(t: bool, k: bool, calls: seq<Callback>, depth: nat, issued: nat)
    requires calls != []
    ensures var n := EntryResults(Php, t, k, calls[0]);
            && CallTrace(Php, t, k, calls, depth, issued)
               == EntryTrace(Php, t, k, calls[0], depth, issued) + CallTrace(Php, t, k, calls[1..], depth, issued + n)
            && Lent(Php, t, k, calls) == LentBy(Php, t, k, calls[0]) + Lent(Php, t, k, calls[1..])
            && CallResults(Php, t, k, calls) == n + CallResults(Php, t, k, calls[1..])
  {
    hide *;
    assert calls[0..] == calls;
    OneCall(Php, t, k, calls, 0);
    OneCallTrace(Php, t, k, calls, 0, depth, issued);
    PhpGoesOn(t, k, calls[0]);
  }

  lemma PhpGoesOn(t: bool, k: bool, call: Callback)
    ensures GoesOn(Php, t, k, call)
  {
    hide TryCallback;
  }

  // The trace of one invocation, piece by piece

  function Opening(host: Host, depth: nat): seq<Event> {
    if host.Php? then [Pushed(depth)] else []
  }

  /** The result is freed, then the context popped, then its buffers go. */
  function CleaningUp(host: Host, result: Option<nat>, depth: nat, buffers: nat): seq<Event> {
    (if result.Some? then [Freed(result.value)] else [])
    + (if host.Php? then [Popped(depth)] else [])
    + [Released(buffers)]
  }

  /** The result, when there is one, is the last pointer allocated. */
  function LastResult(host: Host, inv: Invocation, issued: nat): (p: Option<nat>)
    ensures p.Some? <==> inv.output.Some?
  {
    ResultsOf(host, inv);
    if inv.output.Some? then Some(issued + Results(host, inv) - 1) else None
  }

  lemma ClosingIs(host: Host, inv: Invocation, depth: nat, issued: nat, buffers: nat)
    requires buffers == |Lent(host, inv.transport, inv.key, MadeCalls(inv))|
    ensures Closing(host, inv, depth, issued) == CleaningUp(host, LastResult(host, inv, issued), depth, buffers)
  {
    hide Results, Lent;
  }

  lemma TraceIs(host: Host, inv: Invocation, depth: nat, issued: nat)
    ensures Trace(host, inv, depth, issued)
            == Opening(host, depth) + WhileNative(host, inv, Deeper(host, depth), issued)
               + Closing(host, inv, depth, issued)
  {
    hide WhileNative, Closing;
  }

  /** The callbacks native code makes. */
  function Callbacks(host: Host, inv: Invocation, depth: nat, issued: nat): seq<Event> {
    if inv.transport || inv.key then CallTrace(host, inv.transport, inv.key, inv.calls, depth, issued) else []
  }

  /** The result native code returns. */
  function ResultGiven(host: Host, inv: Invocation, issued: nat): seq<Event> {
    match LastResult(host, inv, issued) case Some(p) => [Allocated(p)] case None => []
  }

  lemma WhileNativeIs(host: Host, inv: Invocation, depth: nat, issued: nat)
    ensures WhileNative(host, inv, depth, issued)
            == Callbacks(host, inv, depth, issued) + ResultGiven(host, inv, issued)
  {
    hide CallTrace, Results;
  }

  lemma Append3<T>(log: seq<T>, a: seq<T>, b: seq<T>, c: seq<T>)
    ensures log + a + b + c == log + (a + b + c)
  {
  }

  /** The log when an invocation starts, once its context is there, when native code has returned and
      when everything is cleaned up. */
  lemma Assemble(host: Host, inv: Invocation, depth: nat, issued: nat, buffers: nat,
                 start: seq<Event>, inside: seq<Event>, returned: seq<Event>, end: seq<Event>)
    requires buffers == |Lent(host, inv.transport, inv.key, MadeCalls(inv))|
    requires inside == start + Opening(host, depth)
    requires returned == inside + WhileNative(host, inv, Deeper(host, depth), issued)
    requires end == returned + CleaningUp(host, LastResult(host, inv, issued), depth, buffers)
    ensures end == start + Trace(host, inv, depth, issued)
  {
    hide WhileNative, Results, Lent, CleaningUp, LastResult, Closing, Trace, Opening, MadeCalls, Deeper;
    TraceIs(host, inv, depth, issued);
    ClosingIs(host, inv, depth, issued, buffers);
    Append3(start, Opening(host, depth), WhileNative(host, inv, Deeper(host, depth), issued),
            Closing(host, inv, depth, issued));
  }

  /** How the trace of an invocation ends: the result is allocated and freed, then the context popped in
      PHP, and the response buffers go last. */
  lemma TraceEnds(host: Host, inv: Invocation, depth: nat, issued: nat)
    requires inv.output.Some?
    ensures var p := issued + Results(host, inv) - 1;
            var n := |Lent(host, inv.transport, inv.key, MadeCalls(inv))|;
            exists before :: Trace(host, inv, depth, issued)
              == before + [Allocated(p), Freed(p)] + (if host == Php then [Popped(depth)] else []) + [Released(n)]
  {
    var n := |Lent(host, inv.transport, inv.key, MadeCalls(inv))|;
    LastResultIs(host, inv, issued);
    TraceIs(host, inv, depth, issued);
    WhileNativeIs(host, inv, Deeper(host, depth), issued);
    ClosingIs(host, inv, depth, issued, n);
    hide Trace, WhileNative, Closing, Results, Lent, LastResult, Opening, Callbacks, MadeCalls, Deeper;
    var p := issued + Results(host, inv) - 1;
    var before := Opening(host, depth) + Callbacks(host, inv, Deeper(host, depth), issued);
    EndsGrouped(Opening(host, depth), Callbacks(host, inv, Deeper(host, depth), issued), [Allocated(p)], [Freed(p)],
                if host == Php then [Popped(depth)] else [], [Released(n)]);
    assert [Allocated(p)] + [Freed(p)] == [Allocated(p), Freed(p)];
  }

  lemma EndsGrouped<T>(a: seq<T>, b: seq<T>, c: seq<T>, d: seq<T>, e: seq<T>, f: seq<T>)
    ensures a + (b + c) + (d + e + f) == (a + b) + (c + d) + e + f
  {
  }

  // What is freed

  /** The pointers freed, in order. */
  function FreedIn(events: seq<Event>): seq<nat> {
    if events == [] then []
    else FreedIn(events[..|events| - 1])
         + match events[|events| - 1] case Freed(pointer) => [pointer] case _ => []
  }

  function Range(from: nat, n: nat): (r: seq<nat>)
    ensures |r| == n && forall i :: 0 <= i < n ==> r[i] == from + i
  {
    seq(n, i => from + i)
  }

  lemma {:induction false} FreedAppend(a: seq<Event>, b: seq<Event>)
    ensures FreedIn(a + b) == FreedIn(a) + FreedIn(b)
    decreases |b|
  {
    if b == [] {
      assert a + b == a;
    } else {
      assert (a + b)[..|a + b| - 1] == a + b[..|b| - 1];
      FreedAppend(a, b[..|b| - 1]);
    }
  }

  lemma FreedOne(e: Event)
    ensures FreedIn([e]) == match e case Freed(pointer) => [pointer] case _ => []
  {
    assert [e][..0] == [];
  }

  lemma RangeAppend(from: nat, m: nat, n: nat)
    ensures Range(from, m) + Range(from + m, n) == Range(from, m + n)
  {
  }

  lemma FreedAtEnd(host: Host, inv: Invocation, depth: nat, issued: nat)
    ensures FreedIn(Closing(host, inv, depth, issued))
            == if inv.output.Some? then [issued + Results(host, inv) - 1] else []
  {
    var n := |Lent(host, inv.transport, inv.key, MadeCalls(inv))|;
    LastResultIs(host, inv, issued);
    hide *;
    ClosingIs(host, inv, depth, issued, n);
    FreedCleaningUp(host, LastResult(host, inv, issued), depth, n);
  }

  lemma LastResultIs(host: Host, inv: Invocation, issued: nat)
    ensures inv.output.Some? ==> LastResult(host, inv, issued) == Some(issued + Results(host, inv) - 1)
  {
    hide Results;
  }

  lemma FreedCleaningUp(host: Host, result: Option<nat>, depth: nat, buffers: nat)
    ensures FreedIn(CleaningUp(host, result, depth, buffers)) == if result.Some? then [result.value] else []
  {
    hide FreedIn;
    var freed := if result.Some? then [Freed(result.value)] else [];
    var popped := if host.Php? then [Popped(depth)] else [];
    FreedAppend(freed + popped, [Released(buffers)]);
    FreedAppend(freed, popped);
    FreedOne(if result.Some? then Freed(result.value) else Released(buffers));
    FreedOne(Popped(depth));
    FreedOne(Released(buffers));
    FreedNothing();
  }

  lemma FreedNothing()
    ensures FreedIn([]) == []
  {
  }

  /** Over any tree of invocations every result is freed exactly once: the pointers freed are the ones
      allocated, one after the other. */
  lemma {:induction false} FreedOnce(host: Host, inv: Invocation, depth: nat, issued: nat)
    ensures FreedIn(Trace(host, inv, depth, issued)) == Range(issued, Results(host, inv))
    decreases inv, 1
  {
    hide FreedIn, CallTrace, CallResults, Closing, Results;
    var opening := if host.Php? then [Pushed(depth)] else [];
    var inner := WhileNative(host, inv, Deeper(host, depth), issued);
    FreedAppend(opening + inner, Closing(host, inv, depth, issued));
    FreedAppend(opening, inner);
    FreedOne(Pushed(depth));
    FreedNothing();
    FreedAtEnd(host, inv, depth, issued);
    ResultsOf(host, inv);
    WhileNativeIs(host, inv, Deeper(host, depth), issued);
    hide WhileNative;
    FreedAppend(Callbacks(host, inv, Deeper(host, depth), issued), ResultGiven(host, inv, issued));
    FreedOne(Allocated(if inv.output.Some? then issued + Results(host, inv) - 1 else 0));
    if inv.transport || inv.key {
      FreedByCalls(host, inv.transport, inv.key, inv.calls, Deeper(host, depth), issued);
    }
  }

  lemma ResultsOf(host: Host, inv: Invocation)
    ensures Results(host, inv)
            == (if inv.transport || inv.key then CallResults(host, inv.transport, inv.key, inv.calls) else 0)
               + if inv.output.Some? then 1 else 0
  {
  }

  lemma {:induction false} FreedByCalls(host: Host, t: bool, k: bool, calls: seq<Callback>, depth: nat, issued: nat)
    ensures FreedIn(CallTrace(host, t, k, calls, depth, issued)) == Range(issued, CallResults(host, t, k, calls))
    decreases calls, 0
  {
    NoMoreCalls(host, t, k, depth, issued);
    FreedNothing();
    hide *;
    if calls == [] {
      NoRange(issued);
    } else {
      assert calls[0..] == calls;
      OneCall(host, t, k, calls, 0);
      OneCallTrace(host, t, k, calls, 0, depth, issued);
      FreedByEntry(host, t, k, calls[0], depth, issued);
      var n := EntryResults(host, t, k, calls[0]);
      var one := EntryTrace(host, t, k, calls[0], depth, issued);
      if GoesOn(host, t, k, calls[0]) {
        FreedAppend(one, CallTrace(host, t, k, calls[1..], depth, issued + n));
        FreedByCalls(host, t, k, calls[1..], depth, issued + n);
        RangeAppend(issued, n, CallResults(host, t, k, calls[1..]));
      } else {
        FreedAppend(one, []);
        Nothing(Range(issued, n));
      }
    }
  }

  lemma NoRange(from: nat)
    ensures Range(from, 0) == []
  {
  }

  lemma {:induction false} FreedByEntry(host: Host, t: bool, k: bool, call: Callback, depth: nat, issued: nat)
    ensures FreedIn(EntryTrace(host, t, k, call, depth, issued)) == Range(issued, EntryResults(host, t, k, call))
    decreases call, 0
  {
    hide FreedIn, NestedTrace, NestedResults, Enters;
    FreedNothing();
    if Enters(host, t, k, call) {
      FreedOne(Entered(RequestIn(host, call.text)));
      FreedAppend([Entered(RequestIn(host, call.text))], NestedTrace(host, call.nested, depth, issued));
      FreedNested(host, call.nested, depth, issued);
    }
  }

  lemma {:induction false} FreedNested(host: Host, invs: seq<Invocation>, depth: nat, issued: nat)
    ensures FreedIn(NestedTrace(host, invs, depth, issued)) == Range(issued, NestedResults(host, invs))
    decreases invs, 0
  {
    hide FreedIn, Trace, Results, Range;
    FreedNothing();
    if invs != [] {
      var n := Results(host, invs[0]);
      FreedOnce(host, invs[0], depth, issued);
      FreedNested(host, invs[1..], depth, issued + n);
      FreedAppend(Trace(host, invs[0], depth, issued), NestedTrace(host, invs[1..], depth, issued + n));
      RangeAppend(issued, n, NestedResults(host, invs[1..]));
    }
  }

  // The stack of contexts

  /** How far an invocation is: its native code is running, has returned a result, or that was freed. */
  datatype Stage = Running | Holding(pointer: nat) | Done

  function Top(stack: seq<Stage>): Stage
    requires stack != []
  {
    stack[|stack| - 1]
  }

  function Below(stack: seq<Stage>): seq<Stage>
    requires stack != []
  {
    stack[..|stack| - 1]
  }

  /** Native code on top is running, or there is none. */
  predicate Ready(stack: seq<Stage>) {
    stack == [] || Top(stack) == Running
  }

  /** The contexts on PHP's stack, outermost first, each with how far its invocation is. None when an
      event breaks the discipline. */
  function Walk(stack: Option<seq<Stage>>, events: seq<Event>): Option<seq<Stage>> {
    if events == [] then stack
    else
      var before :- Walk(stack, events[..|events| - 1]);
      WalkOne(before, events[|events| - 1])
  }

  /** A context is pushed at its depth, and only while native code below it is running. Host code is
      entered, and a result returned, only while the native code on top is running. A result is freed in
      the context it was returned in; a context is popped from the top, and never with its result
      unfreed. */
  function WalkOne(stack: seq<Stage>, e: Event): Option<seq<Stage>> {
    match e
    case Pushed(depth) => if |stack| == depth && Ready(stack) then Some(stack + [Running]) else None
    case Entered(_) => if stack != [] && Top(stack) == Running then Some(stack) else None
    case Allocated(p) => if stack != [] && Top(stack) == Running then Some(Below(stack) + [Holding(p)]) else None
    case Freed(p) => if stack != [] && Top(stack) == Holding(p) then Some(Below(stack) + [Done]) else None
    case Popped(depth) => if |stack| == depth + 1 && !Top(stack).Holding? then Some(Below(stack)) else None
    case Released(_) => Some(stack)
  }

  lemma {:induction false} WalkAppend(stack: Option<seq<Stage>>, a: seq<Event>, b: seq<Event>)
    ensures Walk(stack, a + b) == Walk(Walk(stack, a), b)
    decreases |b|
  {
    hide WalkOne;
    if b == [] {
      assert a + b == a;
    } else {
      assert (a + b)[..|a + b| - 1] == a + b[..|b| - 1];
      WalkAppend(stack, a, b[..|b| - 1]);
    }
  }

  lemma WalkStep(stack: seq<Stage>, e: Event)
    ensures Walk(Some(stack), [e]) == WalkOne(stack, e) && Walk(Some(stack), []) == Some(stack)
  {
    hide WalkOne;
    assert [e][..0] == [];
  }

  /** Every PHP run keeps the stack discipline: contexts are pushed and popped in order, host code runs
      in the context on top, and the result an invocation returns is freed in its own context, after all
      invocations nested in it are over and before its context is popped. */
  lemma {:induction false} WellNested(inv: Invocation, stack: seq<Stage>, issued: nat)
    requires Ready(stack)
    ensures Walk(Some(stack), Trace(Php, inv, |stack|, issued)) == Some(stack)
    decreases inv, 1
  {
    hide Walk, Callbacks, CallTrace, Closing, WhileNative;
    var d := |stack|;
    TraceIs(Php, inv, d, issued);
    WhileNativeIs(Php, inv, d + 1, issued);
    WalkAppend(Some(stack), [Pushed(d)] + WhileNative(Php, inv, d + 1, issued), Closing(Php, inv, d, issued));
    WalkAppend(Some(stack), [Pushed(d)], WhileNative(Php, inv, d + 1, issued));
    WalkStep(stack, Pushed(d));
    WalkAppend(Some(stack + [Running]), Callbacks(Php, inv, d + 1, issued), ResultGiven(Php, inv, issued));
    WalkCallbacks(inv, stack + [Running], issued);
    WalkResult(inv, stack, issued);
    WalkClosing(inv, stack, issued);
  }

  /** After its native code returned, the invocation holds its result, if there is one. */
  function Returned(host: Host, inv: Invocation, issued: nat): Stage {
    match LastResult(host, inv, issued) case Some(p) => Holding(p) case None => Running
  }

  lemma WalkResult(inv: Invocation, stack: seq<Stage>, issued: nat)
    ensures Walk(Some(stack + [Running]), ResultGiven(Php, inv, issued)) == Some(stack + [Returned(Php, inv, issued)])
  {
    hide Walk, Results;
    var p := LastResult(Php, inv, issued);
    WalkStep(stack + [Running], if p.Some? then Allocated(p.value) else Released(0));
    assert Below(stack + [Running]) == stack;
  }

  lemma WalkClosing(inv: Invocation, stack: seq<Stage>, issued: nat)
    ensures Walk(Some(stack + [Returned(Php, inv, issued)]), Closing(Php, inv, |stack|, issued)) == Some(stack)
  {
    hide Walk, Closing, Lent, Results;
    var n, d := |Lent(Php, inv.transport, inv.key, MadeCalls(inv))|, |stack|;
    var p := LastResult(Php, inv, issued);
    ClosingIs(Php, inv, d, issued, n);
    hide LastResult;
    var freed := if p.Some? then [Freed(p.value)] else [];
    var start, freedStage := stack + [Returned(Php, inv, issued)], if p.Some? then Done else Running;
    WalkAppend(Some(start), freed + [Popped(d)], [Released(n)]);
    WalkAppend(Some(start), freed, [Popped(d)]);
    WalkStep(start, if p.Some? then Freed(p.value) else Released(0));
    assert Below(start) == stack && Below(stack + [freedStage]) == stack;
    WalkStep(stack + [freedStage], Popped(d));
    WalkStep(stack, Released(n));
  }

  lemma {:induction false} WalkCallbacks(inv: Invocation, stack: seq<Stage>, issued: nat)
    requires stack != [] && Ready(stack)
    ensures Walk(Some(stack), Callbacks(Php, inv, |stack|, issued)) == Some(stack)
    decreases inv, 0
  {
    hide Walk, CallTrace;
    WalkStep(stack, Released(0));
    if inv.transport || inv.key {
      WalkCalls(inv.transport, inv.key, inv.calls, stack, issued);
    }
  }

  lemma {:induction false} WalkCalls(t: bool, k: bool, calls: seq<Callback>, stack: seq<Stage>, issued: nat)
    requires stack != [] && Ready(stack)
    ensures Walk(Some(stack), CallTrace(Php, t, k, calls, |stack|, issued)) == Some(stack)
    decreases calls, 0
  {
    hide Walk, CallTrace, CallResults, NestedTrace, NestedResults, Enters;
    var d := |stack|;
    NoMoreCalls(Php, t, k, d, issued);
    WalkStep(stack, Pushed(d));
    if calls != [] {
      assert calls[0..] == calls;
      OneCallTrace(Php, t, k, calls, 0, d, issued);
      WalkEntry(t, k, calls[0], stack, issued);
      var n := EntryResults(Php, t, k, calls[0]);
      var one := EntryTrace(Php, t, k, calls[0], d, issued);
      hide EntryTrace, EntryResults;
      WalkAppend(Some(stack), one, CallTrace(Php, t, k, calls[1..], d, issued + n));
      WalkCalls(t, k, calls[1..], stack, issued + n);
    }
  }

  lemma {:induction false} WalkEntry(t: bool, k: bool, call: Callback, stack: seq<Stage>, issued: nat)
    requires stack != [] && Ready(stack)
    ensures Walk(Some(stack), EntryTrace(Php, t, k, call, |stack|, issued)) == Some(stack)
    decreases call, 0
  {
    hide Walk, NestedTrace, Enters;
    WalkStep(stack, Entered(RequestIn(Php, call.text)));
    if Enters(Php, t, k, call) {
      WalkAppend(Some(stack), [Entered(RequestIn(Php, call.text))], NestedTrace(Php, call.nested, |stack|, issued));
      WalkNested(call.nested, stack, issued);
    }
  }

  lemma {:induction false} WalkNested(invs: seq<Invocation>, stack: seq<Stage>, issued: nat)
    requires Ready(stack)
    ensures Walk(Some(stack), NestedTrace(Php, invs, |stack|, issued)) == Some(stack)
    decreases invs, 0
  {
    hide Walk, Trace, Results;
    WalkStep(stack, Pushed(0));
    if invs != [] {
      var n := Results(Php, invs[0]);
      WalkAppend(Some(stack), Trace(Php, invs[0], |stack|, issued), NestedTrace(Php, invs[1..], |stack|, issued + n));
      WellNested(invs[0], stack, issued);
      WalkNested(invs[1..], stack, issued + n);
    }
  }
}
