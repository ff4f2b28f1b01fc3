/** The native end of the callback protocol: every ending of an operation becomes one result object. */
module NativeInterface {
  import opened Text
  import opened Wrappers
  import opened Json
  import opened JsonRoundTrip
  import opened Claims
  import opened CallbackProtocol

  const INT_MAX: int := 0x7FFF_FFFF

  predicate InInt32(n: int) {
    -0x8000_0000 <= n <= INT_MAX
  }

  /** How the operation itself ends inside lks_invoke: a value, an SDK error, or another exception. */
  datatype Execution =
    | Value(v: Json)
    | SdkError(code: ErrorCode, message: Text, httpStatus: int, twirpCode: Text)
    | OtherError(message: Text)

  function CodeNumber(code: ErrorCode): int {
    match code
    case InvalidArgument => 0
    case Authentication => 1
    case Transport => 2
    case Http => 3
    case Protocol => 4
    case Unsupported => 5
    case Unknown => 255
  }

  /** What the host should see of an execution. */
  function Reported(e: Execution): Ending {
    match e
    case Value(v) => Ok(v)
    case SdkError(code, message, status, twirp) => Err(HostError.Native(CodeNumber(code), message, status, twirp))
    case OtherError(message) => Err(HostError.Native(255, message, 0, []))
  }

  /** The members of the result object. */
  function Slots(e: Execution): (slots: seq<Slot>)
    ensures DistinctNames(slots) && forall i :: 0 <= i < |slots| ==> slots[i].value.Some?
  {
    match e
    case Value(v) => [Slot("value", Some(v)), Slot("ok", Some(Bool(true)))]
    case SdkError(code, message, status, twirp) => FailureSlots(CodeNumber(code), message, status, twirp)
    case OtherError(message) => FailureSlots(CodeNumber(Unknown), message, 0, [])
  }

  function FailureSlots(code: int, message: Text, status: int, twirp: Text): seq<Slot> {
    [Slot("ok", Some(Bool(false))), Slot("code", Some(Int(code))), Slot("http_status", Some(Int(status))),
     Slot("twirp_code", Some(Str(twirp))), Slot("message", Some(Str(message)))]
  }

  /** The protobuf struct with these members. */
  function FieldsOf(slots: seq<Slot>): map<string, Json>
    requires forall i :: 0 <= i < |slots| ==> slots[i].value.Some?
  {
    if slots == [] then map[]
    else FieldsOf(slots[..|slots| - 1])[slots[|slots| - 1].name := slots[|slots| - 1].value.value]
  }

  /** The text is a JSON object with these members, in whatever order and style it is printed. */
  ghost predicate ReadsAs(text: Text, fields: map<string, Json>) {
    match Read(text)
    case Some(Obj(members)) =>
      forall name: string :: Lookup(members, name) == if name in fields then Some(fields[name]) else None
    case _ => false
  }

  /** The protobuf printer: it may fail, but what it prints is the object it was given. */
  type Encoder = map<string, Json> -> Option<Text>

  ghost predicate Prints(encode: Encoder) {
    forall fields :: encode(fields).Some? ==> ReadsAs(encode(fields).value, fields)
  }

  const INVALID_INPUT := SdkError(InvalidArgument, Ascii("invalid C ABI input buffer"), 0, [])

  function Outcome(input: Option<Text>, execute: Text -> Execution): Execution {
    if input.None? || |input.value| > INT_MAX then INVALID_INPUT else execute(input.value)
  }

  method Failure(code: ErrorCode, message: Text, status: int, twirp: Text) returns (response: map<string, Json>)
    ensures response == FieldsOf(FailureSlots(CodeNumber(code), message, status, twirp))
  {
    response := map[];
    response := response["ok" := Bool(false)];
    response := response["code" := Int(CodeNumber(code))];
    response := response["http_status" := Int(status)];
    response := response["twirp_code" := Str(twirp)];
    response := response["message" := Str(message)];
    FailureFields(CodeNumber(code), message, status, twirp);
  }

  lemma FailureFields(code: int, message: Text, status: int, twirp: Text)
    ensures FieldsOf(FailureSlots(code, message, status, twirp))
            == map["ok" := Bool(false), "code" := Int(code), "http_status" := Int(status),
                   "twirp_code" := Str(twirp), "message" := Str(message)]
  {
    var slots := FailureSlots(code, message, status, twirp);
    assert slots[..4][..3] == slots[..3] && slots[..3][..2] == slots[..2] && slots[..2][..1] == slots[..1];
    assert FieldsOf(slots[..1]) == map["ok" := Bool(false)];
    assert FieldsOf(slots[..2]) == FieldsOf(slots[..1])["code" := Int(code)];
    assert FieldsOf(slots[..3]) == FieldsOf(slots[..2])["http_status" := Int(status)];
    assert FieldsOf(slots[..4]) == FieldsOf(slots[..3])["twirp_code" := Str(twirp)];
  }

  /** lks_invoke: no exception leaves it. It returns NULL and length 0 exactly when the result cannot
      be printed or stored; otherwise a text of the reported length that carries the outcome. */
  method LksInvoke(input: Option<Text>, execute: Text -> Execution, encode: Encoder, allocates: bool)
    returns (output: Option<Text>, length: nat)
    requires Prints(encode)
    ensures output.Some? <==> encode(FieldsOf(Slots(Outcome(input, execute)))).Some? && allocates
    ensures output.Some? ==> ReadsAs(output.value, FieldsOf(Slots(Outcome(input, execute))))
    ensures length == if output.Some? then |output.value| else 0
  {
    hide ReadsAs;
    length := 0;
    var response: map<string, Json> := map[];
    if input.None? || |input.value| > INT_MAX {
      response := Failure(InvalidArgument, Ascii("invalid C ABI input buffer"), 0, []);
    } else {
      match execute(input.value) {
        case Value(v) =>
          response := response["value" := v];
          response := response["ok" := Bool(true)];
          ValueFields(v);
        case SdkError(code, message, status, twirp) =>
          response := Failure(code, message, status, twirp);
        case OtherError(message) =>
          response := Failure(Unknown, message, 0, []);
      }
    }
    var json := encode(response);
    if json.None? || !allocates {
      return None, 0;
    }
    length := |json.value|;
    return json, length;
  }

  lemma ValueFields(v: Json)
    ensures FieldsOf(Slots(Value(v))) == map["value" := v, "ok" := Bool(true)]
  {
    var slots := Slots(Value(v));
    assert FieldsOf(slots[..1]) == map["value" := v];
  }

  // The error numbers

  /** The categories and their numbers in the C ABI. */
  const ERROR_NUMBERS: seq<(ErrorCode, int)> :=
    [(InvalidArgument, 0), (Authentication, 1), (Transport, 2), (Http, 3), (Protocol, 4), (Unsupported, 5),
     (Unknown, 255)]

  lemma NumberInTable(i: nat)
    requires i < |ERROR_NUMBERS|
    ensures CodeNumber(ERROR_NUMBERS[i].0) == ERROR_NUMBERS[i].1
  {
  }

  /** Every category is in the table. */
  lemma AllInTable(code: ErrorCode)
    ensures exists i :: 0 <= i < |ERROR_NUMBERS| && ERROR_NUMBERS[i].0 == code
  {
    match code
    case InvalidArgument => assert ERROR_NUMBERS[0].0 == code;
    case Authentication => assert ERROR_NUMBERS[1].0 == code;
    case Transport => assert ERROR_NUMBERS[2].0 == code;
    case Http => assert ERROR_NUMBERS[3].0 == code;
    case Protocol => assert ERROR_NUMBERS[4].0 == code;
    case Unsupported => assert ERROR_NUMBERS[5].0 == code;
    case Unknown => assert ERROR_NUMBERS[6].0 == code;
  }

  /** The result text of an SDK error carries the number of its category, and the other four members; an
      exception that is no SDK error carries 255. */
  lemma ErrorMembers(text: Text, e: Execution)
    requires ReadsAs(text, FieldsOf(Slots(e))) && !e.Value?
    ensures var members := Read(text).value.members;
            && Lookup(members, "ok") == Some(Bool(false)) && Lookup(members, "message") == Some(Str(e.message))
            && (forall i :: 0 <= i < |ERROR_NUMBERS| && e.SdkError? && ERROR_NUMBERS[i].0 == e.code
                  ==> Lookup(members, "code") == Some(Int(ERROR_NUMBERS[i].1)))
            && (e.SdkError? ==> Lookup(members, "http_status") == Some(Int(e.httpStatus))
                                && Lookup(members, "twirp_code") == Some(Str(e.twirpCode)))
            && (e.OtherError? ==> Lookup(members, "code") == Some(Int(255))
                                  && Lookup(members, "http_status") == Some(Int(0))
                                  && Lookup(members, "twirp_code") == Some(Str([])))
  {
    SlotsOfFailure(e);
    match e
    case SdkError(code, message, status, twirp) =>
      FoundFailure(text, e, CodeNumber(code), message, status, twirp);
      forall i | 0 <= i < |ERROR_NUMBERS| && ERROR_NUMBERS[i].0 == code ensures CodeNumber(code) == ERROR_NUMBERS[i].1 {
        NumberInTable(i);
      }
      hide Read, Lookup, ReadsAs, FieldsOf, Slots, CodeNumber;
    case OtherError(message) =>
      FoundFailure(text, e, 255, message, 0, []);
      hide Read, Lookup, ReadsAs, FieldsOf, Slots;
  }

  /** No input, or one of more than 2^31 - 1 bytes, is an invalid argument whatever the operation. */
  lemma BadInput(input: Option<Text>, execute: Text -> Execution, text: Text)
    requires input.None? || |input.value| > 0x7FFF_FFFF
    requires ReadsAs(text, FieldsOf(Slots(Outcome(input, execute))))
    ensures var members := Read(text).value.members;
            && Lookup(members, "ok") == Some(Bool(false)) && Lookup(members, "code") == Some(Int(0))
            && Lookup(members, "message") == Some(Str(Ascii("invalid C ABI input buffer")))
  {
    hide Read, Lookup, ReadsAs, FieldsOf, Slots, Ascii;
    ErrorMembers(text, Outcome(input, execute));
    assert ERROR_NUMBERS[0] == (InvalidArgument, 0);
  }

  // What a host finds in the text

  lemma {:induction false} FieldOfSlot(slots: seq<Slot>, i: nat)
    requires i < |slots| && DistinctNames(slots) && forall j :: 0 <= j < |slots| ==> slots[j].value.Some?
    ensures slots[i].name in FieldsOf(slots) && Some(FieldsOf(slots)[slots[i].name]) == slots[i].value
    decreases |slots|
  {
    if i < |slots| - 1 {
      FieldOfSlot(slots[..|slots| - 1], i);
    }
  }

  lemma {:induction false} OnlySlots(slots: seq<Slot>, name: string)
    requires forall j :: 0 <= j < |slots| ==> slots[j].value.Some?
    requires forall j :: 0 <= j < |slots| ==> slots[j].name != name
    ensures name !in FieldsOf(slots)
    decreases |slots|
  {
    if slots != [] {
      OnlySlots(slots[..|slots| - 1], name);
    }
  }

  lemma FoundSlot(text: Text, members: seq<Member>, e: Execution, i: nat, name: string)
    requires ReadsAs(text, FieldsOf(Slots(e))) && Read(text) == Some(Obj(members))
    requires i < |Slots(e)| && Slots(e)[i].name == name
    ensures Lookup(members, name) == Slots(e)[i].value
  {
    hide Lookup, Read, Slots, FieldsOf;
    FieldOfSlot(Slots(e), i);
  }

  lemma FoundValue(text: Text, e: Execution)
    requires ReadsAs(text, FieldsOf(Slots(e))) && e.Value?
    ensures var members := Read(text).value.members;
            Lookup(members, "ok") == Some(Bool(true)) && Lookup(members, "value") == Some(e.v)
  {
    var members := Read(text).value.members;
    hide ReadsAs, Lookup, Read, FieldsOf;
    FoundSlot(text, members, e, 0, "value");
    FoundSlot(text, members, e, 1, "ok");
  }

  lemma FoundFailure(text: Text, e: Execution, code: int, message: Text, status: int, twirp: Text)
    requires ReadsAs(text, FieldsOf(Slots(e))) && Slots(e) == FailureSlots(code, message, status, twirp)
    ensures var members := Read(text).value.members;
            && Lookup(members, "ok") == Some(Bool(false)) && Lookup(members, "code") == Some(Int(code))
            && Lookup(members, "http_status") == Some(Int(status))
            && Lookup(members, "twirp_code") == Some(Str(twirp)) && Lookup(members, "message") == Some(Str(message))
  {
    var members := Read(text).value.members;
    hide ReadsAs, Lookup, Read, FieldsOf, Slots;
    FoundSlot(text, members, e, 0, "ok");
    FoundSlot(text, members, e, 1, "code");
    FoundSlot(text, members, e, 2, "http_status");
    FoundSlot(text, members, e, 3, "twirp_code");
    FoundSlot(text, members, e, 4, "message");
  }

  lemma SlotsOfFailure(e: Execution)
    ensures e.SdkError? ==> Slots(e) == FailureSlots(CodeNumber(e.code), e.message, e.httpStatus, e.twirpCode)
    ensures e.OtherError? ==> Slots(e) == FailureSlots(CodeNumber(Unknown), e.message, 0, [])
  {
    hide FailureSlots;
  }

  lemma ReadsAsObject(text: Text, e: Execution)
    requires ReadsAs(text, FieldsOf(Slots(e)))
    ensures Read(text).Some? && Read(text).value.Obj?
  {
  }

  /** A printed object reads back with its members. */
  lemma SlotsRead(slots: seq<Slot>)
    requires DistinctNames(slots) && forall i :: 0 <= i < |slots| ==> slots[i].value.Some?
    ensures ReadsAs(Print(Style.Native, Obj(Present(slots))), FieldsOf(slots))
  {
    hide Present, Lookup, Read, Print, FieldsOf;
    ReadPrint(Style.Native, Obj(Present(slots)));
    forall name: string
      ensures Lookup(Present(slots), name) == if name in FieldsOf(slots) then Some(FieldsOf(slots)[name]) else None
    {
      if i: nat :| i < |slots| && slots[i].name == name {
        LookupPresent(slots, i);
        FieldOfSlot(slots, i);
      } else {
        LookupMissing(slots, name);
        OnlySlots(slots, name);
      }
    }
  }

  /** There is such a printer: the SDK's own style will do. */
  lemma PrintedCarries(e: Execution)
    ensures ReadsAs(Print(Style.Native, Obj(Present(Slots(e)))), FieldsOf(Slots(e)))
  {
    hide ReadsAs, Print, Present, FieldsOf;
    SlotsRead(Slots(e));
  }
}
