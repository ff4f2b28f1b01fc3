# LiveKit server SDK: codecs, token verifier and callback protocol

A Dafny model of the hand-written logic of the LiveKit server SDK, and proofs about it. `dafny verify
dfyconfig.toml` checks all of it.

What the modules follow:

- **Tokens.** `AccessToken` and `TokenPrinter` print the claims of a token byte by byte (`Json`, `Claims` say
  what the printed text means), `Base64` encodes them, and `WebhookReceiver` takes a token apart again, reading
  the time claims with the textual scan of `IntegerScan`. `ClaimsScan` follows the scan through the claims ToJwt
  prints, `PrintedScan` through any printed object, with the strings that look like a marker in `LookAlike`, and
  `WebhookTokens` brings both ends together; `SignToken` is the entry point of the bindings. A C++ string is a
  sequence of bytes, a Java string a sequence of UTF-16 units (`Text`).
- **Callback protocol.** `CallbackProtocol` has invocations of the native library as trees: native code calls back,
  host code may invoke again; it says what both hosts make of such a tree, as a trace of events. `RustAdapter` and
  `PhpAdapter` are the two hosts, over the allocator, the buffers and the log of `NativeMemory`, and `CallbackRuns` has
  what every trace satisfies. `NativeInterface` and `NativeCallback` are the native end of results, requests and
  replies, `HostRequest` what a host reads in a request, and `RequestRoundTrip` the whole way there and back.
- **Shared state.** `WebhookDispatch` is a state machine of threads, the mutex, the thirteen callables moved one
  after the other while it is held, and application code that may enter the receiver again;
  `ConnectionCache` has the WinHTTP connection map and `ResponseBody` its read loop.
- **Boundary codecs.** `JavaJson`, `JniOptions`, `CurlHeaders`, `CurlRequest` and `ClientContext`; `ClientCalls` puts
  the last two together.

Some results differ from what one would expect of the program, and are stated as they are:

- The textual scan for `exp` does not agree with the printed claims for every API key. For a key that equals `exp`,
  or ends in a quote followed by `exp`, it reads `nbf` instead (`ClaimsScan.ScanExp`, `ClaimsScan.ScanOfToken`).
- The verifier adds the leeway to `exp` in 64 bits. For an expiry above 2^63 - 61 the sum overflows, which C++ leaves
  undefined; `ReceiveAt` returns the verdict `Overflow` for exactly these tokens, and properly signed ones reach it
  (`WebhookTokens.OverflowIsReached`). `ToJwt` has the same verdict for the sum of issue time and lifetime, which the
  longest lifetime reaches from the first second of the clock on (`AccessToken.LongestLifetime`).
- Copying the callbacks in Dispatch and replacing them in SetCallbacks runs copy constructors and destructors of the
  application's callables while the mutex is held (`WebhookDispatch.CopyRunsUnderLock`). Such code that calls the same
  receiver again waits for the mutex its own thread holds, and nobody gets it any more
  (`WebhookDispatch.ReentryStarts`, `WebhookDispatch.ReentryDeadlocks`).
- After a failed callback the Rust adapter does not enter host code again; the PHP adapter does.
- `NormalizeUrl` accepts `HTTP://` and keeps its case, and the libcurl transport then refuses every call
  (`ClientCalls.SchemeIsKnown`, `ClientCalls.UpperCaseScheme`).
- `NormalizeUrl` accepts a bare scheme and returns a text that is no URL (`ClientContext.BareScheme`).
- The option names of the Java binding survive translation unless an underscore precedes a lower-case letter
  (`JniOptions.CamelOfSnake`, `JniOptions.Collision`).

## Model

| member | source | states |
|---|---|---|
| `Base64.Base64` | src/detail/crypto.cpp:19-41 | the encoding loop writes the letters of the data's bit stream, cut into sextets and filled up with zero bits, with the padding that completes a block of four |
| `Base64.Base64UrlDecode` | src/detail/crypto.cpp:166-190 | although its 32-bit buffer wraps, the decoder accepts exactly the texts whose characters before the first `=` are in the alphabets, when neither their number nor the whole length is 1 modulo 4, and puts out the whole bytes of the unbounded bit stream they spell |
| `Base64.ShiftIn` | src/detail/crypto.cpp:179-180 | shifting a sextet into the wrapping 32-bit buffer leaves the pending bits followed by the sextet in its low bits |
| `Base64.TakeByte` | src/detail/crypto.cpp:181-184 | the byte taken out and the bits still pending are together the bits pending before |
| `Base64RoundTrip.DecodedIsPrefix` | src/detail/crypto.cpp:166-190 | k accepted characters decode to floor(6k / 8) bytes, and these are the first bits of the stream |
| `Base64RoundTrip.DecodeEncoded` | src/detail/crypto.cpp:149-190 | every byte string decodes from its encoding, over either alphabet, padded or not |
| `Base64RoundTrip.EncodingsDiffer` | src/detail/crypto.cpp:19-41 | the two encodings differ by the alphabet swap and the trailing `=` only; the padded one is exactly as long as the encoder reserves, the other no longer |
| `Base64RoundTrip.LettersOnly` | src/detail/crypto.cpp:93-110 | the decoder knows exactly the letters of the two alphabets |
| `Base64RoundTrip.LettersDecode` | src/detail/crypto.cpp:166-190 | letters without padding decode if and only if they are as many as the encoding of some byte string has |
| `Base64RoundTrip.PaddingIgnored` | src/detail/crypto.cpp:172-189 | what follows the first `=` only adds to the length, which must not be 1 modulo 4 |
| `Base64RoundTrip.VectorF` | src/detail/crypto.cpp:19-41 | the test vector of section 10 of RFC 4648 for one byte |
| `Base64RoundTrip.VectorFo` | src/detail/crypto.cpp:19-41 | the one for two bytes |
| `Base64RoundTrip.VectorFoo` | src/detail/crypto.cpp:19-41 | the one for three bytes |
| `Base64RoundTrip.ReEncode` | src/detail/crypto.cpp:161-190 | decoding and re-encoding gives a text back if and only if it is unpadded, uses only `-` and `_`, and has no bit set beyond its last whole byte |
| `JsonRoundTrip.ReadEscaped` | src/access_token.cpp:13-48 | escaping is invertible and self-delimiting: a string lexer started after the opening quote reads the original text and stops at the closing quote, whatever follows |
| `JsonRoundTrip.EscapeInjective` | src/access_token.cpp:13-48 | different texts escape differently |
| `JsonRoundTrip.EscapeHasNoControls` | src/access_token.cpp:13-48 | no byte below 0x20 is put out |
| `JsonRoundTrip.EscapeTable` | src/access_token.cpp:13-48 | quote, backslash and the five named control characters have their two-character escapes, other control characters four hexadecimal digits |
| `JsonRoundTrip.ReadPrinted` | src/access_token.cpp:67-105 | a reader of section 2 of RFC 8259 consumes exactly the printed text of a value and returns the value, whatever text follows |
| `TokenPrinter.EscapeJson` | src/access_token.cpp:13-48 | the byte loop escapes as the escaping function of `ReadEscaped` does |
| `TokenPrinter.AddBool` | src/access_token.cpp:50-57 | appends the member with its comma and keeps the object well formed, or appends nothing for a false value that is not to be included |
| `TokenPrinter.AddString` | src/access_token.cpp:59-65 | appends the escaped string member with its comma, or nothing for an empty string |
| `TokenPrinter.AddTriState` | src/access_token.cpp:79-90 | absent, false and true optional booleans leave three different objects |
| `TokenPrinter.AddSources` | src/access_token.cpp:91-99 | the list of publish sources, its commas and its brackets; nothing when it is empty |
| `TokenPrinter.VideoGrantJson` | src/access_token.cpp:67-105 | the text is the JSON object of the grant's members, in order, without stray or missing commas |
| `TokenPrinter.AttributesJson` | src/access_token.cpp:177-186 | the attribute map is printed as the object of its entries in key order |
| `TokenPrinter.PrintClaims` | src/access_token.cpp:165-204 | the claims text is the JSON object of the token: every comma, quote and brace is in its place |
| `Claims.ClaimsRoundTrip` | src/access_token.cpp:165-204 | reading the printed claims recovers the issuer, the three times, every string, the attribute map and the three optional grants exactly, for every token and clock |
| `Claims.VideoBack` | src/access_token.cpp:67-105 | reading a printed video grant recovers all its fields, absent, false and true optional booleans apart |
| `Claims.ClaimsInjective` | src/access_token.cpp:165-204 | equal claims come from equal token states (the secret apart) and equal times |
| `Claims.ClaimMembers` | src/access_token.cpp:165-204 | the printed claims hold key, times, identity, name, metadata, attributes and the three grants under iss, nbf, exp, iat, sub, name, metadata, attributes, video, sip and agent, empty ones left out |
| `Claims.RoomMembers` | src/access_token.cpp:71-75 | each of the five room rights is printed under its own name, and only when it is given |
| `Claims.OtherFlagMembers` | src/access_token.cpp:78-103 | so are ingressAdmin, hidden, recorder and agent |
| `Claims.PermissionMembers` | src/access_token.cpp:79-90 | each of the four optional rights is printed under its own name when it is set, true or false |
| `Claims.RoomNameMembers` | src/access_token.cpp:76-99 | room, destination room and publish sources are printed under their own names unless empty |
| `Claims.SipAgentMembers` | src/access_token.cpp:190-203 | the rights of the other two grants, under their own names |
| `Claims.LessIs` | src/access_token.cpp:177-186 | keys are ordered by their first difference, and a key comes before its continuations |
| `Claims.SameEntries` | src/access_token.cpp:177-186 | the key order of the attribute map is determined by its entries |
| `AccessToken.AccessToken.constructor` | src/access_token.cpp:109-110 | a new token holds the key and the secret, no claims and the default lifetime of six hours |
| `AccessToken.AccessToken.SetAttributes` | src/access_token.cpp:127-130 | replaces the attributes and nothing else |
| `AccessToken.AccessToken.SetValidFor` | src/access_token.cpp:132-138 | refuses a lifetime that is not positive and then changes nothing |
| `AccessToken.AccessToken.SetVideoGrant` | src/access_token.cpp:140-143 | replaces the video grant and nothing else |
| `AccessToken.AccessToken.ToJwt` | src/access_token.cpp:157-211 | signs header and claims with the secret, nbf and iat being the clock's whole seconds and exp that plus the lifetime; refuses exactly without key or secret; which issue times and lifetimes overflow |
| `AccessToken.LongestLifetime` | src/access_token.cpp:157-163 | with the longest lifetime the sum of issue time and lifetime overflows at every clock reading from one second on and at none before |
| `AccessToken.OverflowingToken` | src/access_token.cpp:132-163 | a token given the longest lifetime and signed at one second gets there |
| `Clock.TruncatesToZero` | src/access_token.cpp:161-162 | whole seconds and any smaller rest of ticks give these seconds, before the epoch as after it |
| `AccessToken.PartsUnique` | src/webhook_receiver.cpp:158-163 | a text is cut at its two dots in one way only |
| `AccessToken.JwtRoundTrip` | src/access_token.cpp:206-211 | whichever way a signed token is cut at its dots, its first part decodes to the header, its second to claims that read back as the token, its third to the MAC of what precedes it |
| `IntegerScan.ReadDigits` | src/webhook_receiver.cpp:59-67 | the digit loop returns the value of the whole digit run exactly when it is at most 2^63 - 1 and refuses it otherwise; no 64-bit operation in it overflows |
| `IntegerScan.CheckIsExact` | src/webhook_receiver.cpp:63-65 | the division check refuses a digit exactly when appending it would exceed 2^63 - 1 |
| `IntegerScan.JsonIntegerField` | src/webhook_receiver.cpp:36-69 | the scan returns the number after the first colon after the first quoted occurrence of the name, or the way it fails |
| `IntegerScan.NumberAtDecimal` | src/webhook_receiver.cpp:46-68 | a printed integer is read back exactly when its magnitude is at most 2^63 - 1 |
| `IntegerScan.NumberAfterSpace` | src/webhook_receiver.cpp:46-68 | so is one after any number of blanks, tabs, line feeds, vertical tabs, form feeds and carriage returns |
| `IntegerScan.NothingElse` | src/webhook_receiver.cpp:46-58 | after any other unit that is no digit and no minus sign there is no number |
| `ClaimsScan.QuotesAreEscaped` | src/access_token.cpp:17-19 | every quote in escaped text stands behind a backslash |
| `ClaimsScan.EarlyMatch` | src/webhook_receiver.cpp:37-38 | up to the end of the issuer a marker can match in one place only: ending at the issuer's closing quote |
| `ClaimsScan.ScanNbf` | src/webhook_receiver.cpp:36-69 | in claims that open with issuer, nbf and exp the scan for nbf returns the printed value under every API key |
| `ClaimsScan.ScanExp` | src/webhook_receiver.cpp:36-69 | the scan for exp returns the printed value, except for API keys that equal `exp` or end in a quote and `exp`, for which it returns nbf |
| `ClaimsScan.ScanOfToken` | src/webhook_receiver.cpp:36-69 | on every claims text ToJwt prints, the scan returns nbf for every API key, and exp if and only if the key does not look like the exp marker |
| `ClaimsScan.ScanGoesWrong` | src/webhook_receiver.cpp:36-69 | under the API key `exp` the scan misses the printed expiry |
| `LookAlike.LookEscaped` | src/access_token.cpp:13-48 | a string looks like the marker of a name exactly when its escaped form does |
| `PrintedScan.ClosingQuote` | src/webhook_receiver.cpp:37-38 | in any printed string the closing quote ends a marker only if the string equals the name or ends in a quote and the name |
| `PrintedScan.ValueClear` | src/webhook_receiver.cpp:37-38 | a printed value of any depth whose strings do not look like the name holds no marker, whatever surrounds it |
| `PrintedScan.FirstClaim` | src/webhook_receiver.cpp:36-69 | in any printed object whose first string to look like the claim's name is that member's own, the scan returns the member's number exactly when its magnitude is at most 2^63 - 1 |
| `PrintedScan.NoClaim` | src/webhook_receiver.cpp:36-41 | in a printed object without such a string the scan finds no claim |
| `ConstantTime.ConstantTimeEqual` | src/detail/crypto.cpp:192-202 | accumulating the differences decides equality |
| `WebhookReceiver.SplitToken` | src/webhook_receiver.cpp:158-163 | finds the three parts when the token has exactly two dots, and otherwise there are none |
| `WebhookReceiver.CheckSignature` | src/webhook_receiver.cpp:164-182 | succeeds exactly when the header says HS256, the issuer has a secret, and the third part decodes to the MAC of everything before the second dot |
| `WebhookReceiver.CheckTimes` | src/webhook_receiver.cpp:184-195 | holds exactly when exp and nbf are absent or within 60 seconds of the clock; which claim each refusal is about |
| `WebhookReceiver.CheckChecksum` | src/webhook_receiver.cpp:197-201 | holds exactly when the sha256 claim is the padded base64 of the body's digest |
| `WebhookReceiver.ReceiveAt` | src/webhook_receiver.cpp:150-240 | accepts exactly the genuine requests and returns their parsed body; a refusal after the signature check names a fact about the claims, any other means that no reading of the header is authentic; the caller sees an authentication error unless everything is right but the body, a protocol error, or the key lookup threw, whose own error it is |
| `WebhookTokens.AssembledIsAuthentic` | src/webhook_receiver.cpp:158-182 | a token of base64url segments whose header says HS256, signed with its issuer's secret, passes every check up to the signature |
| `WebhookTokens.AssembledToken` | src/webhook_receiver.cpp:150-240 | soundness and completeness over any three byte strings, sent as a token with or without the scheme: accepted exactly when the header says HS256, the claims name an issuer whose secret makes the third part the MAC of the first two, both times admit the moment with 60 seconds of leeway, the checksum is the body's, and the body parses |
| `WebhookTokens.ForgedToken` | src/webhook_receiver.cpp:177-182 | a token whose third part is anything but the MAC under its issuer's secret is refused, whatever else it says |
| `WebhookTokens.SignedToken` | src/webhook_receiver.cpp:184-221 | with HS256, a known issuer and the right signature, times, checksum and body decide |
| `WebhookTokens.NoScheme` | src/webhook_receiver.cpp:152-154 | no assembled token looks as if it still carried the scheme |
| `WebhookTokens.ServerToken` | src/webhook_receiver.cpp:150-240 | from printing to checking, for a claims object with members in any order and any other members of any depth: when no string before a time claim looks like its name, the token is accepted exactly within a minute of its validity and with the body's checksum |
| `WebhookTokens.IssuedToken` | src/webhook_receiver.cpp:150-240 | with the claims in the order of ToJwt, under every API key: accepted exactly within a minute of its validity, its end being read from nbf under a key that looks like the exp marker |
| `WebhookTokens.OverflowIsReached` | src/webhook_receiver.cpp:188-190 | a properly signed token whose expiry lies in the last 60 seconds of 64-bit time passes the signature check and makes the sum with the leeway overflow |
| `WebhookTokens.HeaderIsHs256` | src/access_token.cpp:206 | the header text the token printer writes is read as HS256 |
| `WebhookDispatch.StepInv` | src/webhook_receiver.cpp:141-144 | every step of every thread, with the thirteen callables moved one by one and application code entered while they are, re-entrant calls and exceptions included, keeps the invariant of shared set, mutex, call stacks and calls made |
| `WebhookDispatch.SharedSet` | src/webhook_receiver.cpp:141-144 | in every run the shared set is the last one installed while nobody holds the mutex or a dispatcher copies it, and while a setter stands at slot i it is the new set up to i and the last one from there on |
| `WebhookDispatch.MutualExclusion` | src/webhook_receiver.cpp:141-144 | in every run at most one activation moves slots |
| `WebhookDispatch.DispatchSnapshot` | src/webhook_receiver.cpp:242-254 | in every interleaving a dispatch that returned copied one whole installed set, the last one at some moment between its begin and its end, and called the callable in its slot of on_event, if set, and then the one in the slot of the event's name, if there is one and it is set; one that threw made a prefix of these calls |
| `WebhookDispatch.CallsComeFromCopy` | src/webhook_receiver.cpp:242-254 | at every moment the calls made so far come from a local copy that is a whole installed set |
| `WebhookDispatch.NoLockInCallbacks` | src/webhook_receiver.cpp:242-254 | a thread that holds the mutex is in none of the callbacks: it moves slots, or waits for the mutex because copy or destroy code entered the receiver again |
| `WebhookDispatch.HolderReleases` | src/webhook_receiver.cpp:141-144 | whatever the other threads do in between, the holder has released the mutex after at most 27 steps of its own, unless copy or destroy code enters the receiver again |
| `WebhookDispatch.ReentryDeadlocks` | src/webhook_receiver.cpp:244-247 | if it does, the mutex stays taken and both activations stay where they are, whatever anybody does |
| `WebhookDispatch.ReentryStarts` | src/webhook_receiver.cpp:242-247 | an operation started from application code ends up so if and only if that code runs while slots are moved |
| `WebhookDispatch.CopyRunsUnderLock` | src/webhook_receiver.cpp:242-247 | three steps into a dispatch with on_event set, copy code runs while the mutex is held |
| `WebhookDispatch.LaterDispatchSeesIt` | src/webhook_receiver.cpp:141-144 | in every run, a dispatch that begins after the step at which SetCallbacks returned copies the whole of that set or a later one |
| `WebhookDispatch.SpecificByName` | src/webhook_receiver.cpp:75-113 | each of the twelve event names selects its own callback and any other name none |
| `NativeInterface.LksInvoke` | src/c_api.cpp:303-339 | returns NULL with length 0 exactly when the result cannot be printed or stored, otherwise a text of the reported length that is the outcome's result object; bad input is an invalid-argument outcome |
| `NativeCallback.Exchange` | src/c_api.cpp:136-146 | with the wrapper around the C callback (lines 316-326): a reply arrives exactly when a callback was given, the request can be encoded, the status is 0, the response is there and at most INT_MAX long, parses, and carries no error flag; which of the three errors it is otherwise |
| `NativeCallback.ExchangeFails` | src/c_api.cpp:136-146 | which error each failing exchange gives, down to the status, the size of the response, and an error member that is true or no boolean |
| `NativeCallback.Send` | src/c_api.cpp:148-171 | prints kind, URL, method, body, timeout and all headers, and returns the status and body of the reply to exactly that request |
| `NativeCallback.LookUp` | src/c_api.cpp:217-221 | prints kind and key, and returns the secret of the reply to exactly that request |
| `RequestRoundTrip.TransportArrives` | src/c_api.cpp:150-164 | whatever request native code sends, either host reads that very URL, method, headers, body and timeout from the printed text, in any member order and style |
| `RequestRoundTrip.KeyArrives` | src/c_api.cpp:217-221 | either host reads the very key native code asks for |
| `RequestRoundTrip.NativeRequestEnters` | pkg/rust/src/native.rs:232-244 | a host never fails to decode a native request: its code is entered exactly when the transport was supplied |
| `RequestRoundTrip.SendsThroughHost` | src/c_api.cpp:148-171 | sending through a host is calling the host's transport: its code is given exactly the request, and Send returns the status and body it answers, or fails when it fails or the status is out of range |
| `RequestRoundTrip.LooksUpThroughHost` | src/c_api.cpp:217-221 | looking a key up through a host is calling its key provider with that key; no secret is an empty one |
| `RequestRoundTrip.BodyBack` | pkg/rust/src/native.rs:238-240 | every body decodes from the base64url text native code prints, under the canonical rules of Rust and the looser ones of PHP |
| `RequestRoundTrip.TimeoutBack` | pkg/rust/src/native.rs:241-243 | every 64-bit timeout is read back by either host |
| `NativeCallback.ReadResponse` | src/c_api.cpp:166-170 | returns the status and body of the reply, and fails exactly when it has no status between 100 and 599 or no decodable body |
| `NativeCallback.AnswerMembers` | pkg/rust/src/native.rs:245-252 | the members of a host's reply: status_code and body, or secret |
| `NativeCallback.AnswerArrives` | src/c_api.cpp:166-170 | the status and body either host answers are the ones native code reads |
| `NativeCallback.AnswerIsNoError` | src/c_api.cpp:136-146 | an answer of either host arrives whenever it is short enough |
| `NativeCallback.SecretArrives` | src/c_api.cpp:218-223 | the secret either host answers is the one native code reads, and none is an empty one |
| `NativeInterface.Failure` | src/c_api.cpp:274-283 | the five members of an error result |
| `NativeInterface.FoundFailure` | src/c_api.cpp:274-294 | whatever the printer's style and member order, the five members of an error are found under their names |
| `NativeInterface.ErrorMembers` | include/livekit/server/error.h:9-17 | the result of an SDK error carries the literal number of its category, from 0 for an invalid argument to 255 for an unknown one, and its other members; an exception of another kind carries 255 |
| `NativeInterface.BadInput` | src/c_api.cpp:309-311 | no input, or more than 2^31 - 1 bytes, is reported as an invalid argument whatever the operation |
| `NativeMemory.World.Free` | src/c_api.cpp:301 | frees a live result; nothing is freed twice or before it was allocated |
| `NativeInterface.PrintedCarries` | src/c_api.cpp:285-294 | there is a printer as the native end needs it: a result object printed in the claims style reads back with its members |
| `NativeMemory.World.Load` | pkg/rust/src/native.rs:152-156 | a result is read only while it is live, and holds what native code stored |
| `RustAdapter.EnvelopeRoundTrip` | pkg/rust/src/native.rs:172-197 | decoding a result text returns exactly the value or the error native code reported |
| `RustAdapter.CallerSeesNumber` | pkg/rust/src/native.rs:172-197 | the caller is handed the literal number of the category, with message, HTTP status and Twirp code |
| `RustAdapter.ValueMeans` | pkg/rust/src/native.rs:172-180 | a value is returned exactly from an object whose ok is true and that has it |
| `RustAdapter.HostExchange` | pkg/rust/src/native.rs:207-257 | host code is entered exactly when the text holds a request, its body and timeout decode and its callback was supplied; the response text is the JSON of its answer; what each refusal is |
| `RustAdapter.Exchange` | pkg/rust/src/native.rs:259-297 | after a failure host code is not entered again and nothing changes; otherwise a response is kept in a new live buffer, or the failure is recorded, and nothing unwinds |
| `RustAdapter.MakeCalls` | pkg/rust/src/native.rs:259-297 | over any number of callbacks: the buffers lent are the very ones the context keeps, all alive, with the responses in order; the recorded failure is the first one |
| `RustAdapter.NativeInvoke` | pkg/rust/src/native.rs:104-134 | every response lent can be read until native code returns; the context owns exactly the buffers lent |
| `RustAdapter.CleanUp` | pkg/rust/src/native.rs:135-138 | the result is freed before the response buffers go |
| `RustAdapter.Conclude` | pkg/rust/src/native.rs:139-156 | a host failure comes first, then a missing result, then what the result says, which is read while it is live |
| `RustAdapter.DropOutput` | pkg/rust/src/native.rs:163-170 | frees a non-null result once and a null one never |
| `RustAdapter.Invoke` | pkg/rust/src/native.rs:104-157 | for every tree of callbacks and nested invocations and every native result: the ending is the first host failure or else the decoded result, and the observable events are the specified trace of entries, frees and releases |
| `CallbackRuns.NothingAfterFailure` | pkg/rust/src/native.rs:269-271 | in Rust the callbacks after the first failure are as if they had never been made |
| `CallbackRuns.FirstOfAll` | pkg/php/src/NativeLibrary.php:102-106 | the first failure among the callbacks is the one kept, whatever comes after it |
| `CallbackRuns.HostFailureWins` | pkg/rust/src/native.rs:139-146 | the first host error or panic is reported ahead of any native result, garbage or NULL, by both hosts |
| `CallbackRuns.EndsByReply` | pkg/rust/src/native.rs:285-297 | if every callback before answers and the next one fails in host code, its error is what the invocation returns, of either host; its panic goes on unwinding from Rust, and PHP returns its exception like any other |
| `CallbackRuns.EndsUnsupplied` | pkg/rust/src/native.rs:231-233 | a request the host can read whose callback was not supplied ends the invocation with the error that says so |
| `CallbackRuns.EndsByResult` | pkg/rust/src/native.rs:139-157 | if every callback answers, a missing result is an error and any other is decoded |
| `CallbackRuns.GoesOnAfterFailure` | pkg/php/src/NativeLibrary.php:65-107 | PHP makes the callbacks after a failure as it would without it |
| `CallbackRuns.TraceEnds` | pkg/rust/src/native.rs:135-138 | for either host the result is allocated, freed, the context popped in PHP, and the response buffers released, in this order and at the end |
| `CallbackRuns.FreedOnce` | pkg/rust/src/native.rs:163-170 | over any tree of invocations, of either host, the pointers freed are the ones allocated, each exactly once |
| `CallbackRuns.WellNested` | pkg/php/src/NativeLibrary.php:124-149 | every PHP run keeps the stack discipline: contexts are pushed and popped in order, host code runs in the context on top, and the very result an invocation returned is freed in its own context, after all nested invocations are over and before the context is popped; no context goes with its result unfreed |
| `RustAdapter.ReportsNativeResult` | pkg/rust/src/native.rs:139-157 | without a host failure the caller gets exactly what native code reported |
| `PhpAdapter.ResultRoundTrip` | pkg/php/src/NativeLibrary.php:135-140 | reading a result returns exactly the value or the error native code reported |
| `PhpAdapter.CallerSeesNumber` | pkg/php/src/NativeLibrary.php:135-140 | the caller is handed the literal number of the category, with message, HTTP status and Twirp code |
| `PhpAdapter.ValueMeans` | pkg/php/src/NativeLibrary.php:135-140 | a value is returned exactly from an object whose ok is true to PHP, null when it has none |
| `PhpAdapter.NativeLibrary.Exchange` | pkg/php/src/NativeLibrary.php:65-107 | the context on top of the stack is that of the innermost unfinished invocation; its first error is kept, its responses are kept alive, and the stack is as before |
| `PhpAdapter.NativeLibrary.MakeCalls` | pkg/php/src/NativeLibrary.php:65-107 | over any number of callbacks: the buffers lent are the very ones the context keeps, all alive, with the responses in order; the context keeps the first error of its own callbacks, whatever nested invocations do |
| `PhpAdapter.NativeLibrary.NativeInvoke` | pkg/php/src/NativeLibrary.php:124-128 | every response lent can be read until native code returns |
| `PhpAdapter.NativeLibrary.CleanUp` | pkg/php/src/NativeLibrary.php:141-149 | the result is freed before its context is popped, and its buffers go last |
| `PhpAdapter.NativeLibrary.Invoke` | pkg/php/src/NativeLibrary.php:109-151 | for every tree of callbacks and nested invocations: the stack is restored on every exit, the ending is the first own error or else the decoded result, and the observable events are the specified trace, each free before its own pop |
| `PhpAdapter.ReportsNativeResult` | pkg/php/src/NativeLibrary.php:129-140 | without an error the caller gets exactly what native code reported |
| `SignToken.Integer` | src/c_api.cpp:95-105 | succeeds exactly for texts of white space, an optional sign and digits to the end, with the 64-bit integer they denote |
| `SignToken.WritesUnique` | src/c_api.cpp:95-105 | a text denotes at most one integer |
| `SignToken.DecimalWrites` | src/c_api.cpp:95-105 | the printed form of an integer denotes it |
| `SignToken.IntegerForms` | src/c_api.cpp:95-105 | digits denote an integer without a sign, with a plus or with a minus, after white space of any of the six kinds |
| `SignToken.SecondsBack` | src/c_api.cpp:206-212 | whole seconds in the accepted range survive the conversion to ticks and back, and the ticks fit 64 bits |
| `SignToken.RangeIsExact` | src/c_api.cpp:206-212 | the accepted range is exactly the whole seconds whose ticks fit 64 bits |
| `SignToken.Sign` | src/c_api.cpp:194-212 | accepts exactly when now >= 0, the lifetime is at least 1, their sum is at most the clock's whole-second maximum and the credentials are there; the token then runs from now to now plus the lifetime, and nothing overflows |
| `SignToken.SignedClaims` | src/c_api.cpp:194-212 | whichever way the signed token is cut, it says the options' own key, identity, name, metadata, attributes and grants and the two times, under the MAC of the options' secret |
| `ConnectionCache.KeyInjective` | src/http_transport.cpp:157 | different endpoints have different keys, also when the host contains colons |
| `ConnectionCache.WinHttpTransport.Connection` | src/http_transport.cpp:156-169 | an endpoint always gets the handle it got first and no other endpoint gets that handle; an endpoint is opened successfully at most once, and a failure caches nothing |
| `ConnectionCache.WinHttpTransport.ConnectAll` | src/http_transport.cpp:156-169 | over any sequence of calls: a call succeeds exactly when its endpoint was cached or has been opened by this or an earlier call, two handles are equal exactly when the endpoints are, and the open handles grow by one for each newly cached endpoint |
| `ConnectionCache.WinHttpTransport.Destroy` | src/http_transport.cpp:148-153 | the newly closed handles are exactly the cached connections, each closed once, and no other handle is closed |
| `ResponseBody.ReadBody` | src/http_transport.cpp:126-145 | the body is the chunks delivered before nothing more was available, in order, without stale units after short reads; a failing query or read before that is a transport error |
| `ResponseBody.LengthMeans` | src/http_transport.cpp:126-145 | the rounds that make up the body are those before the first that has nothing available or fails |
| `CurlHeaders.ResponseState.Body` | src/detail/curl_transport.cpp:33-44 | appends the chunk, or refuses a length that overflows and changes nothing |
| `CurlHeaders.ResponseState.Header` | src/detail/curl_transport.cpp:46-69 | after any sequence of lines the stored list is the colon-bearing lines from the last status line on, in order, each split and trimmed; a length that overflows changes nothing |
| `CurlHeaders.CollectedUnique` | src/detail/curl_transport.cpp:46-69 | the lines alone determine the stored list |
| `CurlHeaders.TrimmedSplits` | src/detail/curl_transport.cpp:55-62 | the two searches split a line at its first colon and trim the value at both ends |
| `CurlHeaders.TrimmedUnits` | src/detail/curl_transport.cpp:57-61 | exactly blanks and tabs are trimmed in front, and these and line ends at the end |
| `CurlHeaders.StatusStartsAnew` | src/detail/curl_transport.cpp:53-54 | a line that begins with HTTP/ discards the headers before it, and no other line does |
| `CurlHeaders.OverflowCheck` | src/detail/curl_transport.cpp:49-50 | dividing first decides exactly whether the product fits |
| `CurlRequest.Token` | src/detail/curl_transport.cpp:71-81 | accepts exactly the tokens of section 5.6.2 of RFC 9110 |
| `CurlRequest.TokenUnits` | src/detail/curl_transport.cpp:74-79 | the units of a token are the visible characters that are no delimiters of section 5.6.2 of RFC 9110 |
| `CurlRequest.Prepare` | src/detail/curl_transport.cpp:91-112 | accepts exactly the sendable requests and hands over one line per header, in order |
| `CurlRequest.OneLine` | src/detail/curl_transport.cpp:102-106 | an accepted header has no line break |
| `CurlRequest.LineInjective` | src/detail/curl_transport.cpp:106 | different headers give different lines |
| `CurlRequest.SentIsCollected` | src/detail/curl_transport.cpp:46-106 | a header line that is sent is the line the response collector splits into the same name and value |
| `ClientContext.NormalizeUrl` | src/detail/client_context.cpp:50-63 | accepts exactly the four schemes, in any case, and returns the URL's normal form |
| `ClientContext.AcceptedSchemes` | src/detail/client_context.cpp:50-58 | the accepted URLs are those that spell ws, wss, http or https with its slashes, each letter in either case |
| `ClientContext.SchemeRewritten` | src/detail/client_context.cpp:50-63 | ws becomes http and wss https, http and https stay as they are spelled, and the rest loses its last slashes only |
| `ClientContext.NormalFormUnique` | src/detail/client_context.cpp:50-63 | a URL has one normal form |
| `ClientContext.OnlySchemeAndSlashes` | src/detail/client_context.cpp:50-63 | when something but slashes follows the scheme, the result is an http or https URL without a trailing slash, and only a ws or wss scheme and trailing slashes changed |
| `ClientContext.Idempotent` | src/detail/client_context.cpp:50-63 | normalizing twice is normalizing once if and only if something but slashes follows the scheme; otherwise the second time is refused |
| `ClientContext.BareScheme` | src/detail/client_context.cpp:59-61 | a bare scheme is accepted and loses its slashes |
| `ClientContext.RouteInjective` | src/detail/client_context.cpp:144 | for slash-free service and method names different calls have different routes, also across servers |
| `ClientContext.RouteParts` | src/detail/client_context.cpp:144 | a route is the server URL, the Twirp prefix with the service, a slash and the method |
| `ClientCalls.CallIsSendable` | src/detail/curl_transport.cpp:91-106 | the libcurl transport takes the request of a call (lines 143-150 of the client context) exactly when its URL has a lower-case scheme and no null unit, token and request id are header values, and timeout and body size are in range |
| `ClientCalls.SchemeIsKnown` | src/detail/curl_transport.cpp:92-93 | the transport knows the scheme of a normalized URL if and only if it was given as ws or wss in any case, or as http or https in lower case |
| `ClientCalls.UpperCaseScheme` | src/detail/curl_transport.cpp:92-93 | HTTP://h is a normalized URL no call to which is sendable |
| `JniOptions.Translate` | pkg/java/src/main/cpp/livekit_server_jni.cpp:257-263 | the character loop translates as `Snake` does |
| `JniOptions.Options` | pkg/java/src/main/cpp/livekit_server_jni.cpp:253-271 | in whatever order the options are visited, every one arrives under its translated name and nothing else does; only the grants are translated inside |
| `JniOptions.CamelOfSnake` | pkg/java/src/main/cpp/livekit_server_jni.cpp:257-263 | the translated name leads back to the Java name if and only if no underscore in it precedes a lower-case letter |
| `JniOptions.SnakeOfCamel` | pkg/java/scripts/generate_api.py:68 | the translation inverts the generator's rule for exactly the field names without capitals |
| `JniOptions.Collision` | pkg/java/src/main/cpp/livekit_server_jni.cpp:257-263 | every name outside that condition is translated like another one, the name its translation leads back to |
| `JniOptions.CollidingPair` | pkg/java/src/main/cpp/livekit_server_jni.cpp:257-263 | canPublish and can_publish are such a pair |
| `JniOptions.NothingLost` | pkg/java/src/main/cpp/livekit_server_jni.cpp:253-271 | every option arrives under its own name with its own value, and as many arrive as were sent |
| `JniOptions.GrantsTranslated` | pkg/java/src/main/cpp/livekit_server_jni.cpp:253-271 | of video, sip and agent every field arrives under its own name with its own value; every other option arrives as it is |
| `JniOptions.OrderDoesNotMatter` | pkg/java/src/main/cpp/livekit_server_jni.cpp:253-271 | the result does not depend on the order of the visit |
| `JniOptions.AttributesVerbatim` | pkg/java/src/main/cpp/livekit_server_jni.cpp:252-271 | attribute keys and values arrive unchanged |
| `JavaJson.EncodeString` | pkg/java/src/main/java/io/livekit/server/Json.java:19-27 | the character loop escapes quotes, backslashes, control characters and surrogates |
| `JavaJson.Encode` | pkg/java/src/main/java/io/livekit/server/Json.java:11-28 | the encoder, recursive over maps and lists, prints the JSON text of a value whose numbers are integers |
| `JavaJson.PrintPlain` | pkg/java/src/main/java/io/livekit/server/Json.java:24 | the text of every UTF-16 value has no surrogate |
| `JavaJson.Utf8Lossless` | pkg/java/src/main/java/io/livekit/server/Native.java:14 | on text without surrogates the conversion to UTF-8 loses nothing |
| `JavaJson.LoneSurrogatesCollide` | pkg/java/src/main/java/io/livekit/server/Native.java:14 | without the escapes two different strings would become the same bytes |
| `JavaJson.EncodeRoundTrip` | pkg/java/src/main/java/io/livekit/server/Json.java:9-29 | for every nested value the bytes decode to the encoded text, and a JSON reader consumes all of it and returns the value |

## Left out

- WebhookReceiver.ReceiveAt: the clock has at least a microsecond resolution, so that adding the leeway to the present time cannot overflow; error message texts are not modelled.
- PhpAdapter.DecodeResult: PHP casts an error code or status that is a string, an array or an object to an integer; here such a result is a type error. Native code prints numbers.
- TokenPrinter.PrintClaims: a `std::map` is a sequence of entries in key order, and the grants are values.
- WebhookDispatch.Step: locking a mutex the thread already holds, which C++ leaves undefined, is waiting forever. A callable is read or written as a whole; the copies made after the lock is released, and of the argument of SetCallbacks, run no modelled code; destructors do not throw.
- HostRequest.RequestIn: which error a host reports for a text that is no request is not told apart, PHP would take headers that are no pairs, and a PHP cast also reads exponents; native code prints none of these.
- CallbackProtocol.ReplyText: the PHP encoder also escapes U+2028 and U+2029 and refuses a secret that is not UTF-8; here every secret is printed as the Rust encoder prints it.
- CallbackProtocol.Refusal: the Rust adapter reports an undecodable body in the words of its base64 library; here in fixed words. Native code sends no such body.
- JavaJson.Encode: numbers are integers, and an entry set is given by its members in order.
- SHA-256 and HMAC are arbitrary functions with 32-byte results; their failures inside OpenSSL or BCrypt, and the timing of the comparison, are not modelled.
- The protobuf JSON parser is a parameter of the verifier, and its printer one of the native end; protobuf messages, and the copying of event fields beyond the parsed record, are not modelled.
- The JSON reader takes integers only, reads one code unit per escape and does not check UTF-8; of two members with one name it takes the first, where serde and PHP take the last.
- The system clock, random request ids and nonces, and environment variables; with them the fallback of credentials in the client context.
- Out-of-memory exceptions, and string sizes above the address space.
- The choice between callbacks and null function pointers is modelled, the C calling convention, JNI references, FFI trampolines, library loading and garbage collection are not.
- What host callbacks compute is arbitrary; panics and exceptions are known by a number. Native code is any tree of callbacks with any result, so what it does with a failed callback is not fixed.
- The connection cache is used by one caller at a time, as its mutex ensures; host and port come from the operating system's URL parser, which is not modelled.
- The network side of libcurl and WinHTTP, TLS, timeouts and the request id.
- Service clients, generated models, the Ruby, Python and .NET adapters: forwarding that adds only easy members.
