/** What a host makes of the text native code calls it with. */
module HostRequest {
  import opened Text
  import opened Wrappers
  import opened Json
  import opened Claims
  import opened Base64
  import opened Base64RoundTrip
  import opened Clock
  import opened IntegerScan
  import SignToken

  datatype Host = Rust | Php

  /** What the host makes of the text native code calls it with: nothing, or a request, whose body and
      timeout it may fail to decode. */
  datatype Request =
    | Malformed
    | TransportRequest(url: Text, verb: Text, headers: seq<(Text, Text)>, body: Option<Text>, timeout: Option<int>)
    | KeyRequest(key: Text)

  /** The body: Rust takes canonical base64url without padding, PHP does not look at the bits after the
      last byte. */
  function BodyOf(host: Host, text: Text): Option<Text> {
    if Decodable(text) && UrlCharacters(text) && (host.Php? || Canonical(text)) then Some(Decoded(text)) else None
  }

  /** The timeout: Rust parses a 64-bit integer, PHP casts whatever number the text starts with. */
  function TimeoutOf(host: Host, text: Text): Option<int> {
    match SignToken.Scanned(text)
    case Some((n, end)) =>
      if host.Php? then Some(if n > INT64_MAX then INT64_MAX else if n < INT64_MIN then INT64_MIN else n)
      else if SpaceRun(text) == 0 && end == |text| && InInt64(n) then Some(n)
      else None
    case None => if host.Php? then Some(0) else None
  }

  function HeaderOf(v: Json): Option<(Text, Text)> {
    if v.Arr? && |v.items| == 2 && v.items[0].Str? && v.items[1].Str? then Some((v.items[0].s, v.items[1].s)) else None
  }

  function HeadersOf(items: seq<Json>): Option<seq<(Text, Text)>> {
    if items == [] then Some([])
    else
      var first :- HeaderOf(items[0]);
      var rest :- HeadersOf(items[1..]);
      Some([first] + rest)
  }

  function TransportOf(host: Host, members: seq<Member>): Request {
    match (Lookup(members, "url"), Lookup(members, "method"), Lookup(members, "headers"), Lookup(members, "body"),
           Lookup(members, "timeout_ms"))
    case (Some(Str(url)), Some(Str(verb)), Some(Arr(items)), Some(Str(body)), Some(Str(timeout))) =>
      (match HeadersOf(items)
       case Some(headers) => TransportRequest(url, verb, headers, BodyOf(host, body), TimeoutOf(host, timeout))
       case None => Malformed)
    case _ => Malformed
  }

  /** The request in a text. Which error a host reports for a text that holds none is not told apart. */
  function RequestIn(host: Host, text: Text): Request {
    match Read(text)
    case Some(Obj(members)) =>
      (match Lookup(members, "kind")
       case Some(Str(kind)) =>
         if kind == Ascii("transport") then TransportOf(host, members)
         else
           (match Lookup(members, "key")
            case Some(Str(key)) => if kind == Ascii("key") then KeyRequest(key) else Malformed
            case _ => Malformed)
       case _ => Malformed)
    case _ => Malformed
  }
}
