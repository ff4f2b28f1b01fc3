/** What a client hands to the transport for a call, and whether the libcurl transport takes it. */
module ClientCalls {
  import opened Text
  import opened ClientContext
  import opened CurlHeaders
  import opened CurlRequest

  /** The five headers of a call. */
  function CallHeaders(token: Text, requestId: Text): seq<Field> {
    [Field(Ascii("Content-Type"), Ascii("application/protobuf")), Field(Ascii("Accept"), Ascii("application/protobuf")),
     Field(Ascii("Authorization"), Ascii("Bearer ") + token), Field(Ascii("X-Livekit-Request-Id"), requestId),
     Field(Ascii("User-Agent"), Ascii("livekit-server-cpp/0.1"))]
  }

  /** The request of a call; url is the normalized server URL. */
  function CallRequest(url: Text, service: Text, name: Text, token: Text, requestId: Text, bodySize: nat, timeout: int)
    : Request
  {
    Request(Route(url, service, name), Ascii("POST"), CallHeaders(token, requestId), bodySize, timeout)
  }

  lemma LetterIsToken(u: nat)
    requires 'a' as nat <= u <= 'z' as nat || 'A' as nat <= u <= 'Z' as nat || u == '-' as nat
    ensures IsTokenUnit(u)
  {
    if u == '-' as nat {
      TokenUnits(u);
    }
  }

  predicate IsPlainName(name: string) {
    name != "" && forall i :: 0 <= i < |name| ==> 'a' <= name[i] <= 'z' || 'A' <= name[i] <= 'Z' || name[i] == '-'
  }

  lemma NameIsToken(name: string)
    requires IsPlainName(name)
    ensures IsToken(Ascii(name))
  {
    hide IsTokenUnit;
    forall i | 0 <= i < |name| ensures IsTokenUnit(Ascii(name)[i]) {
      LetterIsToken(Ascii(name)[i]);
    }
  }

  predicate IsVisible(value: string) {
    forall i :: 0 <= i < |value| ==> value[i] >= ' '
  }

  lemma VisibleIsValue(value: string)
    requires IsVisible(value)
    ensures IsHeaderValue(Ascii(value))
  {
  }

  lemma FixedNames()
    ensures IsToken(Ascii("Content-Type")) && IsToken(Ascii("Accept")) && IsToken(Ascii("Authorization"))
    ensures IsToken(Ascii("X-Livekit-Request-Id")) && IsToken(Ascii("User-Agent"))
  {
    hide IsToken, Ascii;
    NameIsToken("Content-Type");
    NameIsToken("Accept");
    NameIsToken("Authorization");
    NameIsToken("X-Livekit-Request-Id");
    NameIsToken("User-Agent");
  }

  lemma FixedValues()
    ensures IsHeaderValue(Ascii("application/protobuf")) && IsHeaderValue(Ascii("livekit-server-cpp/0.1"))
  {
    hide IsHeaderValue, Ascii;
    VisibleIsValue("application/protobuf");
    VisibleIsValue("livekit-server-cpp/0.1");
  }

  lemma FixedHeaders(token: Text, requestId: Text, i: nat)
    requires i < 5
    ensures IsToken(CallHeaders(token, requestId)[i].name)
    ensures i in {0, 1, 4} ==> IsHeaderValue(CallHeaders(token, requestId)[i].value)
  {
    hide IsToken, Ascii, IsHeaderValue;
    FixedNames();
    FixedValues();
  }

  /** What a header value may not contain. */
  lemma ValueUnits(t: Text)
    ensures IsHeaderValue(t) <==> 0 !in t && 0x0A !in t && 0x0D !in t
  {
  }

  lemma BearerValue(token: Text)
    ensures IsHeaderValue(Ascii("Bearer ") + token) <==> IsHeaderValue(token)
  {
    VisibleIsValue("Bearer ");
    var b := Ascii("Bearer ");
    hide Ascii;
    if IsHeaderValue(b + token) {
      forall i | 0 <= i < |token| ensures token[i] != 0x0D && token[i] != 0x0A && token[i] != 0 {
        assert (b + token)[|b| + i] == token[i];
      }
    }
  }

  lemma HeadersAreHeaders(token: Text, requestId: Text)
    ensures (forall i :: 0 <= i < 5 ==> IsHeader(CallHeaders(token, requestId)[i]))
            <==> IsHeaderValue(token) && IsHeaderValue(requestId)
  {
    BearerValue(token);
    var headers := CallHeaders(token, requestId);
    forall i | 0 <= i < 5
      ensures IsToken(headers[i].name) && (i in {0, 1, 4} ==> IsHeaderValue(headers[i].value))
    {
      FixedHeaders(token, requestId, i);
    }
    assert headers[2].value == Ascii("Bearer ") + token && headers[3].value == requestId;
    hide IsToken, Ascii, IsHeaderValue, CallHeaders;
  }

  lemma RouteStarts(url: Text, service: Text, name: Text, scheme: string)
    requires |url| >= |scheme|
    ensures StartsWith(Route(url, service, name), Ascii(scheme)) <==> StartsWith(url, Ascii(scheme))
  {
    hide Ascii;
    var r := Route(url, service, name);
    assert r[..|scheme|] == url[..|scheme|];
  }

  /** The libcurl transport takes a call exactly when its URL has a lower-case scheme and no null unit, its
      token and request id are header values, and timeout and body are in range; everything else about the
      request is always right. */
  lemma CallIsSendable(url: Text, service: Text, name: Text, token: Text, requestId: Text, bodySize: nat, timeout: int)
    requires |url| >= 8
    ensures IsSendable(CallRequest(url, service, name, token, requestId, bodySize, timeout))
            <==> && (StartsWith(url, Ascii("http://")) || StartsWith(url, Ascii("https://")))
                 && Free(Route(url, service, name), 0) && IsHeaderValue(token) && IsHeaderValue(requestId)
                 && timeout > 0 && bodySize <= 0x7FFF_FFFF_FFFF_FFFF
  {
    NameIsToken("POST");
    RouteStarts(url, service, name, "http://");
    RouteStarts(url, service, name, "https://");
    HeadersAreHeaders(token, requestId);
    hide StartsWith, Ascii, IsToken, IsHeaderValue, Route, Free, IsHeader;
  }

  // Normalized URLs and the transport

  predicate IsLowerHttp(url: Text) {
    StartsWith(url, Ascii("http://")) || StartsWith(url, Ascii("https://"))
  }

  /** Both are read off the first eight units. */
  lemma LowerHttpUnits(url: Text)
    ensures StartsWith(url, Ascii("http://")) ==> Spells(url, "http://") && url[0] == 'h' as nat
    ensures StartsWith(url, Ascii("https://")) ==> Spells(url, "https://") && url[0] == 'h' as nat
  {
    if StartsWith(url, Ascii("http://")) {
      assert forall i :: 0 <= i < 7 ==> url[i] == url[..7][i];
    }
    if StartsWith(url, Ascii("https://")) {
      assert forall i :: 0 <= i < 8 ==> url[i] == url[..8][i];
    }
  }

  lemma SchemesApart(url: Text)
    ensures !(Spells(url, "ws://") && IsLowerHttp(url)) && !(Spells(url, "wss://") && IsLowerHttp(url))
    ensures !(Spells(url, "http://") && Spells(url, "https://"))
    ensures !(Spells(url, "ws://") && Spells(url, "wss://"))
    ensures !(Spells(url, "ws://") && (Spells(url, "http://") || Spells(url, "https://")))
    ensures !(Spells(url, "wss://") && (Spells(url, "http://") || Spells(url, "https://")))
  {
    LowerHttpUnits(url);
    SchemeSpelled(url);
    hide Spells, StartsWith;
  }

  lemma KeptScheme(url: Text, v: Text, n: nat, scheme: string)
    requires n == |scheme| && n <= |url| && Rewritten(url, n, url[..n], v)
    ensures StartsWith(v, Ascii(scheme)) <==> StartsWith(url, Ascii(scheme))
    ensures Spells(v, scheme) <==> Spells(url, scheme)
  {
    hide IsStripped, Ascii;
    assert forall i :: 0 <= i < n ==> v[i] == v[..n][i] == url[..n][i] == url[i];
  }

  /** The libcurl transport knows the scheme of a normalized URL exactly when it was given as ws or wss in any
      case, or as http or https in lower case. */
  lemma SchemeIsKnown(url: Text, v: Text)
    requires Normalizes(url, v) && NamesHost(url)
    ensures IsLowerHttp(v) <==> Spells(url, "ws://") || Spells(url, "wss://") || IsLowerHttp(url)
    ensures |v| >= 8
  {
    AcceptedSchemes(url);
    SchemeSpelled(url);
    NamesHostIs(url);
    SchemeRewritten(url, v);
    SchemesApart(url);
    SchemesApart(v);
    LowerHttpUnits(url);
    LowerHttpUnits(v);
    var n := SchemeLength(url);
    hide Spells, Rewritten, GoesOnAfter, Normalizes, NamesHost, SchemeLength;
    if n == 7 {
      KeptScheme(url, v, 7, "http://");
      RewrittenLength(url, 7, url[..7], v);
      hide Ascii, StartsWith;
    } else if n == 8 {
      KeptScheme(url, v, 8, "https://");
      RewrittenLength(url, 8, url[..8], v);
      hide Ascii, StartsWith;
    } else if n == 5 {
      RewrittenLength(url, 5, Ascii("http://"), v);
    } else {
      RewrittenLength(url, 6, Ascii("https://"), v);
    }
  }

  lemma RewrittenLength(url: Text, n: nat, scheme: Text, v: Text)
    requires Rewritten(url, n, scheme, v)
    ensures |v| > |scheme| && StartsWith(v, scheme)
  {
    hide IsStripped;
  }

  /** So a client accepts a server URL like HTTP://h and the transport refuses its every call. */
  lemma UpperCaseScheme(service: Text, name: Text, token: Text, requestId: Text, bodySize: nat, timeout: int)
    ensures Normalizes(Ascii("HTTP://h"), Ascii("HTTP://h"))
    ensures !IsSendable(CallRequest(Ascii("HTTP://h"), service, name, token, requestId, bodySize, timeout))
  {
    var url := Ascii("HTTP://h");
    assert Spells(url, "http://");
    SchemeSpelled(url);
    hide Has;
    OwnNormalForm(url);
    assert url[0] != 'h' as nat;
    LowerHttpUnits(url);
    hide Ascii;
    CallIsSendable(url, service, name, token, requestId, bodySize, timeout);
  }
}
