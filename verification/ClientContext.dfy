/** The server URL a client is given, and the route of each call. */
module ClientContext {
  import opened Text
  import opened Wrappers

  const SLASH: nat := '/' as nat

  /** `std::tolower` in the C locale. */
  function ToLower(u: nat): nat {
    if 'A' as nat <= u <= 'Z' as nat then u + 32 else u
  }

  predicate StartsWithCaseInsensitive(value: Text, prefix: Text) {
    |value| >= |prefix| && forall i :: 0 <= i < |prefix| ==> ToLower(prefix[i]) == ToLower(value[i])
  }

  predicate Has(url: Text, scheme: string): (h: bool)
    ensures h ==> |url| >= |scheme|
  {
    StartsWithCaseInsensitive(url, Ascii(scheme))
  }

  /** The length of the URL's scheme with its slashes, 0 when it has none of the four. */
  function SchemeLength(url: Text): (n: nat)
    ensures n <= |url| && n in {0, 5, 6, 7, 8}
  {
    if Has(url, "ws://") then 5
    else if Has(url, "wss://") then 6
    else if Has(url, "http://") then 7
    else if Has(url, "https://") then 8
    else 0
  }

  /** The scheme the URL is rewritten to: ws and wss change, http and https stay as they are spelled. */
  function HttpScheme(url: Text): Text {
    var n := SchemeLength(url);
    if n == 5 then Ascii("http://") else if n == 6 then Ascii("https://") else url[..n]
  }

  predicate AllSlashes(t: Text) {
    forall i :: 0 <= i < |t| ==> t[i] == SLASH
  }

  /** v is t without its trailing slashes. */
  predicate IsStripped(t: Text, v: Text) {
    v <= t && AllSlashes(t[|v|..]) && (v != [] ==> v[|v| - 1] != SLASH)
  }

  /** v is the normal form of an accepted URL. */
  predicate Normalizes(url: Text, v: Text) {
    SchemeLength(url) > 0 && IsStripped(HttpScheme(url) + url[SchemeLength(url)..], v)
  }

  lemma StrippedShorter(t: Text, v: Text, w: Text)
    requires IsStripped(t, v) && IsStripped(t, w)
    ensures |w| <= |v|
  {
    forall i | |v| <= i < |t| ensures t[i] == SLASH {
      assert t[i] == t[|v|..][i - |v|];
    }
  }

  lemma StrippedUnique(t: Text, v: Text, w: Text)
    requires IsStripped(t, v) && IsStripped(t, w)
    ensures v == w
  {
    StrippedShorter(t, v, w);
    StrippedShorter(t, w, v);
    assert v == t[..|v|] && w == t[..|w|];
  }

  /** A URL has one normal form. */
  lemma NormalFormUnique(url: Text, v: Text, w: Text)
    requires Normalizes(url, v) && Normalizes(url, w)
    ensures v == w
  {
    hide IsStripped, HttpScheme;
    StrippedUnique(HttpScheme(url) + url[SchemeLength(url)..], v, w);
  }

  lemma HttpSchemes()
    ensures Has(Ascii("http://"), "http://") && Has(Ascii("https://"), "https://")
    ensures Has(Ascii("wss://"), "wss://")
  {
  }

  /** A scheme does not depend on what follows it. */
  lemma HasPrefix(scheme: Text, rest: Text, name: string)
    requires |scheme| == |name|
    ensures Has(scheme + rest, name) <==> Has(scheme, name)
  {
    assert forall i :: 0 <= i < |name| ==> (scheme + rest)[i] == scheme[i];
  }

  lemma OneScheme(url: Text)
    ensures Has(url, "http://") ==> SchemeLength(url) == 7
    ensures Has(url, "https://") ==> SchemeLength(url) == 8
    ensures Has(url, "wss://") ==> SchemeLength(url) == 6
  {
    if Has(url, "http://") {
      assert ToLower(url[0]) == 'h' as nat && ToLower(url[4]) == ':' as nat;
    }
    if Has(url, "https://") {
      assert ToLower(url[0]) == 'h' as nat && ToLower(url[4]) == 's' as nat;
    }
    if Has(url, "wss://") {
      assert ToLower(url[2]) == 's' as nat;
    }
  }

  method NormalizeUrl(given: Text) returns (r: Result<Text, ErrorCode>)
    ensures r.Success? <==> SchemeLength(given) > 0
    ensures r.Success? ==> Normalizes(given, r.value)
    ensures r.Failure? ==> r.error == InvalidArgument
  {
    hide Has, Ascii;
    var url := given;
    HttpSchemes();
    OneScheme(given);
    if Has(url, "ws://") {
      HasPrefix(Ascii("http://"), url[5..], "http://");
      url := Ascii("http://") + url[5..];
    } else if Has(url, "wss://") {
      HasPrefix(Ascii("https://"), url[6..], "https://");
      url := Ascii("https://") + url[6..];
    }
    if !Has(url, "http://") && !Has(url, "https://") {
      return Failure(InvalidArgument);
    }
    ghost var rewritten := url;
    assert rewritten == HttpScheme(given) + given[SchemeLength(given)..];
    while url != [] && url[|url| - 1] == SLASH
      invariant url <= rewritten && AllSlashes(rewritten[|url|..])
      decreases |url|
    {
      assert rewritten[|url| - 1..] == [SLASH] + rewritten[|url|..];
      url := url[..|url| - 1];
    }
    return Success(url);
  }

  // The four schemes

  /** url starts with these units, a letter in either case. */
  predicate Spells(url: Text, scheme: string) {
    |url| >= |scheme| && forall i :: 0 <= i < |scheme| ==>
      url[i] == scheme[i] as nat || ('a' <= scheme[i] <= 'z' && url[i] == scheme[i] as nat - 32)
  }

  predicate LowerCaseScheme(scheme: string) {
    forall i :: 0 <= i < |scheme| ==> 'a' <= scheme[i] <= 'z' || scheme[i] == ':' || scheme[i] == '/'
  }

  lemma SpellsIs(url: Text, scheme: string)
    requires LowerCaseScheme(scheme)
    ensures Has(url, scheme) <==> Spells(url, scheme)
  {
    if |url| >= |scheme| {
      forall i | 0 <= i < |scheme|
        ensures ToLower(Ascii(scheme)[i]) == ToLower(url[i])
                <==> url[i] == scheme[i] as nat || ('a' <= scheme[i] <= 'z' && url[i] == scheme[i] as nat - 32)
      {
      }
    }
  }

  lemma SchemeSpelled(url: Text)
    ensures Spells(url, "ws://") <==> SchemeLength(url) == 5
    ensures Spells(url, "wss://") <==> SchemeLength(url) == 6
    ensures Spells(url, "http://") <==> SchemeLength(url) == 7
    ensures Spells(url, "https://") <==> SchemeLength(url) == 8
  {
    SpellsIs(url, "ws://");
    SpellsIs(url, "wss://");
    SpellsIs(url, "http://");
    SpellsIs(url, "https://");
    OneScheme(url);
    OtherSchemes(url);
    hide Has, Spells;
  }

  lemma OtherSchemes(url: Text)
    ensures Has(url, "ws://") ==> !Has(url, "wss://") && !Has(url, "http://") && !Has(url, "https://")
  {
    if Has(url, "ws://") {
      assert ToLower(url[0]) == 'w' as nat && ToLower(url[2]) == ':' as nat;
    }
  }

  /** Exactly the URLs of the four schemes, in any case, have a normal form. */
  lemma AcceptedSchemes(url: Text)
    ensures SchemeLength(url) > 0
            <==> Spells(url, "ws://") || Spells(url, "wss://") || Spells(url, "http://") || Spells(url, "https://")
  {
    SchemeSpelled(url);
    hide Spells;
  }

  /** Something but slashes follows the first n units. */
  predicate GoesOnAfter(url: Text, n: nat) {
    exists i :: n <= i < |url| && url[i] != '/' as nat
  }

  /** v is the scheme, followed by what comes after the first n units of url without its last slashes. */
  predicate Rewritten(url: Text, n: nat, scheme: Text, v: Text) {
    n <= |url| && |v| > |scheme| && v[..|scheme|] == scheme && IsStripped(url[n..], v[|scheme|..])
  }

  /** What each scheme becomes: ws is http, wss is https, and http and https stay as they are spelled. */
  lemma SchemeRewritten(url: Text, v: Text)
    requires Normalizes(url, v)
    ensures Spells(url, "ws://") && GoesOnAfter(url, 5) ==> Rewritten(url, 5, Ascii("http://"), v)
    ensures Spells(url, "wss://") && GoesOnAfter(url, 6) ==> Rewritten(url, 6, Ascii("https://"), v)
    ensures Spells(url, "http://") && GoesOnAfter(url, 7) ==> Rewritten(url, 7, url[..7], v)
    ensures Spells(url, "https://") && GoesOnAfter(url, 8) ==> Rewritten(url, 8, url[..8], v)
  {
    SchemeSpelled(url);
    var n := SchemeLength(url);
    SchemeOf(url);
    NamesHostIs(url);
    hide Has, Spells, SchemeLength, Ascii;
    if GoesOnAfter(url, n) {
      OnlySchemeAndSlashes(url, v);
      RewrittenBy(url, v);
    }
  }

  lemma NamesHostIs(url: Text)
    ensures NamesHost(url) <==> GoesOnAfter(url, SchemeLength(url))
  {
    hide SchemeLength;
  }

  lemma RewrittenBy(url: Text, v: Text)
    requires Normalizes(url, v) && NamesHost(url)
    ensures Rewritten(url, SchemeLength(url), HttpScheme(url), v)
  {
    OnlySchemeAndSlashes(url, v);
    SchemeOf(url);
    hide Has, HttpScheme, NamesHost, Normalizes, IsStripped;
    assert |v[..SchemeLength(v)]| == SchemeLength(v);
  }

  // What normalizing keeps

  /** The address has something but slashes after its scheme. */
  predicate NamesHost(url: Text) {
    exists i :: SchemeLength(url) <= i < |url| && url[i] != SLASH
  }

  lemma SchemeOf(url: Text)
    requires SchemeLength(url) > 0
    ensures var s := HttpScheme(url); |s| in {7, 8} && Has(s, if |s| == 7 then "http://" else "https://")
  {
    HttpSchemes();
    var n := SchemeLength(url);
    if n == 7 {
      hide Ascii;
      HasPrefix(url[..7], url[7..], "http://");
      assert url[..7] + url[7..] == url;
    } else if n == 8 {
      hide Ascii;
      HasPrefix(url[..8], url[8..], "https://");
      assert url[..8] + url[8..] == url;
    }
  }

  lemma SchemeKept(scheme: Text, rest: Text)
    requires |scheme| in {7, 8} && Has(scheme, if |scheme| == 7 then "http://" else "https://")
    ensures SchemeLength(scheme + rest) == |scheme| && HttpScheme(scheme + rest) == scheme
  {
    hide Has;
    HasPrefix(scheme, rest, if |scheme| == 7 then "http://" else "https://");
    OneScheme(scheme + rest);
    assert (scheme + rest)[..|scheme|] == scheme;
  }

  /** Stripping stops after the scheme when something but slashes follows it. */
  lemma StrippedTail(scheme: Text, rest: Text, v: Text)
    requires IsStripped(scheme + rest, v) && !AllSlashes(rest)
    ensures |v| > |scheme| && v == scheme + v[|scheme|..]
    ensures IsStripped(rest, v[|scheme|..])
  {
    var t := scheme + rest;
    var i :| 0 <= i < |rest| && rest[i] != SLASH;
    assert t[|scheme| + i] == rest[i];
    forall j | |v| <= j < |t| ensures t[j] == SLASH {
      assert t[j] == t[|v|..][j - |v|];
    }
    assert v == t[..|v|];
    assert rest[|v| - |scheme|..] == t[|v|..];
  }

  /** Only the scheme is rewritten and only trailing slashes go: the rest is the rest of the given URL. */
  lemma OnlySchemeAndSlashes(url: Text, v: Text)
    requires Normalizes(url, v) && NamesHost(url)
    ensures SchemeLength(v) in {7, 8} && v[..SchemeLength(v)] == HttpScheme(url)
    ensures IsStripped(url[SchemeLength(url)..], v[SchemeLength(v)..]) && v[SchemeLength(v)..] != []
    ensures v[|v| - 1] != SLASH
  {
    var scheme, rest := HttpScheme(url), url[SchemeLength(url)..];
    SchemeOf(url);
    hide HttpScheme, SchemeLength, Has;
    assert !AllSlashes(rest) by {
      var i :| SchemeLength(url) <= i < |url| && url[i] != SLASH;
      assert rest[i - SchemeLength(url)] == url[i];
    }
    hide AllSlashes, NamesHost;
    StrippedTail(scheme, rest, v);
    SchemeKept(scheme, v[|scheme|..]);
    assert v[..|scheme|] == scheme;
  }

  lemma OwnNormalForm(v: Text)
    requires SchemeLength(v) in {7, 8} && v[|v| - 1] != SLASH
    ensures Normalizes(v, v)
  {
    hide Has;
    assert HttpScheme(v) + v[SchemeLength(v)..] == v;
  }

  /** Normalizing twice is normalizing once, exactly for the URLs that name a host; otherwise the second
      time is refused. */
  lemma Idempotent(url: Text, v: Text)
    requires Normalizes(url, v)
    ensures Normalizes(v, v) <==> NamesHost(url)
    ensures SchemeLength(v) > 0 <==> NamesHost(url)
  {
    if NamesHost(url) {
      hide Has, IsStripped, HttpScheme;
      OnlySchemeAndSlashes(url, v);
      OwnNormalForm(v);
    } else {
      NothingButSlashes(url, v);
    }
  }

  /** A bare scheme is accepted, and loses its slashes: the result is no longer a URL. */
  lemma BareScheme()
    ensures Normalizes(Ascii("wss://"), Ascii("https:"))
    ensures SchemeLength(Ascii("https:")) == 0
  {
    hide Has;
    HttpSchemes();
    OneScheme(Ascii("wss://"));
    assert Ascii("https:") <= Ascii("https://") + [];
    hide Ascii;
    NothingButSlashes(Ascii("wss://"), Ascii("https:"));
  }

  lemma NothingButSlashes(url: Text, v: Text)
    requires Normalizes(url, v) && !NamesHost(url)
    ensures SchemeLength(v) == 0
  {
    var scheme, rest := HttpScheme(url), url[SchemeLength(url)..];
    var t := scheme + rest;
    SchemeOf(url);
    assert AllSlashes(rest);
    var n := |scheme| - 2;
    assert ToLower(scheme[n]) == SLASH && ToLower(scheme[n + 1]) == SLASH && ToLower(scheme[n - 1]) == ':' as nat;
    assert forall i :: n <= i < |t| ==> t[i] == SLASH;
    assert |v| <= n;
    NoSlashes(scheme, v);
  }

  /** A scheme cut before its slashes is none. */
  lemma NoSlashes(scheme: Text, v: Text)
    requires |scheme| in {7, 8} && Has(scheme, if |scheme| == 7 then "http://" else "https://")
    requires v <= scheme && |v| <= |scheme| - 2
    ensures SchemeLength(v) == 0
  {
    if |v| >= 5 {
      assert v[0] == scheme[0] && ToLower(scheme[0]) == 'h' as nat;
    }
  }

  // The route of a call

  function Route(url: Text, service: Text, method_: Text): Text {
    url + Ascii("/twirp/livekit.") + service + [SLASH] + method_
  }

  lemma PrefixFree(service: Text)
    requires Free(service, SLASH)
    ensures Free(Ascii("livekit.") + service, SLASH)
    ensures Ascii("/twirp/livekit.") == Ascii("/twirp") + [SLASH] + Ascii("livekit.")
  {
  }

  /** A route is the server's URL, the Twirp prefix with the service, and the method. */
  lemma RouteParts(url: Text, service: Text, name: Text)
    ensures var r := Route(url, service, name);
            var n, m := |url|, |url| + 15 + |service|;
            && |r| == m + 1 + |name| && r[..n] == url && r[n..n + 15] == Ascii("/twirp/livekit.")
            && r[n + 15..m] == service && r[m] == '/' as nat && r[m + 1..] == name
  {
    var prefix := Ascii("/twirp/livekit.");
    assert |prefix| == 15;
    hide Ascii;
  }

  /** Different calls go to different routes, also across servers. */
  lemma RouteInjective(url: Text, service: Text, name: Text, url': Text, service': Text, name': Text)
    requires Free(service, SLASH) && Free(name, SLASH) && Free(service', SLASH) && Free(name', SLASH)
    requires Route(url, service, name) == Route(url', service', name')
    ensures url == url' && service == service' && name == name'
  {
    PrefixFree(service);
    PrefixFree(service');
    hide Ascii, Free;
    CutAtLast(url + Ascii("/twirp/livekit.") + service, name, url' + Ascii("/twirp/livekit.") + service', name', SLASH);
    var a, b := url + Ascii("/twirp"), url' + Ascii("/twirp");
    var c, d := Ascii("livekit.") + service, Ascii("livekit.") + service';
    assert a + [SLASH] + c == url + Ascii("/twirp/livekit.") + service;
    assert b + [SLASH] + d == url' + Ascii("/twirp/livekit.") + service';
    CutAtLast(a, c, b, d, SLASH);
    assert url == a[..|a| - 6] && url' == b[..|b| - 6];
    assert service == c[8..] && service' == d[8..];
  }
}
