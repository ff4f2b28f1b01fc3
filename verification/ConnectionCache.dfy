/** The WinHTTP connection cache: a map keyed by one concatenated string that must behave like a map
    keyed by host and port. */
module ConnectionCache {
  import opened Text
  import opened Wrappers

  const COLON: nat := ':' as nat

  datatype Endpoint = Endpoint(host: Text, port: nat)

  function Key(e: Endpoint): Text {
    e.host + [COLON] + DecimalNat(e.port)
  }

  // The concatenated key loses nothing

  lemma DigitsHaveNoColon(digits: Text)
    requires AllDigits(digits)
    ensures Free(digits, COLON)
  {
    forall i | 0 <= i < |digits| ensures digits[i] != COLON {
      assert IsDigit(digits[i]);
    }
  }

  /** Different endpoints have different keys, also when the host contains colons. */
  lemma KeyInjective(a: Endpoint, b: Endpoint)
    requires Key(a) == Key(b)
    ensures a == b
  {
    hide DecimalNat;
    DigitsHaveNoColon(DecimalNat(a.port));
    DigitsHaveNoColon(DecimalNat(b.port));
    CutAtLast(a.host, DecimalNat(a.port), b.host, DecimalNat(b.port), COLON);
    assert Value(DecimalNat(a.port)) == a.port && Value(DecimalNat(b.port)) == b.port;
  }

  // The cache

  type Handle = nat

  /** The operating system's connection handles. A handle it gives out is not already open. */
  class Network {
    var open: set<Handle>
    var closed: seq<Handle>
    var next: Handle

    ghost predicate Valid()
      reads this
    {
      (forall h :: h in open ==> h < next && h !in closed) && (forall h :: h in closed ==> h < next)
      && (forall i, j :: 0 <= i < j < |closed| ==> closed[i] != closed[j])
    }

    constructor ()
      ensures Valid() && open == {} && closed == []
    {
      open, closed, next := {}, [], 0;
    }

    /** WinHttpConnect: a new handle, or none. */
    method Connect(succeeds: bool) returns (h: Option<Handle>)
      requires Valid()
      modifies this`open, this`next
      ensures Valid()
      ensures succeeds ==> h.Some? && h.value !in old(open) && open == old(open) + {h.value}
      ensures !succeeds ==> h.None? && open == old(open)
    {
      h := None;
      if succeeds {
        h := Some(next);
        open, next := open + {next}, next + 1;
      }
    }

    /** WinHttpCloseHandle; closing twice is not allowed. */
    method Close(h: Handle)
      requires Valid() && h in open
      modifies this`open, this`closed
      ensures Valid() && open == old(open) - {h} && closed == old(closed) + [h]
    {
      open, closed := open - {h}, closed + [h];
    }
  }

  /** The cache by key and the cache by endpoint say the same; every cached handle is open, and no two
      endpoints share one. */
  ghost predicate Agrees(connections: map<Text, Handle>, byEndpoint: map<Endpoint, Handle>, open: set<Handle>) {
    && (forall e :: e in byEndpoint ==> Key(e) in connections && connections[Key(e)] == byEndpoint[e])
    && (forall k :: k in connections ==> exists e :: e in byEndpoint && Key(e) == k)
    && (forall e :: e in byEndpoint ==> byEndpoint[e] in open)
    && (forall e, f :: e in byEndpoint && f in byEndpoint && e != f ==> byEndpoint[e] != byEndpoint[f])
  }

  lemma CachedByKey(connections: map<Text, Handle>, byEndpoint: map<Endpoint, Handle>, open: set<Handle>, e: Endpoint)
    requires Agrees(connections, byEndpoint, open)
    ensures Key(e) in connections <==> e in byEndpoint
    ensures e in byEndpoint ==> connections[Key(e)] == byEndpoint[e]
  {
    if Key(e) in connections {
      var f :| f in byEndpoint && Key(f) == Key(e);
      KeyInjective(e, f);
    }
  }

  lemma AgreesAdd(connections: map<Text, Handle>, byEndpoint: map<Endpoint, Handle>, open: set<Handle>,
                  e: Endpoint, h: Handle)
    requires Agrees(connections, byEndpoint, open) && e !in byEndpoint && h !in open
    ensures Agrees(connections[Key(e) := h], byEndpoint[e := h], open + {h})
  {
    hide Key;
    var c, b := connections[Key(e) := h], byEndpoint[e := h];
    forall f | f in byEndpoint ensures Key(f) != Key(e) {
      if Key(f) == Key(e) {
        KeyInjective(f, e);
      }
    }
    forall k | k in c ensures exists f :: f in b && Key(f) == k {
      if k == Key(e) {
        assert e in b && Key(e) == k;
      } else {
        var f :| f in byEndpoint && Key(f) == k;
        assert f in b && Key(f) == k;
      }
    }
  }

  lemma AgreesRemove(connections: map<Text, Handle>, byEndpoint: map<Endpoint, Handle>, open: set<Handle>, e: Endpoint)
    requires Agrees(connections, byEndpoint, open) && e in byEndpoint
    ensures Agrees(connections - {Key(e)}, byEndpoint - {e}, open - {byEndpoint[e]})
  {
    hide Key;
    var c, b := connections - {Key(e)}, byEndpoint - {e};
    forall f | f in byEndpoint && f != e ensures Key(f) != Key(e) {
      if Key(f) == Key(e) {
        KeyInjective(f, e);
      }
    }
    forall k | k in c ensures exists f :: f in b && Key(f) == k {
      var f :| f in byEndpoint && Key(f) == k;
      assert f in b && Key(f) == k;
    }
  }

  class WinHttpTransport {
    const network: Network
    var connections: map<Text, Handle>
    /** The same cache by endpoint. */
    ghost var byEndpoint: map<Endpoint, Handle>

    ghost predicate Valid()
      reads this, network
    {
      && network.Valid() && Agrees(connections, byEndpoint, network.open)
    }

    constructor (network: Network)
      requires network.Valid()
      ensures Valid() && this.network == network && byEndpoint == map[]
    {
      this.network := network;
      connections, byEndpoint := map[], map[];
    }

    /** The same endpoint always gets the handle it got first; another endpoint never gets that
        handle; an endpoint is opened only when it is not cached, and a failure caches nothing. */
    method Connection(host: Text, port: nat, succeeds: bool) returns (r: Result<Handle, ErrorCode>)
      requires Valid()
      modifies this, network
      ensures Valid() && network.closed == old(network.closed)
      ensures var e := Endpoint(host, port);
        if e in old(byEndpoint) then
          r == Success(old(byEndpoint)[e]) && byEndpoint == old(byEndpoint) && network.open == old(network.open)
        else if !succeeds then
          r == Failure(Transport) && byEndpoint == old(byEndpoint) && network.open == old(network.open)
        else
          r.Success? && r.value !in old(network.open) && byEndpoint == old(byEndpoint)[e := r.value]
          && network.open == old(network.open) + {r.value}
    {
      hide Agrees, DecimalNat;
      var key := host + [COLON] + DecimalNat(port);
      ghost var e := Endpoint(host, port);
      assert key == Key(e);
      hide Key;
      CachedByKey(connections, byEndpoint, network.open, e);
      if key in connections {
        return Success(connections[key]);
      }
      var connection := network.Connect(succeeds);
      if connection.None? {
        return Failure(Transport);
      }
      AgreesAdd(connections, byEndpoint, old(network.open), e, connection.value);
      connections := connections[key := connection.value];
      byEndpoint := byEndpoint[e := connection.value];
      return Success(connection.value);
    }

    /** Over any sequence of calls: a call succeeds exactly when its endpoint was cached before or has
        been opened by this or an earlier call; two successful calls got the same handle exactly when they
        named the same endpoint; and one handle was opened for each endpoint that is newly cached. */
    method ConnectAll(requests: seq<(Endpoint, bool)>) returns (handles: seq<Option<Handle>>)
      requires Valid()
      modifies this, network
      ensures Valid() && |handles| == |requests| && network.closed == old(network.closed)
      ensures forall i :: 0 <= i < |requests| ==> (handles[i].Some? <==> Cached(old(byEndpoint), requests, i))
      ensures forall i, j :: 0 <= i < |requests| && 0 <= j < |requests| && handles[i].Some? && handles[j].Some?
                ==> (handles[i] == handles[j] <==> requests[i].0 == requests[j].0)
      ensures byEndpoint.Keys == old(byEndpoint).Keys + Reached(requests)
      ensures network.open == old(network.open) + byEndpoint.Values
      ensures |network.open| - |old(network.open)| == |byEndpoint| - |old(byEndpoint)|
    {
      hide Agrees, Connected, Cached, Reached;
      handles := [];
      ghost var start := Snapshot(byEndpoint, network.open);
      CachedAreOpen();
      ConnectedNone(start, requests);
      for i := 0 to |requests|
        invariant Valid() && |handles| == i && network.closed == old(network.closed)
        invariant Connected(start, Snapshot(byEndpoint, network.open), requests, handles)
      {
        ghost var before := Snapshot(byEndpoint, network.open);
        var r := Connection(requests[i].0.host, requests[i].0.port, requests[i].1);
        var handle := if r.Success? then Some(r.value) else None;
        ConnectedMore(start, before, Snapshot(byEndpoint, network.open), requests, handles, handle);
        handles := handles + [handle];
      }
      HandlesDistinct();
      ConnectedAll(start, Snapshot(byEndpoint, network.open), requests, handles);
    }

    lemma HandlesDistinct()
      requires Valid()
      ensures forall e, f :: e in byEndpoint && f in byEndpoint && e != f ==> byEndpoint[e] != byEndpoint[f]
    {
    }

    lemma CachedAreOpen()
      requires Valid()
      ensures byEndpoint.Values <= network.open
    {
    }

    /** The destructor closes every cached connection, each exactly once, and nothing else. */
    method Destroy()
      requires Valid()
      modifies network
      ensures network.Valid()
      ensures network.open == old(network.open) - byEndpoint.Values
      ensures old(network.closed) <= network.closed
      ensures Elements(network.closed[|old(network.closed)|..]) == byEndpoint.Values
      ensures |network.closed| == |old(network.closed)| + |byEndpoint|
    {
      hide Agrees, Key, Closed, Elements;
      var remaining := connections;
      ghost var left := byEndpoint;
      ghost var start := network.closed;
      ClosedNone(byEndpoint, network.open, start);
      while remaining != map[]
        invariant network.Valid() && Agrees(remaining, left, network.open)
        invariant Closed(byEndpoint, old(network.open), start, left, network.open, network.closed)
        decreases |remaining|
      {
        var key :| key in remaining;
        ghost var e := EndpointOf(remaining, left, network.open, key);
        AgreesRemove(remaining, left, network.open, e);
        ClosedMore(byEndpoint, old(network.open), start, left, network.open, network.closed, e);
        network.Close(remaining[key]);
        remaining := remaining - {key};
        left := left - {e};
      }
      NothingLeft(left, network.open);
      ClosedAll(byEndpoint, old(network.open), start, network.open, network.closed);
    }
  }

  /** The endpoints some request opens, were it not cached. */
  ghost function Reached(requests: seq<(Endpoint, bool)>): set<Endpoint> {
    set i | 0 <= i < |requests| && requests[i].1 :: requests[i].0
  }

  ghost predicate Cached(before: map<Endpoint, Handle>, requests: seq<(Endpoint, bool)>, i: nat)
    requires i < |requests|
  {
    requests[i].0 in before || exists j :: 0 <= j <= i && requests[j] == (requests[i].0, true)
  }

  lemma ReachedAppend(requests: seq<(Endpoint, bool)>, i: nat)
    requires i < |requests|
    ensures Reached(requests[..i + 1]) == Reached(requests[..i]) + if requests[i].1 then {requests[i].0} else {}
  {
    var all, some := requests[..i + 1], requests[..i];
    forall e | e in Reached(all) ensures e in Reached(some) || requests[i] == (e, true) {
      var j :| 0 <= j < |all| && all[j].1 && all[j].0 == e;
      assert j < i ==> some[j] == all[j];
    }
    forall e | e in Reached(some) ensures e in Reached(all) {
      var j :| 0 <= j < |some| && some[j].1 && some[j].0 == e;
      assert all[j] == some[j];
    }
    assert all[i] == requests[i];
  }

  /** Whether the request at i finds its endpoint cached or opens it. */
  lemma CachedSoFar(start: map<Endpoint, Handle>, now: map<Endpoint, Handle>, requests: seq<(Endpoint, bool)>, i: nat)
    requires i < |requests| && KeysReached(start.Keys, now.Keys, requests, i)
    ensures Cached(start, requests, i) <==> requests[i].0 in now || requests[i].1
  {
    ReachedAppend(requests, i);
    var e := requests[i].0;
    if Cached(start, requests, i) && e !in start {
      var j :| 0 <= j <= i && requests[j] == (e, true);
      assert requests[..i + 1][j] == (e, true);
    }
    if e in Reached(requests[..i]) {
      var j :| 0 <= j < i && requests[..i][j].1 && requests[..i][j].0 == e;
      assert requests[j] == (e, true);
    }
    assert requests[i].1 ==> requests[i] == (e, true);
    assert e in now ==> e in start || e in Reached(requests[..i]);
  }

  lemma ValuesAdd(byEndpoint: map<Endpoint, Handle>, e: Endpoint, h: Handle)
    requires e !in byEndpoint
    ensures byEndpoint[e := h].Values == byEndpoint.Values + {h} && |byEndpoint[e := h]| == |byEndpoint| + 1
  {
    var b := byEndpoint[e := h];
    assert b[e] == h;
    forall v | v in byEndpoint.Values ensures v in b.Values {
      var f :| f in byEndpoint && byEndpoint[f] == v;
      assert b[f] == v;
    }
  }

  ghost function Elements(handles: seq<Handle>): set<Handle> {
    set h | h in handles
  }

  lemma OneMoreElement(handles: seq<Handle>, from: nat, h: Handle)
    requires from <= |handles|
    ensures Elements((handles + [h])[from..]) == Elements(handles[from..]) + {h}
  {
    assert (handles + [h])[from..] == handles[from..] + [h];
  }

  // Any sequence of calls

  /** The cache by endpoint and the open handles. */
  datatype Snapshot = Snapshot(byEndpoint: map<Endpoint, Handle>, open: set<Handle>)

  /** Where the calls so far have taken the cache, and what they returned. */
  ghost predicate Connected(start: Snapshot, now: Snapshot, requests: seq<(Endpoint, bool)>,
                            handles: seq<Option<Handle>>)
    requires |handles| <= |requests|
  {
    && Returned(start.byEndpoint, now.byEndpoint, requests, handles)
    && KeysReached(start.byEndpoint.Keys, now.byEndpoint.Keys, requests, |handles|)
    && OpensCached(start, now)
  }

  ghost predicate KeysReached(start: set<Endpoint>, now: set<Endpoint>, requests: seq<(Endpoint, bool)>, n: nat)
    requires n <= |requests|
  {
    now == start + Reached(requests[..n])
  }

  ghost predicate Returned(start: map<Endpoint, Handle>, now: map<Endpoint, Handle>, requests: seq<(Endpoint, bool)>,
                           handles: seq<Option<Handle>>)
    requires |handles| <= |requests|
  {
    forall j :: 0 <= j < |handles| ==>
      && (handles[j].Some? <==> Cached(start, requests, j))
      && (handles[j].Some? ==> requests[j].0 in now && now[requests[j].0] == handles[j].value)
  }

  /** One handle has been opened for each endpoint that is newly cached. */
  ghost predicate OpensCached(start: Snapshot, now: Snapshot) {
    && now.open == start.open + now.byEndpoint.Values
    && |now.open| - |start.open| == |now.byEndpoint| - |start.byEndpoint|
  }

  lemma ConnectedNone(start: Snapshot, requests: seq<(Endpoint, bool)>)
    requires start.byEndpoint.Values <= start.open
    ensures Connected(start, start, requests, [])
  {
    assert Reached(requests[..0]) == {};
  }

  /** What one call does to the cache. */
  ghost predicate Connects(before: Snapshot, now: Snapshot, e: Endpoint, succeeds: bool, handle: Option<Handle>) {
    if e in before.byEndpoint then handle == Some(before.byEndpoint[e]) && now == before
    else if !succeeds then handle == None && now == before
    else
      handle.Some? && handle.value !in before.open
      && now == Snapshot(before.byEndpoint[e := handle.value], before.open + {handle.value})
  }

  lemma ConnectedMore(start: Snapshot, before: Snapshot, now: Snapshot, requests: seq<(Endpoint, bool)>,
                      handles: seq<Option<Handle>>, handle: Option<Handle>)
    requires |handles| < |requests| && Connected(start, before, requests, handles)
    requires Connects(before, now, requests[|handles|].0, requests[|handles|].1, handle)
    ensures Connected(start, now, requests, handles + [handle])
  {
    hide *;
    var i := |handles|;
    ConnectedParts(start, before, requests, handles);
    CachedSoFar(start.byEndpoint, before.byEndpoint, requests, i);
    ReturnedMore(start.byEndpoint, before, now, requests, handles, handle);
    OpensMore(start, before, now, requests[i].0, requests[i].1, handle);
    KeysMore(start.byEndpoint.Keys, before, now, requests, i, handle);
    ConnectedWhole(start, now, requests, handles + [handle]);
  }

  lemma ConnectedParts(start: Snapshot, now: Snapshot, requests: seq<(Endpoint, bool)>, handles: seq<Option<Handle>>)
    requires |handles| <= |requests| && Connected(start, now, requests, handles)
    ensures Returned(start.byEndpoint, now.byEndpoint, requests, handles) && OpensCached(start, now)
    ensures KeysReached(start.byEndpoint.Keys, now.byEndpoint.Keys, requests, |handles|)
  {
    hide Returned, OpensCached, KeysReached;
  }

  lemma ConnectedWhole(start: Snapshot, now: Snapshot, requests: seq<(Endpoint, bool)>, handles: seq<Option<Handle>>)
    requires |handles| <= |requests| && Returned(start.byEndpoint, now.byEndpoint, requests, handles)
    requires OpensCached(start, now) && KeysReached(start.byEndpoint.Keys, now.byEndpoint.Keys, requests, |handles|)
    ensures Connected(start, now, requests, handles)
  {
    hide Returned, OpensCached, KeysReached;
  }

  lemma KeysMore(start: set<Endpoint>, before: Snapshot, now: Snapshot, requests: seq<(Endpoint, bool)>, i: nat,
                 handle: Option<Handle>)
    requires i < |requests| && Connects(before, now, requests[i].0, requests[i].1, handle)
    requires KeysReached(start, before.byEndpoint.Keys, requests, i)
    ensures KeysReached(start, now.byEndpoint.Keys, requests, i + 1)
  {
    ReachedAppend(requests, i);
    hide Reached;
  }

  lemma ReturnedMore(start: map<Endpoint, Handle>, before: Snapshot, now: Snapshot, requests: seq<(Endpoint, bool)>,
                     handles: seq<Option<Handle>>, handle: Option<Handle>)
    requires |handles| < |requests| && Returned(start, before.byEndpoint, requests, handles)
    requires Connects(before, now, requests[|handles|].0, requests[|handles|].1, handle)
    requires Cached(start, requests, |handles|)
             <==> requests[|handles|].0 in before.byEndpoint || requests[|handles|].1
    ensures Returned(start, now.byEndpoint, requests, handles + [handle])
  {
    hide Cached;
  }

  lemma OpensMore(start: Snapshot, before: Snapshot, now: Snapshot, e: Endpoint, succeeds: bool, handle: Option<Handle>)
    requires OpensCached(start, before) && Connects(before, now, e, succeeds, handle)
    ensures OpensCached(start, now)
  {
    if now != before {
      ValuesAdd(before.byEndpoint, e, handle.value);
      OneMoreOpen(start.open, before.open, before.byEndpoint.Values, handle.value);
    }
  }

  lemma OneMoreOpen(start: set<Handle>, open: set<Handle>, cached: set<Handle>, h: Handle)
    requires open == start + cached && h !in open
    ensures open + {h} == start + (cached + {h}) && |open + {h}| == |open| + 1
  {
  }

  lemma ConnectedAll(start: Snapshot, now: Snapshot, requests: seq<(Endpoint, bool)>, handles: seq<Option<Handle>>)
    requires |handles| == |requests| && Connected(start, now, requests, handles)
    requires forall e, f :: e in now.byEndpoint && f in now.byEndpoint && e != f
               ==> now.byEndpoint[e] != now.byEndpoint[f]
    ensures forall i, j :: 0 <= i < |requests| && 0 <= j < |requests| && handles[i].Some? && handles[j].Some?
              ==> (handles[i] == handles[j] <==> requests[i].0 == requests[j].0)
    ensures now.byEndpoint.Keys == start.byEndpoint.Keys + Reached(requests)
    ensures now.open == start.open + now.byEndpoint.Values
    ensures |now.open| - |start.open| == |now.byEndpoint| - |start.byEndpoint|
    ensures forall i :: 0 <= i < |requests| ==> (handles[i].Some? <==> Cached(start.byEndpoint, requests, i))
  {
    hide Cached, Reached;
    assert requests[..|handles|] == requests;
  }

  // Closing them all

  /** What has been closed so far, and which connections are left. */
  ghost predicate Closed(all: map<Endpoint, Handle>, open: set<Handle>, closed: seq<Handle>,
                         left: map<Endpoint, Handle>, openNow: set<Handle>, closedNow: seq<Handle>) {
    && openNow - left.Values == open - all.Values
    && closed <= closedNow && Elements(closedNow[|closed|..]) + left.Values == all.Values
    && |closedNow| + |left| == |closed| + |all|
  }

  lemma ClosedNone(all: map<Endpoint, Handle>, open: set<Handle>, closed: seq<Handle>)
    ensures Closed(all, open, closed, all, open, closed)
  {
    assert closed[|closed|..] == [];
  }

  lemma ClosedMore(all: map<Endpoint, Handle>, open: set<Handle>, closed: seq<Handle>,
                   left: map<Endpoint, Handle>, openNow: set<Handle>, closedNow: seq<Handle>, e: Endpoint)
    requires Closed(all, open, closed, left, openNow, closedNow) && e in left
    ensures Closed(all, open, closed, left - {e}, openNow - {left[e]}, closedNow + [left[e]])
  {
    hide Elements;
    ValuesRemove(left, openNow, e);
    ValuesWithout(left, e);
    OneMoreElement(closedNow, |closed|, left[e]);
  }

  lemma ClosedAll(all: map<Endpoint, Handle>, open: set<Handle>, closed: seq<Handle>,
                  openNow: set<Handle>, closedNow: seq<Handle>)
    requires Closed(all, open, closed, map[], openNow, closedNow)
    ensures openNow == open - all.Values && closed <= closedNow
    ensures Elements(closedNow[|closed|..]) == all.Values && |closedNow| == |closed| + |all|
  {
    hide Elements;
    var none: map<Endpoint, Handle> := map[];
    assert none.Values == {};
  }

  ghost function EndpointOf(connections: map<Text, Handle>, byEndpoint: map<Endpoint, Handle>, open: set<Handle>,
                            key: Text): (e: Endpoint)
    requires Agrees(connections, byEndpoint, open) && key in connections
    ensures e in byEndpoint && Key(e) == key && byEndpoint[e] == connections[key] && connections[key] in open
  {
    var e :| e in byEndpoint && Key(e) == key;
    e
  }

  lemma ValuesWithout(byEndpoint: map<Endpoint, Handle>, e: Endpoint)
    requires e in byEndpoint
    ensures byEndpoint.Values == (byEndpoint - {e}).Values + {byEndpoint[e]}
    ensures |byEndpoint - {e}| == |byEndpoint| - 1
  {
    var b := byEndpoint - {e};
    forall h | h in byEndpoint.Values ensures h in b.Values + {byEndpoint[e]} {
      var f :| f in byEndpoint && byEndpoint[f] == h;
      assert f != e ==> f in b && b[f] == h;
    }
    assert b.Keys == byEndpoint.Keys - {e};
    assert |b| == |b.Keys| && |byEndpoint| == |byEndpoint.Keys|;
  }

  lemma ValuesRemove(byEndpoint: map<Endpoint, Handle>, open: set<Handle>, e: Endpoint)
    requires e in byEndpoint
    ensures (open - {byEndpoint[e]}) - (byEndpoint - {e}).Values == open - byEndpoint.Values
    ensures |byEndpoint - {e}| == |byEndpoint| - 1
  {
    ValuesWithout(byEndpoint, e);
  }

  lemma NothingLeft(byEndpoint: map<Endpoint, Handle>, open: set<Handle>)
    requires Agrees(map[], byEndpoint, open)
    ensures byEndpoint == map[]
  {
    forall e ensures e !in byEndpoint { }
  }
}
