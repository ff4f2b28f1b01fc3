/** The WinHTTP read loop: a body grown to make room for each chunk, then cut to what arrived. */
module ResponseBody {
  import opened Text
  import opened Wrappers

  /** One round: how much WinHTTP says is available (none: the query fails), and what it then delivers,
      at most that much (none: the read fails). After the last round nothing more is available. */
  datatype Round = Round(available: Option<nat>, chunk: Option<Text>) {
    predicate Valid() {
      available.Some? && chunk.Some? ==> |chunk.value| <= available.value
    }

    predicate Ends() {
      available == Some(0)
    }

    predicate Fails() {
      available.None? || (available.value > 0 && chunk.None?)
    }
  }

  /** Grown with zeros or cut to n units. */
  function Resize(t: Text, n: nat): (r: Text)
    ensures |r| == n
  {
    if n <= |t| then t[..n] else t + seq(n - |t|, _ => 0)
  }

  /** What ReadData leaves in the buffer: the chunk at the offset, the rest as it was. */
  function Overwrite(t: Text, offset: nat, chunk: Text): Text
    requires offset + |chunk| <= |t|
  {
    t[..offset] + chunk + t[offset + |chunk|..]
  }

  /** The rounds up to the first that ends the body or fails. */
  function Length(rounds: seq<Round>): (n: nat)
    ensures n <= |rounds|
    ensures forall i :: 0 <= i < n ==> !rounds[i].Ends() && !rounds[i].Fails()
    ensures n < |rounds| ==> rounds[n].Ends() || rounds[n].Fails()
  {
    if rounds == [] || rounds[0].Ends() || rounds[0].Fails() then 0 else 1 + Length(rounds[1..])
  }

  function Concat(rounds: seq<Round>): Text
    requires forall i :: 0 <= i < |rounds| ==> rounds[i].chunk.Some?
  {
    if rounds == [] then [] else Concat(rounds[..|rounds| - 1]) + rounds[|rounds| - 1].chunk.value
  }

  lemma {:induction false} LengthIs(rounds: seq<Round>, n: nat)
    requires n <= |rounds| && (forall i :: 0 <= i < n ==> !rounds[i].Ends() && !rounds[i].Fails())
    requires n < |rounds| ==> rounds[n].Ends() || rounds[n].Fails()
    ensures Length(rounds) == n
    decreases n
  {
    if n > 0 {
      LengthIs(rounds[1..], n - 1);
    }
  }

  lemma {:induction false} ConcatInOrder(a: seq<Round>, b: seq<Round>)
    requires forall i :: 0 <= i < |a| ==> a[i].chunk.Some?
    requires forall i :: 0 <= i < |b| ==> b[i].chunk.Some?
    ensures Concat(a + b) == Concat(a) + Concat(b)
    decreases |b|
  {
    if b == [] {
      assert a + b == a;
    } else {
      assert (a + b)[..|a + b| - 1] == a + b[..|b| - 1];
      ConcatInOrder(a, b[..|b| - 1]);
    }
  }

  predicate Delivers(round: Round) {
    round.available.Some? && round.available.value > 0 && round.chunk.Some?
  }

  /** Which rounds make up the body: those before the first at which nothing is available or something
      fails. */
  lemma LengthMeans(rounds: seq<Round>, n: nat)
    requires n <= |rounds|
    ensures Length(rounds) == n
            <==> (forall i :: 0 <= i < n ==> Delivers(rounds[i])) && (n < |rounds| ==> !Delivers(rounds[n]))
  {
    forall i | 0 <= i < |rounds| ensures Delivers(rounds[i]) <==> !rounds[i].Ends() && !rounds[i].Fails() {
      DeliversIs(rounds[i]);
    }
    hide Length, Delivers, Round.Ends, Round.Fails;
    if (forall i :: 0 <= i < n ==> Delivers(rounds[i])) && (n < |rounds| ==> !Delivers(rounds[n])) {
      LengthIs(rounds, n);
    }
  }

  lemma DeliversIs(round: Round)
    ensures Delivers(round) <==> !round.Ends() && !round.Fails()
  {
  }

  /** No stale unit survives a short read: the body is exactly the chunks, in order. */
  lemma ChunkAdded(body: Text, available: nat, chunk: Text)
    requires |chunk| <= available
    ensures Resize(Overwrite(Resize(body, |body| + available), |body|, chunk), |body| + |chunk|) == body + chunk
  {
  }

  lemma ChunkJoins(rounds: seq<Round>, i: nat)
    requires i < |rounds| && forall j :: 0 <= j <= i ==> rounds[j].chunk.Some?
    ensures Concat(rounds[..i + 1]) == Concat(rounds[..i]) + rounds[i].chunk.value
  {
    assert rounds[..i + 1][..i] == rounds[..i];
  }

  /** The body is the chunks delivered before nothing more was available; a failing round before that is a
      transport error. */
  method ReadBody(rounds: seq<Round>) returns (r: Result<Text, ErrorCode>)
    requires forall i :: 0 <= i < |rounds| ==> rounds[i].Valid()
    ensures var n := Length(rounds);
            r == if n < |rounds| && rounds[n].Fails() then Failure(Transport) else Success(Concat(rounds[..n]))
  {
    assert Concat(rounds[..0]) == [];
    hide Concat, Length, Resize, Overwrite;
    var body: Text := [];
    var i := 0;
    while i < |rounds|
      invariant 0 <= i <= |rounds|
      invariant forall j :: 0 <= j < i ==> !rounds[j].Ends() && !rounds[j].Fails()
      invariant body == Concat(rounds[..i])
    {
      if rounds[i].available.None? {
        LengthIs(rounds, i);
        return Failure(Transport);
      }
      var available := rounds[i].available.value;
      if available == 0 {
        break;
      }
      var offset := |body|;
      ghost var before := body;
      body := Resize(body, offset + available);
      if rounds[i].chunk.None? {
        LengthIs(rounds, i);
        return Failure(Transport);
      }
      var chunk := rounds[i].chunk.value;
      assert rounds[i].Valid();
      body := Overwrite(body, offset, chunk);
      body := Resize(body, offset + |chunk|);
      ChunkAdded(before, available, chunk);
      ChunkJoins(rounds, i);
      i := i + 1;
    }
    LengthIs(rounds, i);
    return Success(body);
  }
}
