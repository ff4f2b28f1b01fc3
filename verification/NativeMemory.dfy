/** The memory native code and its hosts share, with a log of what can be observed. */
module NativeMemory {
  import opened Text
  import opened CallbackProtocol

  /** The native allocator and the log. Pointers are never reused. */
  class World {
    var issued: nat
    var live: set<nat>
    /** What each pointer was given to hold. */
    var contents: map<nat, Text>
    var frees: seq<nat>
    var log: seq<Event>

    /** Every pointer ever handed out is either live or was freed exactly once. */
    ghost predicate Valid()
      reads this
    {
      && (forall p :: p in live ==> p < issued && p !in frees && p in contents)
      && (forall p :: p in frees ==> p < issued)
      && (forall p :: 0 <= p < issued ==> p in live || p in frees)
      && (forall i, j :: 0 <= i < j < |frees| ==> frees[i] != frees[j])
    }

    constructor ()
      ensures Valid() && live == {} && frees == [] && log == [] && issued == 0
    {
      issued, live, contents, frees, log := 0, {}, map[], [], [];
    }

    method Allocate(bytes: Text) returns (p: nat)
      requires Valid()
      modifies this`issued, this`live, this`contents, this`log
      ensures Valid() && p == old(issued) && issued == p + 1 && live == old(live) + {p}
      ensures contents == old(contents)[p := bytes] && log == old(log) + [Allocated(p)]
    {
      p := issued;
      issued, live, contents, log := issued + 1, live + {p}, contents[p := bytes], log + [Allocated(p)];
    }

    /** Reads a result; not after it was freed. */
    method Load(p: nat) returns (bytes: Text)
      requires Valid() && p in live
      ensures bytes == contents[p]
    {
      bytes := contents[p];
    }

    /** lks_free; freeing twice, or what was never allocated, is not allowed. */
    method Free(p: nat)
      requires Valid() && p in live
      modifies this`live, this`frees, this`log
      ensures Valid() && live == old(live) - {p} && frees == old(frees) + [p] && log == old(log) + [Freed(p)]
    {
      live, frees, log := live - {p}, frees + [p], log + [Freed(p)];
    }

    method Note(e: Event)
      requires Valid()
      modifies this`log
      ensures Valid() && log == old(log) + [e]
    {
      log := log + [e];
    }
  }

  /** What one step of a host adapter does to the world: these events, and the given number of results
      allocated and freed again, each exactly once. */
  twostate predicate Advances(world: World, events: seq<Event>, results: nat)
    reads world
  {
    && world.Valid()
    && world.log == old(world.log) + events
    && world.live == old(world.live)
    && world.issued == old(world.issued) + results
    && old(world.frees) <= world.frees && |world.frees| == |old(world.frees)| + results
  }

  /** A response buffer: its bytes may be read as long as it is alive. */
  class Buffer {
    const bytes: Text
    var alive: bool

    constructor (bytes: Text)
      ensures this.bytes == bytes && alive
    {
      this.bytes, alive := bytes, true;
    }

    /** Native code reads a response it was lent; not after it was released. */
    method Load() returns (t: Text)
      requires alive
      ensures t == bytes
    {
      t := bytes;
    }
  }

  ghost predicate AllAlive(buffers: seq<Buffer>)
    reads buffers
  {
    forall i :: 0 <= i < |buffers| ==> buffers[i].alive
  }

  /** What the buffers hold. */
  ghost function Bytes(buffers: seq<Buffer>): seq<Text> {
    seq(|buffers|, i requires 0 <= i < |buffers| => buffers[i].bytes)
  }

  lemma ManyLent(buffers: seq<Buffer>)
    ensures |Bytes(buffers)| == |buffers|
  {
  }

  /** Native code looks at everything it was lent once more before it returns. */
  method LoadAll(buffers: seq<Buffer>) returns (texts: seq<Text>)
    requires AllAlive(buffers)
    ensures texts == Bytes(buffers)
  {
    texts := [];
    for i := 0 to |buffers|
      invariant texts == Bytes(buffers)[..i]
    {
      var t := buffers[i].Load();
      texts := texts + [t];
      assert Bytes(buffers)[..i + 1] == Bytes(buffers)[..i] + [buffers[i].bytes];
    }
    assert Bytes(buffers)[..|buffers|] == Bytes(buffers);
  }

  /** The owner of the buffers goes out of scope, and they with it. */
  method ReleaseAll(world: World, buffers: seq<Buffer>)
    requires world.Valid()
    modifies buffers, world`log
    ensures world.Valid() && world.log == old(world.log) + [Released(|buffers|)]
    ensures forall b :: b in buffers ==> !b.alive
  {
    for i := 0 to |buffers|
      invariant forall j :: 0 <= j < i ==> !buffers[j].alive
      invariant world.Valid() && world.log == old(world.log)
    {
      buffers[i].alive := false;
    }
    world.Note(Released(|buffers|));
  }
}
