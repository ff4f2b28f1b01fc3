/** Bit streams: numbers written as fixed-width groups of bits, most significant bit first. */
module BitStream {

  function Pow2(n: nat): (p: nat)
    ensures p > 0
  {
    if n == 0 then 1 else 2 * Pow2(n - 1)
  }

  /** The n low-order bits of v. */
  function Bits(v: nat, n: nat): (b: seq<bool>)
    ensures |b| == n
  {
    if n == 0 then [] else Bits(v / 2, n - 1) + [v % 2 == 1]
  }

  function Number(b: seq<bool>): (v: nat)
    ensures v < Pow2(|b|)
  {
    if b == [] then 0
    else 2 * Number(b[..|b| - 1]) + if b[|b| - 1] then 1 else 0
  }

  /** v shifted right by n. */
  function Shr(v: nat, n: nat): nat {
    if n == 0 then v else Shr(v / 2, n - 1)
  }

  /** The groups of a sequence, w bits each, one after the other. */
  function Stream(s: seq<nat>, w: nat): seq<bool> {
    if s == [] then [] else Stream(s[..|s| - 1], w) + Bits(s[|s| - 1], w)
  }

  /** The stream cut into groups of w bits; an incomplete last group is dropped. */
  function Groups(b: seq<bool>, w: nat): (g: seq<nat>)
    requires w > 0
    ensures Below(g, Pow2(w))
  {
    if |b| < w then [] else [Number(b[..w])] + Groups(b[w..], w)
  }

  predicate Below(s: seq<nat>, bound: nat) {
    forall i :: 0 <= i < |s| ==> s[i] < bound
  }

  function Zeros(n: nat): (b: seq<bool>)
    ensures |b| == n
  {
    seq(n, _ => false)
  }

  lemma {:induction false} NumberBits(v: nat, n: nat)
    requires v < Pow2(n)
    ensures Number(Bits(v, n)) == v
  {
    if n > 0 {
      NumberBits(v / 2, n - 1);
      assert Bits(v, n)[..n - 1] == Bits(v / 2, n - 1);
    }
  }

  lemma {:induction false} BitsNumber(b: seq<bool>)
    ensures Bits(Number(b), |b|) == b
  {
    if b != [] {
      BitsNumber(b[..|b| - 1]);
      assert Number(b) / 2 == Number(b[..|b| - 1]);
    }
  }

  /** The high bits of a number are the bits of its right shift. */
  lemma {:induction false} BitsSplit(v: nat, m: nat, n: nat)
    ensures Bits(v, m + n) == Bits(Shr(v, n), m) + Bits(v, n)
    decreases n
  {
    if n > 0 {
      BitsSplit(v / 2, m, n - 1);
      assert m + n - 1 == m + (n - 1);
    }
  }

  /** Only the n low-order bits matter. */
  lemma {:induction false} BitsOfSum(q: nat, r: nat, m: nat, n: nat)
    requires n <= m
    ensures Bits(q * Pow2(m) + r, n) == Bits(r, n)
    decreases n
  {
    if n > 0 {
      HalfOfSum(q, r, Pow2(m - 1));
      BitsOfSum(q, r / 2, m - 1, n - 1);
    }
  }

  lemma HalfOfSum(q: nat, r: nat, p: nat)
    ensures (q * (2 * p) + r) / 2 == q * p + r / 2 && (q * (2 * p) + r) % 2 == r % 2
  {
    var x := q * p;
    assert q * (2 * p) == 2 * x;
  }

  lemma {:induction false} BitsOfZero(n: nat)
    ensures Bits(0, n) == Zeros(n)
  {
    if n > 0 {
      BitsOfZero(n - 1);
    }
  }

  lemma {:induction false} StreamLength(s: seq<nat>, w: nat)
    ensures |Stream(s, w)| == |s| * w
    decreases |s|
  {
    if s != [] {
      StreamLength(s[..|s| - 1], w);
      assert |s| * w == (|s| - 1) * w + w;
    }
  }

  lemma StreamAppend(s: seq<nat>, v: nat, w: nat)
    ensures Stream(s + [v], w) == Stream(s, w) + Bits(v, w)
  {
    assert (s + [v])[..|s|] == s;
  }

  lemma {:induction false} StreamFirst(s: seq<nat>, w: nat)
    requires s != []
    ensures Stream(s, w) == Bits(s[0], w) + Stream(s[1..], w)
    decreases |s|
  {
    if |s| > 1 {
      var front := s[..|s| - 1];
      StreamFirst(front, w);
      assert front[1..] == s[1..][..|s| - 2];
    } else {
      assert s[..0] == [] && s[1..] == [];
    }
  }

  /** Cutting a stream gives back what it was made of, dropping up to w - 1 extra bits. */
  lemma {:induction false} GroupsStream(s: seq<nat>, w: nat, extra: seq<bool>)
    requires w > 0 && Below(s, Pow2(w)) && |extra| < w
    ensures Groups(Stream(s, w) + extra, w) == s
    decreases |s|
  {
    if s == [] {
      assert Stream(s, w) + extra == extra;
    } else {
      GroupsStream(s[1..], w, extra);
      FirstOfStream(s, w, extra);
      hide *;
      assert [s[0]] + s[1..] == s;
    }
  }

  lemma FirstOfStream(s: seq<nat>, w: nat, extra: seq<bool>)
    requires w > 0 && s != [] && s[0] < Pow2(w)
    ensures Groups(Stream(s, w) + extra, w) == [s[0]] + Groups(Stream(s[1..], w) + extra, w)
  {
    hide Stream, Bits, Number, Pow2, Groups;
    var first, rest := Bits(s[0], w), Stream(s[1..], w);
    StreamFirst(s, w);
    NumberBits(s[0], w);
    assert first + rest + extra == first + (rest + extra);
    FirstGroup(Stream(s, w) + extra, first, rest + extra, w);
  }

  lemma FirstGroup(b: seq<bool>, first: seq<bool>, rest: seq<bool>, w: nat)
    requires w > 0 && |first| == w && b == first + rest
    ensures Groups(b, w) == [Number(first)] + Groups(rest, w)
  {
    hide Number;
    assert b[..w] == first && b[w..] == rest;
  }

  /** A stream of whole groups is the stream of its groups. */
  lemma {:induction false} StreamGroups(b: seq<bool>, w: nat, k: nat)
    requires w > 0 && |b| == k * w
    ensures |Groups(b, w)| == k && Stream(Groups(b, w), w) == b
    decreases k
  {
    if k > 0 {
      assert k * w == (k - 1) * w + w && (k - 1) * w >= 0;
      StreamGroups(b[w..], w, k - 1);
      RestOfGroups(b, w);
      hide *;
      assert b == b[..w] + b[w..];
    }
  }

  lemma RestOfGroups(b: seq<bool>, w: nat)
    requires 0 < w <= |b|
    ensures |Groups(b, w)| == 1 + |Groups(b[w..], w)|
    ensures Stream(Groups(b, w), w) == b[..w] + Stream(Groups(b[w..], w), w)
  {
    hide Stream, Number, Bits, Pow2;
    StreamFirst(Groups(b, w), w);
    BitsNumber(b[..w]);
  }
}
