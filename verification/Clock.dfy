/** 64-bit seconds and the ticks of the system clock. */
module Clock {
  const INT64_MAX: int := 0x7FFF_FFFF_FFFF_FFFF
  const INT64_MIN: int := -0x8000_0000_0000_0000

  predicate InInt64(n: int) {
    INT64_MIN <= n <= INT64_MAX
  }

  /** `duration_cast<seconds>` of a number of ticks: C++ division truncates toward zero. */
  function ToSeconds(ticks: int, perSecond: nat): (s: int)
    requires perSecond > 0
  {
    if ticks >= 0 then ticks / perSecond else -(-ticks / perSecond)
  }

  lemma Monotone(a: nat, b: nat, c: nat)
    requires a <= b
    ensures 0 <= a * c <= b * c
  {
  }

  lemma NextMultiple(a: nat, c: nat)
    ensures (a + 1) * c == a * c + c
  {
  }

  lemma QuotientOf(q: nat, rest: nat, c: nat)
    requires rest < c
    ensures (q * c + rest) / c == q
  {
    var t := q * c + rest;
    var d := t / c;
    assert d * c <= t < d * c + c;
    NextMultiple(d, c);
    NextMultiple(q, c);
    if d < q {
      Monotone(d + 1, q, c);
    } else if q < d {
      Monotone(q + 1, d, c);
    }
  }

  /** The whole seconds of a number of ticks, before the epoch as after it. */
  lemma TruncatesToZero(seconds: nat, rest: nat, perSecond: nat)
    requires rest < perSecond
    ensures ToSeconds(seconds * perSecond + rest, perSecond) == seconds
    ensures ToSeconds(0 - (seconds * perSecond + rest), perSecond) == 0 - seconds
  {
    Monotone(0, seconds, perSecond);
    QuotientOf(seconds, rest, perSecond);
  }
}
