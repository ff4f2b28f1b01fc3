/** Texts as sequences of code units, with decimal printing and substring search.

    A unit is one `char` of a C++ string (a byte) or one UTF-16 code unit of a Java string. */
module Text {

  type Text = seq<nat>

  predicate IsBytes(t: Text) {
    forall i :: 0 <= i < |t| ==> t[i] < 256
  }

  /** The units of a literal. */
  function Ascii(s: string): (t: Text)
    ensures |t| == |s|
    ensures forall i :: 0 <= i < |s| ==> t[i] == s[i] as nat
  {
    seq(|s|, i requires 0 <= i < |s| => s[i] as nat)
  }

  lemma AsciiInjective(a: string, b: string)
    requires Ascii(a) == Ascii(b)
    ensures a == b
  {
    forall i | 0 <= i < |a| ensures a[i] == b[i] {
      assert Ascii(a)[i] == Ascii(b)[i];
    }
  }

  // Decimal numbers

  predicate IsDigit(u: nat) {
    '0' as nat <= u <= '9' as nat
  }

  predicate AllDigits(t: Text) {
    forall i :: 0 <= i < |t| ==> IsDigit(t[i])
  }

  /** The number a digit string denotes. */
  function Value(digits: Text): nat
    requires AllDigits(digits)
  {
    if digits == [] then 0
    else 10 * Value(digits[..|digits| - 1]) + (digits[|digits| - 1] - '0' as nat)
  }

  /** The digits of n, most significant first, without leading zeros. */
  function DecimalNat(n: nat): (t: Text)
    ensures t != [] && AllDigits(t) && Value(t) == n
    ensures |t| > 1 ==> t[0] != '0' as nat
  {
    if n < 10 then
      var t := ['0' as nat + n];
      assert t[..0] == [];
      t
    else
      var t := DecimalNat(n / 10) + ['0' as nat + n % 10];
      assert t[..|t| - 1] == DecimalNat(n / 10);
      t
  }

  /** What `operator<<` and `std::to_string` print for an integer. */
  function Decimal(n: int): (t: Text)
    ensures t != []
    ensures n >= 0 ==> t == DecimalNat(n)
    ensures n < 0 ==> t == Ascii("-") + DecimalNat(-n)
  {
    if n < 0 then Ascii("-") + DecimalNat(-n) else DecimalNat(n)
  }

  /** Length of the longest prefix made of digits. */
  function DigitRun(t: Text): (k: nat)
    ensures k <= |t| && AllDigits(t[..k])
    ensures k < |t| ==> !IsDigit(t[k])
  {
    if t == [] || !IsDigit(t[0]) then 0
    else
      var k := 1 + DigitRun(t[1..]);
      assert t[..k] == [t[0]] + t[1..][..k - 1];
      k
  }

  lemma {:induction false} DigitRunUnique(t: Text, k: nat)
    requires k <= |t| && AllDigits(t[..k])
    requires k < |t| ==> !IsDigit(t[k])
    ensures DigitRun(t) == k
  {
    if k > 0 {
      assert forall i :: 0 <= i < k ==> IsDigit(t[i]) by {
        forall i | 0 <= i < k ensures IsDigit(t[i]) { assert t[..k][i] == t[i]; }
      }
      DigitRunUnique(t[1..], k - 1);
    }
  }

  /** A longer digit string denotes at least as much. */
  lemma {:induction false} ValueGrows(digits: Text, k: nat)
    requires AllDigits(digits) && k <= |digits|
    ensures Value(digits[..k]) <= Value(digits)
    decreases |digits|
  {
    if k < |digits| {
      var front := digits[..|digits| - 1];
      assert front[..k] == digits[..k];
      ValueGrows(front, k);
    } else {
      assert digits[..k] == digits;
    }
  }

  // Substring search

  predicate Occurs(t: Text, pattern: Text, at: int) {
    0 <= at && at + |pattern| <= |t| && t[at..at + |pattern|] == pattern
  }

  /** `std::string_view::find(pattern, from)`: the least occurrence at or after from, or -1 for npos. */
  function Find(t: Text, pattern: Text, from: nat): (at: int)
    ensures at == -1 || (from <= at && Occurs(t, pattern, at))
    ensures forall i :: from <= i && (at == -1 || i < at) ==> !Occurs(t, pattern, i)
    decreases |t| - from
  {
    if from + |pattern| > |t| then -1
    else if Occurs(t, pattern, from) then from
    else Find(t, pattern, from + 1)
  }

  lemma FindIs(t: Text, pattern: Text, from: nat, at: nat)
    requires from <= at && Occurs(t, pattern, at)
    requires forall i :: from <= i < at ==> !Occurs(t, pattern, i)
    ensures Find(t, pattern, from) == at
  {
  }

  lemma OccursAt(t: Text, pattern: Text, at: nat, i: nat)
    requires Occurs(t, pattern, at) && i < |pattern|
    ensures t[at + i] == pattern[i]
  {
    assert t[at..at + |pattern|][i] == pattern[i];
  }

  /** `starts_with`. */
  predicate StartsWith(t: Text, prefix: Text) {
    |prefix| <= |t| && t[..|prefix|] == prefix
  }

  // Cutting at a mark

  predicate Free(t: Text, mark: nat) {
    forall i :: 0 <= i < |t| ==> t[i] != mark
  }

  lemma LastMark(front: Text, mark: nat, tail: Text, t: Text)
    requires t == front + [mark] + tail && Free(tail, mark)
    ensures |front| < |t| && t[|front|] == mark && forall i :: |front| < i < |t| ==> t[i] != mark
  {
    forall i | |front| < i < |t| ensures t[i] != mark {
      assert t[i] == tail[i - |front| - 1];
    }
  }

  /** Cutting at the last mark is unambiguous. */
  lemma CutAtLast(front: Text, tail: Text, front': Text, tail': Text, mark: nat)
    requires front + [mark] + tail == front' + [mark] + tail'
    requires Free(tail, mark) && Free(tail', mark)
    ensures front == front' && tail == tail'
  {
    var t := front + [mark] + tail;
    LastMark(front, mark, tail, t);
    LastMark(front', mark, tail', t);
    assert |front| == |front'|;
    assert front == t[..|front|] && front' == t[..|front'|];
    assert tail == t[|front| + 1..] && tail' == t[|front'| + 1..];
  }
}
