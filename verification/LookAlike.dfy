/** Strings that look like the marker of a claim once they are quoted: the marker's own name, and
    whatever ends in a quote character and that name. Escaping neither adds nor removes the look. */
module LookAlike {
  import opened Text
  import opened Json
  import opened JsonRoundTrip

  predicate IsLetter(u: nat) {
    'a' as nat <= u <= 'z' as nat || 'A' as nat <= u <= 'Z' as nat
  }

  predicate AllLetters(t: Text) {
    forall i :: 0 <= i < |t| ==> IsLetter(t[i])
  }

  /** s ends in a quote character and the name. */
  predicate EndsQuoted(s: Text, n: Text) {
    |s| > |n| && s[|s| - |n| - 1] == QUOTE && s[|s| - |n|..] == n
  }

  predicate LooksLike(s: Text, n: Text) {
    s == n || EndsQuoted(s, n)
  }

  // Escaping keeps the look

  /** A quote in escaped text splits it where the string has that quote. */
  lemma {:induction false} QuoteSplits(s: Text, i: nat) returns (k: nat)
    requires i < |Escape(Native, s)| && Escape(Native, s)[i] == QUOTE
    ensures k < |s| && s[k] == QUOTE && Escape(Native, s)[i + 1..] == Escape(Native, s[k + 1..])
    decreases |s|
  {
    var head, tail := EscapeUnit(Native, s[0]), Escape(Native, s[1..]);
    assert Escape(Native, s) == head + tail;
    hide Escape, EscapeUnit;
    if i < |head| {
      QuoteInUnit(s[0], i);
      k := 0;
      assert (head + tail)[i + 1..] == tail;
    } else {
      var j := QuoteSplits(s[1..], i - |head|);
      k := j + 1;
      assert (head + tail)[i + 1..] == tail[i - |head| + 1..];
      assert s[1..][k..] == s[k + 1..];
    }
  }

  lemma QuoteInUnit(u: nat, i: nat)
    requires i < |EscapeUnit(Native, u)| && EscapeUnit(Native, u)[i] == QUOTE
    ensures u == QUOTE && i == |EscapeUnit(Native, u)| - 1
  {
  }

  lemma {:induction false} LettersEscape(n: Text)
    requires AllLetters(n)
    ensures Escape(Native, n) == n
    decreases |n|
  {
    if n != [] {
      LettersEscape(n[1..]);
      assert IsLetter(n[0]);
      assert n == [n[0]] + n[1..];
    }
  }

  lemma EscapedLook(s: Text, n: Text, i: nat)
    requires AllLetters(n) && i < |Escape(Native, s)|
    requires Escape(Native, s)[i] == QUOTE && Escape(Native, s)[i + 1..] == n
    ensures LooksLike(s, n)
  {
    var k := QuoteSplits(s, i);
    LettersEscape(n);
    hide Escape;
    EscapeInjective(Native, s[k + 1..], n);
    assert |s| - |n| == k + 1;
  }

  lemma EscapedSame(s: Text, n: Text)
    requires AllLetters(n) && Escape(Native, s) == n
    ensures LooksLike(s, n)
  {
    LettersEscape(n);
    hide Escape;
    EscapeInjective(Native, s, n);
  }

  lemma QuoteBehind(s: Text, n: Text)
    requires AllLetters(n) && EndsQuoted(s, n)
    ensures EndsQuoted(Escape(Native, s), n)
  {
    var front := s[..|s| - |n| - 1];
    assert s == front + [QUOTE] + n;
    EscapeAppend(Native, front + [QUOTE], n);
    EscapeAppend(Native, front, [QUOTE]);
    EscapeOne(Native, QUOTE);
    LettersEscape(n);
    assert EscapeUnit(Native, QUOTE) == [BACKSLASH, QUOTE];
    hide Escape, EscapeUnit;
    assert Escape(Native, s) == Escape(Native, front) + [BACKSLASH, QUOTE] + n;
  }

  lemma LookBehind(s: Text, n: Text)
    requires AllLetters(n) && EndsQuoted(Escape(Native, s), n)
    ensures LooksLike(s, n)
  {
    hide Escape, LooksLike, AllLetters;
    var e := Escape(Native, s);
    var i := |e| - |n| - 1;
    assert e[i + 1..] == n;
    EscapedLook(s, n, i);
  }

  /** A string looks like a marker exactly when its escaped form does. */
  lemma LookEscaped(s: Text, n: Text)
    requires AllLetters(n)
    ensures LooksLike(Escape(Native, s), n) <==> LooksLike(s, n)
  {
    LettersEscape(n);
    hide Escape, EndsQuoted, AllLetters;
    if EndsQuoted(s, n) {
      QuoteBehind(s, n);
    }
    if Escape(Native, s) == n {
      EscapedSame(s, n);
    } else if EndsQuoted(Escape(Native, s), n) {
      LookBehind(s, n);
    }
  }
}
