/** The verifier's textual scan for an integer claim. */
module IntegerScan {
  import opened Text
  import opened Clock

  newtype Int64 = n: int | -0x8000_0000_0000_0000 <= n <= 0x7FFF_FFFF_FFFF_FFFF

  const MAX: Int64 := 0x7FFF_FFFF_FFFF_FFFF

  datatype Scan = Absent | Number(n: int) | NoColon | NoDigits | TooLarge

  /** `std::isspace` in the C locale. */
  predicate IsCSpace(u: nat) {
    u == 0x20 || 0x09 <= u <= 0x0D
  }

  /** Length of the longest prefix made of white space. */
  function SpaceRun(t: Text): (k: nat)
    ensures k <= |t| && (k < |t| ==> !IsCSpace(t[k]))
    ensures forall i :: 0 <= i < k ==> IsCSpace(t[i])
  {
    if t == [] || !IsCSpace(t[0]) then 0 else 1 + SpaceRun(t[1..])
  }

  function Marker(name: string): Text {
    Ascii("\"") + Ascii(name) + Ascii("\"")
  }

  /** The signed decimal number at the start of t, after white space. */
  function NumberAt(t: Text): Scan {
    var u := t[SpaceRun(t)..];
    var negative := u != [] && u[0] == '-' as nat;
    var digits := if negative then u[1..] else u;
    var k := DigitRun(digits);
    if k == 0 then NoDigits
    else if Value(digits[..k]) > INT64_MAX then TooLarge
    else
      var v: int := Value(digits[..k]);
      Number(if negative then -v else v)
  }

  /** The first quoted occurrence of the name, then the first colon, then the number there. */
  function ScanField(json: Text, name: string): Scan {
    var at := Find(json, Marker(name), 0);
    if at == -1 then Absent
    else
      var colon := Find(json, Ascii(":"), at + |Marker(name)|);
      if colon == -1 then NoColon else NumberAt(json[colon + 1..])
  }

  /** A digit can be appended exactly when the result still fits. */
  lemma CheckIsExact(value: int, digit: int)
    requires 0 <= value <= INT64_MAX && 0 <= digit <= 9
    ensures value > (INT64_MAX - digit) / 10 <==> 10 * value + digit > INT64_MAX
  {
  }

  lemma TakeNext(t: Text, k: nat, m: nat)
    requires k < m <= |t|
    ensures t[..k + 1] == t[..k] + [t[k]] && t[..m][..k + 1] == t[..k + 1]
  {
  }

  lemma MoreDigits(t: Text, k: nat)
    requires k < |t| && AllDigits(t[..k]) && IsDigit(t[k])
    ensures AllDigits(t[..k + 1]) && Value(t[..k + 1]) == 10 * Value(t[..k]) + (t[k] - '0' as nat)
    ensures DigitRun(t) > k && Value(t[..k + 1]) <= Value(t[..DigitRun(t)])
  {
    hide *;
    TakeNext(t, k, |t|);
    AppendDigit(t[..k], t[k]);
    RunIsLonger(t, k + 1);
    TakeNext(t, k, DigitRun(t));
    ValueGrows(t[..DigitRun(t)], k + 1);
  }

  lemma AppendDigit(digits: Text, digit: nat)
    requires AllDigits(digits) && IsDigit(digit)
    ensures AllDigits(digits + [digit]) && Value(digits + [digit]) == 10 * Value(digits) + (digit - '0' as nat)
  {
    assert (digits + [digit])[..|digits|] == digits;
  }

  lemma {:induction false} RunIsLonger(t: Text, k: nat)
    requires k <= |t| && AllDigits(t[..k])
    ensures DigitRun(t) >= k
  {
    if k > 0 {
      assert IsDigit(t[..k][0]);
      assert t[1..][..k - 1] == t[..k][1..];
      RunIsLonger(t[1..], k - 1);
    }
  }

  /** The digit loop: exact for every digit run, and no 64-bit operation in it overflows. */
  method ReadDigits(json: Text, start: nat) returns (r: Scan, end: nat)
    requires start < |json| && IsDigit(json[start])
    ensures var digits := json[start..];
            var v := Value(digits[..DigitRun(digits)]);
            r == if v > INT64_MAX then TooLarge else Number(v)
    ensures r.Number? ==> end == start + DigitRun(json[start..])
  {
    var position := start;
    var value: Int64 := 0;
    ghost var digits := json[start..];
    assert digits[..0] == [];
    while position < |json| && IsDigit(json[position])
      invariant start <= position <= |json|
      invariant AllDigits(digits[..position - start])
      invariant value as int == Value(digits[..position - start])
    {
      var digit := (json[position] - '0' as nat) as Int64;
      assert digits[position - start] == json[position];
      MoreDigits(digits, position - start);
      CheckIsExact(value as int, digit as int);
      position := position + 1;
      if value > (MAX - digit) / 10 {
        return TooLarge, position;
      }
      value := value * 10 + digit;
    }
    DigitRunUnique(digits, position - start);
    return Number(value as int), position;
  }

  lemma {:induction false} SpaceRunUnique(t: Text, k: nat)
    requires k <= |t| && (forall i :: 0 <= i < k ==> IsCSpace(t[i]))
    requires k < |t| ==> !IsCSpace(t[k])
    ensures SpaceRun(t) == k
  {
    if k > 0 {
      SpaceRunUnique(t[1..], k - 1);
    }
  }

  /** The number after the colon. */
  method ScanNumber(json: Text, from: nat) returns (r: Scan)
    requires from <= |json|
    ensures r == NumberAt(json[from..])
  {
    hide Value, DigitRun, SpaceRun;
    ghost var t := json[from..];
    var position := from;
    while position < |json| && IsCSpace(json[position])
      invariant from <= position <= |json|
      invariant forall i :: 0 <= i < position - from ==> IsCSpace(t[i])
    {
      assert t[position - from] == json[position];
      position := position + 1;
    }
    assert position < |json| ==> t[position - from] == json[position];
    SpaceRunUnique(t, position - from);
    assert t[position - from..] == json[position..];
    var negative := false;
    if position < |json| && json[position] == '-' as nat {
      assert json[position..][1..] == json[position + 1..];
      negative := true;
      position := position + 1;
    }
    NoDigitsHere(json, position);
    if position >= |json| || !IsDigit(json[position]) {
      return NoDigits;
    }
    var value, _ := ReadDigits(json, position);
    if value.TooLarge? {
      return TooLarge;
    }
    var n: Int64 := value.n as Int64;
    return Number((if negative then -n else n) as int);
  }

  lemma NoDigitsHere(json: Text, position: nat)
    requires position <= |json|
    ensures DigitRun(json[position..]) == 0 <==> position == |json| || !IsDigit(json[position])
  {
  }

  /** The scan of the source: marker, colon, number. */
  method JsonIntegerField(json: Text, name: string) returns (r: Scan)
    ensures r == ScanField(json, name)
  {
    hide NumberAt, Marker, Find;
    var marker := Marker(name);
    var position := Find(json, marker, 0);
    if position == -1 {
      return Absent;
    }
    position := Find(json, Ascii(":"), position + |marker|);
    if position == -1 {
      return NoColon;
    }
    r := ScanNumber(json, position + 1);
  }

  lemma NumberAtNegative(n: nat, rest: Text)
    requires rest != [] && !IsDigit(rest[0])
    ensures NumberAt(Ascii("-") + DecimalNat(n) + rest) == if n <= INT64_MAX then Number(-(n as int)) else TooLarge
  {
    SignedDigits(n, rest);
    hide DecimalNat, Value, DigitRun, SpaceRun;
    var t := Ascii("-") + DecimalNat(n) + rest;
    SpaceRunUnique(t, 0);
    assert t[0..] == t && t[0] == '-' as nat && t[1..] == DecimalNat(n) + rest;
  }

  lemma NumberAtNonNegative(n: nat, rest: Text)
    requires rest != [] && !IsDigit(rest[0])
    ensures NumberAt(DecimalNat(n) + rest) == if n <= INT64_MAX then Number(n) else TooLarge
  {
    SignedDigits(n, rest);
    hide DecimalNat, Value, DigitRun, SpaceRun;
    var t := DecimalNat(n) + rest;
    SpaceRunUnique(t, 0);
    assert t[0..] == t;
  }

  /** A printed number is read back exactly when its magnitude is at most 2^63 - 1. */
  lemma NumberAtDecimal(n: int, rest: Text)
    requires rest != [] && !IsDigit(rest[0])
    ensures NumberAt(Decimal(n) + rest) == if -INT64_MAX <= n <= INT64_MAX then Number(n) else TooLarge
  {
    hide *;
    if n < 0 {
      NumberAtNegative(-n, rest);
    } else {
      NumberAtNonNegative(n, rest);
    }
  }

  lemma SignedDigits(n: nat, rest: Text)
    requires rest != [] && !IsDigit(rest[0])
    ensures var t := DecimalNat(n) + rest;
            t != [] && IsDigit(t[0]) && DigitRun(t) > 0 && Value(t[..DigitRun(t)]) == n
  {
    var digits := DecimalNat(n);
    assert (digits + rest)[..|digits|] == digits;
    DigitRunUnique(digits + rest, |digits|);
  }

  /** White space of any of the six kinds may stand before the number. */
  lemma NumberAfterSpace(space: Text, n: int, rest: Text)
    requires forall i :: 0 <= i < |space| ==> space[i] in {0x20, 0x09, 0x0A, 0x0B, 0x0C, 0x0D}
    requires rest != [] && !IsDigit(rest[0])
    ensures NumberAt(space + (Decimal(n) + rest))
            == if -0x7FFF_FFFF_FFFF_FFFF <= n <= 0x7FFF_FFFF_FFFF_FFFF then Number(n) else TooLarge
  {
    NumberAtDecimal(n, rest);
    var t, u := space + (Decimal(n) + rest), Decimal(n) + rest;
    var first := Decimal(n)[0];
    assert first == '-' as nat || IsDigit(first);
    assert u[0] == first;
    hide Decimal, DigitRun, Value, SpaceRun;
    SpaceRunUnique(u, 0);
    assert t[|space|] == u[0];
    SpaceRunUnique(t, |space|);
    assert t[|space|..] == u && u[0..] == u;
  }

  /** Nothing else may: any other unit is no number. */
  lemma NothingElse(u: nat, rest: Text)
    requires u !in {0x20, 0x09, 0x0A, 0x0B, 0x0C, 0x0D} && u != '-' as nat && !('0' as nat <= u <= '9' as nat)
    ensures NumberAt([u] + rest) == NoDigits
  {
    var t := [u] + rest;
    SpaceRunUnique(t, 0);
    assert t[0..] == t;
  }
}
