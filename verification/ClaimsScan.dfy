/** The textual scan on printed claims: what it finds for "nbf" and "exp" under every API key. */
module ClaimsScan {
  import opened Text
  import opened Wrappers
  import opened Clock
  import opened Json
  import opened JsonRoundTrip
  import opened Claims
  import opened TokenPrinter
  import opened IntegerScan
  import opened LookAlike

  // Where quotes can stand in escaped text

  lemma {:induction false} QuotesAreEscaped(s: Text, i: nat)
    requires i < |Escape(Native, s)| && Escape(Native, s)[i] == QUOTE
    ensures i > 0 && Escape(Native, s)[i - 1] == BACKSLASH
    decreases |s|
  {
    var head := EscapeUnit(Native, s[0]);
    if i >= |head| {
      QuotesAreEscaped(s[1..], i - |head|);
    }
  }

  /** How claims start: the issuer, then the two times. */
  function StartOfClaims(issuer: Text, nbf: Text, exp: Text, rest: Text): Text {
    Ascii("{\"iss\":\"") + issuer + Ascii("\",\"nbf\":") + nbf + Ascii(",\"exp\":") + exp + rest
  }

  predicate IsNumberText(t: Text) {
    forall i :: 0 <= i < |t| ==> t[i] != QUOTE && t[i] != ':' as nat
  }

  lemma DecimalIsNumberText(n: int)
    ensures IsNumberText(Decimal(n))
  {
    var t := Decimal(n);
    var digits := DecimalNat(if n < 0 then -n else n);
    forall i | 0 <= i < |t| ensures t[i] != QUOTE && t[i] != ':' as nat {
      assert t[i] == '-' as nat || IsDigit(t[i]) by {
        if n < 0 && i > 0 {
          assert IsDigit(digits[i - 1]);
        } else if n >= 0 {
          assert IsDigit(digits[i]);
        }
      }
    }
  }

  /** A three-letter claim name whose letters cannot be confused with the text around it. */
  predicate IsTimeName(name: string) {
    name == "nbf" || name == "exp"
  }

  lemma MarkerUnits(name: string)
    requires IsTimeName(name)
    ensures var m := Marker(name);
            |m| == 5 && m[0] == QUOTE && m[4] == QUOTE
            && m[1] == name[0] as nat && m[2] == name[1] as nat && m[3] == name[2] as nat
  {
  }

  lemma MarkerAt(t: Text, name: string, at: nat)
    requires IsTimeName(name)
    ensures Occurs(t, Marker(name), at) <==>
              && at + 5 <= |t| && t[at] == QUOTE && t[at + 4] == QUOTE
              && t[at + 1] == name[0] as nat && t[at + 2] == name[1] as nat && t[at + 3] == name[2] as nat
  {
    MarkerUnits(name);
    hide Marker;
    var m := Marker(name);
    if at + 5 <= |t| {
      var u := t[at..at + 5];
      assert u[0] == t[at] && u[1] == t[at + 1] && u[2] == t[at + 2] && u[3] == t[at + 3] && u[4] == t[at + 4];
    }
  }

  /** The text around the issuer: 8 units before it, a closing quote and a comma after it. */
  lemma AroundIssuer(issuer: Text, nbf: Text, exp: Text, rest: Text)
    ensures var t := StartOfClaims(issuer, nbf, exp, rest);
            var p := 8 + |issuer|;
            && |t| == p + 8 + |nbf| + 7 + |exp| + |rest|
            && (forall i :: 0 <= i < |issuer| ==> t[8 + i] == issuer[i])
            && t[0] == '{' as nat && t[1] == QUOTE && t[2] == 'i' as nat && t[3] == 's' as nat && t[4] == 's' as nat
            && t[5] == QUOTE && t[6] == ':' as nat && t[7] == QUOTE
            && t[p] == QUOTE && t[p + 1] == ',' as nat && t[p + 2] == QUOTE && t[p + 3] == 'n' as nat
            && t[p + 4] == 'b' as nat && t[p + 5] == 'f' as nat && t[p + 6] == QUOTE && t[p + 7] == ':' as nat
  {
  }

  lemma AfterNbf(issuer: Text, nbf: Text, exp: Text, rest: Text)
    ensures var t := StartOfClaims(issuer, nbf, exp, rest);
            var p := 8 + |issuer|;
            var q := p + 8 + |nbf|;
            && q + 7 <= |t| && (forall i :: 0 <= i < |nbf| ==> t[p + 8 + i] == nbf[i])
            && t[q] == ',' as nat && t[q + 1] == QUOTE && t[q + 2] == 'e' as nat && t[q + 3] == 'x' as nat
            && t[q + 4] == 'p' as nat && t[q + 5] == QUOTE && t[q + 6] == ':' as nat
            && t[p + 8..] == nbf + (Ascii(",\"exp\":") + exp + rest) && t[q + 7..] == exp + rest
  {
  }

  /** A marker never ends inside the escaped issuer: its closing quote would need a backslash. */
  lemma NotInside(key: Text, nbf: Text, exp: Text, rest: Text, name: string, at: nat)
    requires IsTimeName(name) && 7 <= at && at + 4 < 8 + |Escape(Native, key)|
    ensures !Occurs(StartOfClaims(Escape(Native, key), nbf, exp, rest), Marker(name), at)
  {
    var issuer := Escape(Native, key);
    var t := StartOfClaims(issuer, nbf, exp, rest);
    AroundIssuer(issuer, nbf, exp, rest);
    MarkerAt(t, name, at);
    hide StartOfClaims, Marker, Escape, Occurs;
    assert t[8 + (at - 4)] == issuer[at - 4] && t[8 + (at - 5)] == issuer[at - 5];
    if issuer[at - 4] == QUOTE {
      QuotesAreEscaped(key, at - 4);
    }
  }

  lemma NotBefore(issuer: Text, nbf: Text, exp: Text, rest: Text, name: string, at: nat)
    requires IsTimeName(name) && at < 7
    ensures !Occurs(StartOfClaims(issuer, nbf, exp, rest), Marker(name), at)
  {
    var t := StartOfClaims(issuer, nbf, exp, rest);
    AroundIssuer(issuer, nbf, exp, rest);
    MarkerAt(t, name, at);
    hide StartOfClaims, Marker, Occurs;
  }

  lemma NotAcross(issuer: Text, nbf: Text, exp: Text, rest: Text, name: string, at: nat)
    requires IsTimeName(name) && at <= 8 + |issuer| < at + 4
    ensures !Occurs(StartOfClaims(issuer, nbf, exp, rest), Marker(name), at)
  {
    var t := StartOfClaims(issuer, nbf, exp, rest);
    AroundIssuer(issuer, nbf, exp, rest);
    MarkerAt(t, name, at);
    hide StartOfClaims, Marker, Occurs;
  }

  /** Up to the issuer's closing quote the marker can occur in one place only: right before it. */
  lemma EarlyMatch(key: Text, nbf: Text, exp: Text, rest: Text, name: string, at: nat)
    requires IsTimeName(name) && at <= 8 + |Escape(Native, key)|
    requires Occurs(StartOfClaims(Escape(Native, key), nbf, exp, rest), Marker(name), at)
    ensures at + 4 == 8 + |Escape(Native, key)|
  {
    hide StartOfClaims, Marker, Escape, Occurs;
    if at < 7 {
      NotBefore(Escape(Native, key), nbf, exp, rest, name, at);
    } else if at + 4 < 8 + |Escape(Native, key)| {
      NotInside(key, nbf, exp, rest, name, at);
    } else if at + 4 > 8 + |Escape(Native, key)| {
      NotAcross(Escape(Native, key), nbf, exp, rest, name, at);
    }
  }

  // The colon after "nbf" is the first one after the issuer

  lemma FirstColon(t: Text, from: nat, colon: nat)
    requires from <= colon < |t| && t[colon] == ':' as nat
    requires forall i :: from <= i < colon ==> t[i] != ':' as nat
    ensures Find(t, Ascii(":"), from) == colon
  {
    assert Occurs(t, Ascii(":"), colon) by {
      assert t[colon..colon + 1] == Ascii(":");
    }
    forall i | from <= i < colon ensures !Occurs(t, Ascii(":"), i) {
      if Occurs(t, Ascii(":"), i) {
        OccursAt(t, Ascii(":"), i, 0);
      }
    }
    FindIs(t, Ascii(":"), from, colon);
  }

  lemma ColonOfNbf(issuer: Text, nbf: Text, exp: Text, rest: Text, from: nat)
    requires 8 + |issuer| + 1 <= from <= 8 + |issuer| + 7
    ensures Find(StartOfClaims(issuer, nbf, exp, rest), Ascii(":"), from) == 8 + |issuer| + 7
  {
    AroundIssuer(issuer, nbf, exp, rest);
    hide StartOfClaims, Find;
    FirstColon(StartOfClaims(issuer, nbf, exp, rest), from, 8 + |issuer| + 7);
  }

  lemma ColonOfExp(issuer: Text, nbf: Text, exp: Text, rest: Text)
    ensures var q := 8 + |issuer| + 8 + |nbf|;
            Find(StartOfClaims(issuer, nbf, exp, rest), Ascii(":"), q + 6) == q + 6
  {
    AroundIssuer(issuer, nbf, exp, rest);
    AfterNbf(issuer, nbf, exp, rest);
    hide StartOfClaims, Find;
    FirstColon(StartOfClaims(issuer, nbf, exp, rest), 8 + |issuer| + 8 + |nbf| + 6, 8 + |issuer| + 8 + |nbf| + 6);
  }

  // What the scan finds

  lemma NumberAfterNbf(issuer: Text, nbf: int, exp: Text, rest: Text)
    ensures var t := StartOfClaims(issuer, Decimal(nbf), exp, rest);
            NumberAt(t[8 + |issuer| + 8..]) == if -INT64_MAX <= nbf <= INT64_MAX then Number(nbf) else TooLarge
  {
    AfterNbf(issuer, Decimal(nbf), exp, rest);
    hide StartOfClaims, NumberAt, Decimal;
    var follow := Ascii(",\"exp\":") + exp + rest;
    assert follow[0] == ',' as nat;
    NumberAtDecimal(nbf, follow);
  }

  lemma NumberAfterExp(issuer: Text, nbf: Text, exp: int, rest: Text)
    requires rest != [] && !IsDigit(rest[0])
    ensures var t := StartOfClaims(issuer, nbf, Decimal(exp), rest);
            NumberAt(t[8 + |issuer| + 8 + |nbf| + 7..])
            == if -INT64_MAX <= exp <= INT64_MAX then Number(exp) else TooLarge
  {
    AfterNbf(issuer, nbf, Decimal(exp), rest);
    hide StartOfClaims, NumberAt, Decimal;
    NumberAtDecimal(exp, rest);
  }

  lemma NbfMarker(issuer: Text, nbf: Text, exp: Text, rest: Text)
    ensures var t := StartOfClaims(issuer, nbf, exp, rest);
            Occurs(t, Marker("nbf"), 8 + |issuer| + 2) && !Occurs(t, Marker("nbf"), 8 + |issuer| + 1)
  {
    AroundIssuer(issuer, nbf, exp, rest);
    MarkerAt(StartOfClaims(issuer, nbf, exp, rest), "nbf", 8 + |issuer| + 2);
    MarkerAt(StartOfClaims(issuer, nbf, exp, rest), "nbf", 8 + |issuer| + 1);
    hide StartOfClaims, Marker, Occurs;
  }

  lemma FindNbf(key: Text, nbf: Text, exp: Text, rest: Text)
    ensures var t := StartOfClaims(Escape(Native, key), nbf, exp, rest);
            var p := 8 + |Escape(Native, key)|;
            Find(t, Marker("nbf"), 0) == p + 2 || Find(t, Marker("nbf"), 0) == p - 4
  {
    hide StartOfClaims, Marker, Escape, Find, Occurs;
    NbfMarker(Escape(Native, key), nbf, exp, rest);
    var at := Find(StartOfClaims(Escape(Native, key), nbf, exp, rest), Marker("nbf"), 0);
    if at <= 8 + |Escape(Native, key)| {
      EarlyMatch(key, nbf, exp, rest, "nbf", at);
    }
  }

  /** Scanning for "nbf" finds the printed value under every API key. An earlier match, when the key
      ends like the marker, is followed by the same colon. */
  lemma ScanNbf(key: Text, nbf: int, exp: Text, rest: Text)
    ensures ScanField(StartOfClaims(Escape(Native, key), Decimal(nbf), exp, rest), "nbf")
            == if -INT64_MAX <= nbf <= INT64_MAX then Number(nbf) else TooLarge
  {
    hide StartOfClaims, Marker, Escape, Find, NumberAt, Decimal;
    var issuer := Escape(Native, key);
    MarkerUnits("nbf");
    FindNbf(key, Decimal(nbf), exp, rest);
    ColonOfNbf(issuer, Decimal(nbf), exp, rest, 8 + |issuer| + 1);
    ColonOfNbf(issuer, Decimal(nbf), exp, rest, 8 + |issuer| + 7);
    NumberAfterNbf(issuer, nbf, exp, rest);
  }

  // exp

  /** The keys under which the issuer's value already looks like the "exp" marker. */
  predicate LooksLikeExp(key: Text) {
    LooksLike(key, Ascii("exp"))
  }

  /** The "exp" marker occurs right before the end of the issuer exactly for the keys that look like it. */
  lemma EarlyExp(key: Text, nbf: Text, exp: Text, rest: Text)
    ensures var p := 8 + |Escape(Native, key)|;
            Occurs(StartOfClaims(Escape(Native, key), nbf, exp, rest), Marker("exp"), p - 4) <==> LooksLikeExp(key)
  {
    var issuer := Escape(Native, key);
    var p := 8 + |issuer|;
    LookEscaped(key, Ascii("exp"));
    MarkerInIssuer(issuer, nbf, exp, rest);
    hide StartOfClaims, Marker, Escape, Occurs, LooksLike;
  }

  /** What stands right before the issuer's closing quote, counted from the front of the text. */
  lemma IssuerTail(issuer: Text, nbf: Text, exp: Text, rest: Text)
    ensures var t := StartOfClaims(issuer, nbf, exp, rest);
            var n := |issuer|;
            && (n >= 1 ==> t[8 + n - 1] == issuer[n - 1]) && (n >= 2 ==> t[8 + n - 2] == issuer[n - 2])
            && (n >= 3 ==> t[8 + n - 3] == issuer[n - 3]) && (n >= 4 ==> t[8 + n - 4] == issuer[n - 4])
  {
    AroundIssuer(issuer, nbf, exp, rest);
    hide StartOfClaims;
    var t, n := StartOfClaims(issuer, nbf, exp, rest), |issuer|;
    if n >= 1 { assert t[8 + (n - 1)] == issuer[n - 1]; }
    if n >= 2 { assert t[8 + (n - 2)] == issuer[n - 2]; }
    if n >= 3 { assert t[8 + (n - 3)] == issuer[n - 3]; }
    if n >= 4 { assert t[8 + (n - 4)] == issuer[n - 4]; }
  }

  lemma MarkerInIssuer(issuer: Text, nbf: Text, exp: Text, rest: Text)
    ensures Occurs(StartOfClaims(issuer, nbf, exp, rest), Marker("exp"), 8 + |issuer| - 4)
            <==> LooksLikeExp(issuer)
  {
    AroundIssuer(issuer, nbf, exp, rest);
    IssuerTail(issuer, nbf, exp, rest);
    MarkerAt(StartOfClaims(issuer, nbf, exp, rest), "exp", 8 + |issuer| - 4);
    hide StartOfClaims, Marker, Occurs, LooksLikeExp;
    ExpUnits(issuer);
  }

  lemma ExpUnits(t: Text)
    ensures LooksLikeExp(t) <==>
              && |t| >= 3 && t[|t| - 3] == 'e' as nat && t[|t| - 2] == 'x' as nat && t[|t| - 1] == 'p' as nat
              && (|t| > 3 ==> t[|t| - 4] == QUOTE)
  {
    if |t| >= 3 {
      var end := t[|t| - 3..];
      assert end[0] == t[|t| - 3] && end[1] == t[|t| - 2] && end[2] == t[|t| - 1];
    }
  }

  lemma ExpMarker(issuer: Text, nbf: Text, exp: Text, rest: Text)
    ensures Occurs(StartOfClaims(issuer, nbf, exp, rest), Marker("exp"), 8 + |issuer| + 8 + |nbf| + 1)
  {
    AfterNbf(issuer, nbf, exp, rest);
    AroundIssuer(issuer, nbf, exp, rest);
    MarkerAt(StartOfClaims(issuer, nbf, exp, rest), "exp", 8 + |issuer| + 8 + |nbf| + 1);
    hide StartOfClaims, Marker, Occurs;
  }

  /** Between the issuer and its own place the "exp" marker does not occur. */
  lemma NoExpBetween(issuer: Text, nbf: Text, exp: Text, rest: Text, at: nat)
    requires IsNumberText(nbf) && 8 + |issuer| < at <= 8 + |issuer| + 8 + |nbf|
    ensures !Occurs(StartOfClaims(issuer, nbf, exp, rest), Marker("exp"), at)
  {
    var t := StartOfClaims(issuer, nbf, exp, rest);
    var p := 8 + |issuer|;
    MarkerAt(t, "exp", at);
    if at < p + 8 {
      AroundIssuer(issuer, nbf, exp, rest);
    } else {
      NoQuoteInNbf(issuer, nbf, exp, rest, at - (p + 8));
    }
    hide *;
  }

  lemma NoQuoteInNbf(issuer: Text, nbf: Text, exp: Text, rest: Text, i: nat)
    requires IsNumberText(nbf) && i <= |nbf|
    ensures var t := StartOfClaims(issuer, nbf, exp, rest);
            8 + |issuer| + 8 + i < |t| && t[8 + |issuer| + 8 + i] != QUOTE
  {
    AfterNbf(issuer, nbf, exp, rest);
    hide StartOfClaims;
    var t, q := StartOfClaims(issuer, nbf, exp, rest), 8 + |issuer| + 8;
    if i < |nbf| {
      assert t[q + i] == nbf[i];
    }
  }

  lemma FindExp(key: Text, nbf: Text, exp: Text, rest: Text)
    requires IsNumberText(nbf)
    ensures var p := 8 + |Escape(Native, key)|;
            Find(StartOfClaims(Escape(Native, key), nbf, exp, rest), Marker("exp"), 0)
            == if LooksLikeExp(key) then p - 4 else p + 8 + |nbf| + 1
  {
    hide StartOfClaims, Marker, Escape, Find, Occurs, LooksLikeExp;
    var p := 8 + |Escape(Native, key)|;
    var t := StartOfClaims(Escape(Native, key), nbf, exp, rest);
    ExpMarker(Escape(Native, key), nbf, exp, rest);
    EarlyExp(key, nbf, exp, rest);
    var at := Find(t, Marker("exp"), 0);
    if at <= p {
      EarlyMatch(key, nbf, exp, rest, "exp", at);
    } else if at <= p + 8 + |nbf| {
      NoExpBetween(Escape(Native, key), nbf, exp, rest, at);
    }
  }

  /** Scanning for "exp" finds the printed value exactly when the API key does not look like the
      marker; otherwise it reads the value of "nbf" instead. */
  lemma ScanExp(key: Text, nbf: int, exp: int, rest: Text)
    requires rest != [] && !IsDigit(rest[0])
    ensures ScanField(StartOfClaims(Escape(Native, key), Decimal(nbf), Decimal(exp), rest), "exp")
            == var found := if LooksLikeExp(key) then nbf else exp;
               if -INT64_MAX <= found <= INT64_MAX then Number(found) else TooLarge
  {
    hide StartOfClaims, Marker, Escape, Find, NumberAt, Decimal, LooksLikeExp;
    var issuer := Escape(Native, key);
    MarkerUnits("exp");
    DecimalIsNumberText(nbf);
    FindExp(key, Decimal(nbf), Decimal(exp), rest);
    ColonOfNbf(issuer, Decimal(nbf), Decimal(exp), rest, 8 + |issuer| + 1);
    ColonOfExp(issuer, Decimal(nbf), Decimal(exp), rest);
    NumberAfterNbf(issuer, nbf, Decimal(exp), rest);
    NumberAfterExp(issuer, Decimal(nbf), exp, rest);
  }

  // The claims ToJwt prints

  /** Any object that opens with the issuer and the two times prints as such a start. */
  lemma PrintedStart(key: Text, nbf: int, exp: int, more: seq<Member>)
    ensures Print(Native, Obj([Member(Ascii("iss"), Str(key)), Member(Ascii("nbf"), Int(nbf)),
                               Member(Ascii("exp"), Int(exp))] + more))
            == StartOfClaims(Escape(Native, key), Decimal(nbf), Decimal(exp), PrintMembers(Native, more) + Ascii("}"))
  {
    var first := [Member(Ascii("iss"), Str(key)), Member(Ascii("nbf"), Int(nbf)), Member(Ascii("exp"), Int(exp))];
    var ms := first + more;
    hide Print, PrintMember, PrintMembers, Escape, Decimal;
    PrintObject(ms);
    assert ms[1..] == [first[1]] + ([first[2]] + more);
    PrintMembersAppend(Native, [first[1]], [first[2]] + more);
    PrintMembersAppend(Native, [first[2]], more);
    OneMember(first[1]);
    OneMember(first[2]);
    ThreeMembers(key, nbf, exp, PrintMembers(Native, more));
  }

  lemma StartLiterals()
    ensures Ascii("{\"iss\":\"") == Ascii("{") + (Ascii("\"") + Ascii("iss") + Ascii("\":")) + Ascii("\"")
    ensures Ascii("\",\"nbf\":") == Ascii("\"") + (Ascii(",") + (Ascii("\"") + Ascii("nbf") + Ascii("\":")))
    ensures Ascii(",\"exp\":") == Ascii(",") + (Ascii("\"") + Ascii("exp") + Ascii("\":"))
  {
  }

  lemma StartText(key: Text, nbf: Text, exp: Text, rest: Text)
    ensures StartOfClaims(key, nbf, exp, rest)
            == Ascii("{") + (Ascii("\"") + Ascii("iss") + Ascii("\":")) + Ascii("\"") + key
               + (Ascii("\"") + (Ascii(",") + (Ascii("\"") + Ascii("nbf") + Ascii("\":")))) + nbf
               + (Ascii(",") + (Ascii("\"") + Ascii("exp") + Ascii("\":"))) + exp + rest
  {
    StartLiterals();
    hide Ascii;
  }

  lemma IntText(n: int)
    ensures Print(Native, Int(n)) == Decimal(n)
  {
  }

  lemma TimeText(name: string, n: int)
    requires IsTimeName(name)
    ensures PrintMember(Native, Member(Ascii(name), Int(n))) == Ascii("\"") + Ascii(name) + Ascii("\":") + Decimal(n)
  {
    MemberText(name, Int(n));
    IntText(n);
  }

  lemma IssuerText(key: Text)
    ensures PrintMember(Native, Member(Ascii("iss"), Str(key)))
            == Ascii("\"") + Ascii("iss") + Ascii("\":") + (Ascii("\"") + Escape(Native, key) + Ascii("\""))
  {
    MemberText("iss", Str(key));
    hide *;
    QuotedText(key);
  }

  lemma ThreeMembers(key: Text, nbf: int, exp: int, more: Text)
    ensures Ascii("{") + (PrintMember(Native, Member(Ascii("iss"), Str(key)))
                          + (Ascii(",") + PrintMember(Native, Member(Ascii("nbf"), Int(nbf)))
                             + (Ascii(",") + PrintMember(Native, Member(Ascii("exp"), Int(exp))) + more))) + Ascii("}")
            == StartOfClaims(Escape(Native, key), Decimal(nbf), Decimal(exp), more + Ascii("}"))
  {
    hide *;
    IssuerText(key);
    TimeText("nbf", nbf);
    TimeText("exp", exp);
    StartText(Escape(Native, key), Decimal(nbf), Decimal(exp), more + Ascii("}"));
    var open, q, comma, close := Ascii("{"), Ascii("\""), Ascii(","), Ascii("}");
    var i, n, x := q + Ascii("iss") + Ascii("\":"), q + Ascii("nbf") + Ascii("\":"), q + Ascii("exp") + Ascii("\":");
    var a := PrintMember(Native, Member(Ascii("iss"), Str(key)));
    var b := PrintMember(Native, Member(Ascii("nbf"), Int(nbf)));
    var c := PrintMember(Native, Member(Ascii("exp"), Int(exp)));
    FlattenMembers(open, a, b, c, i, q, Escape(Native, key), comma, n, Decimal(nbf), x, Decimal(exp), more, close);
  }

  lemma FlattenMembers(open: Text, a: Text, b: Text, c: Text, i: Text, q: Text, key: Text, comma: Text, n: Text,
                       nbf: Text, x: Text, exp: Text, more: Text, close: Text)
    requires a == i + (q + key + q) && b == n + nbf && c == x + exp
    ensures open + (a + (comma + b + (comma + c + more))) + close
            == open + i + q + key + (q + (comma + n)) + nbf + (comma + x) + exp + (more + close)
  {
    Flatten(open, i, q, key, comma, n, nbf, x, exp, more, close);
  }

  lemma Flatten(open: Text, i: Text, q: Text, key: Text, comma: Text, n: Text, nbf: Text, x: Text, exp: Text,
                more: Text, close: Text)
    ensures open + (i + (q + key + q) + (comma + (n + nbf) + (comma + (x + exp) + more))) + close
            == open + i + q + key + (q + (comma + n)) + nbf + (comma + x) + exp + (more + close)
  {
  }

  /** The members after the two times, in a token's claims. */
  function MoreMembers(t: Token, issued: int, expires: int): seq<Member> {
    Present(TokenSlots(t, issued, expires)[3..])
  }

  lemma FirstSlot(slots: seq<Slot>, v: Json)
    requires slots != [] && slots[0].value == Some(v)
    ensures Present(slots) == [Member(Ascii(slots[0].name), v)] + Present(slots[1..])
  {
  }

  lemma {:induction false} FirstSlots(slots: seq<Slot>, a: Json, b: Json, c: Json)
    requires |slots| >= 3
    requires slots[0].value == Some(a) && slots[1].value == Some(b) && slots[2].value == Some(c)
    ensures Present(slots) == [Member(Ascii(slots[0].name), a), Member(Ascii(slots[1].name), b),
                               Member(Ascii(slots[2].name), c)] + Present(slots[3..])
  {
    hide Present, Ascii;
    assert slots[1..][1..] == slots[2..] && slots[2..][1..] == slots[3..];
    FirstSlot(slots, a);
    FirstSlot(slots[1..], b);
    FirstSlot(slots[2..], c);
  }

  lemma TokenStart(t: Token, issued: int, expires: int)
    ensures ClaimsText(t, issued, expires)
            == StartOfClaims(Escape(Native, t.apiKey), Decimal(issued), Decimal(expires),
                             PrintMembers(Native, MoreMembers(t, issued, expires)) + Ascii("}"))
  {
    FirstSlots(TokenSlots(t, issued, expires), Str(t.apiKey), Int(issued), Int(expires));
    hide Print, PrintMembers, Present, StartOfClaims, VideoValue, SipValue, AgentValue, AttributesValue, NonEmpty;
    PrintedStart(t.apiKey, issued, expires, MoreMembers(t, issued, expires));
  }

  lemma AfterTimes(more: seq<Member>)
    ensures var rest := PrintMembers(Native, more) + Ascii("}"); rest != [] && !IsDigit(rest[0])
  {
  }

  /** On every claims text ToJwt prints, the scan returns the printed "nbf" whatever the API key is,
      and the printed "exp" if and only if the key does not look like the marker (the token expires
      after it was issued, so reading "nbf" instead is never right). */
  lemma ScanOfToken(t: Token, issued: int, expires: int)
    requires -INT64_MAX <= issued < expires <= INT64_MAX
    ensures ScanField(ClaimsText(t, issued, expires), "nbf") == Number(issued)
    ensures ScanField(ClaimsText(t, issued, expires), "exp") == Number(expires) <==> !LooksLikeExp(t.apiKey)
  {
    hide StartOfClaims, ScanField, Escape, LooksLikeExp, ClaimsText, MoreMembers, PrintMembers;
    TokenStart(t, issued, expires);
    var rest := PrintMembers(Native, MoreMembers(t, issued, expires)) + Ascii("}");
    AfterTimes(MoreMembers(t, issued, expires));
    ScanNbf(t.apiKey, issued, Decimal(expires), rest);
    ScanExp(t.apiKey, issued, expires, rest);
  }

  /** The shortest key for which the scan goes wrong. */
  lemma ScanGoesWrong(t: Token, issued: int, expires: int)
    requires t.apiKey == Ascii("exp") && -INT64_MAX <= issued < expires <= INT64_MAX
    ensures ScanField(ClaimsText(t, issued, expires), "exp") != Number(expires)
  {
    ScanOfToken(t, issued, expires);
    hide ScanField, ClaimsText;
  }
}
