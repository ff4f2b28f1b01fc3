/** What the libcurl transport checks before it sends a request, and the header lines it hands over. */
module CurlRequest {
  import opened Text
  import opened Wrappers
  import opened CurlHeaders

  const PUNCTUATION := "!#$%&'*+-.^_`|~"
  const SEMICOLON: nat := ';' as nat
  const CURL_OFF_MAX: int := 0x7FFF_FFFF_FFFF_FFFF

  datatype Request = Request(url: Text, method_: Text, headers: seq<Field>, bodySize: nat, timeout: int)

  predicate IsTokenUnit(u: nat) {
    || 'a' as nat <= u <= 'z' as nat || 'A' as nat <= u <= 'Z' as nat || '0' as nat <= u <= '9' as nat
    || exists i :: 0 <= i < |PUNCTUATION| && u == PUNCTUATION[i] as nat
  }

  /** A token of section 5.6.2 of RFC 9110. */
  predicate IsToken(t: Text) {
    t != [] && forall i :: 0 <= i < |t| ==> IsTokenUnit(t[i])
  }

  predicate IsHeaderValue(t: Text) {
    forall i :: 0 <= i < |t| ==> t[i] != 0x0D && t[i] != 0x0A && t[i] != 0
  }

  predicate IsHeader(h: Field) {
    IsToken(h.name) && IsHeaderValue(h.value)
  }

  /** libcurl takes a semicolon for an empty value. */
  function Line(h: Field): Text {
    h.name + if h.value == [] then [SEMICOLON] else [COLON, ' ' as nat] + h.value
  }

  predicate IsSendable(r: Request) {
    && Free(r.url, 0) && (StartsWith(r.url, Ascii("http://")) || StartsWith(r.url, Ascii("https://")))
    && IsToken(r.method_) && r.timeout > 0 && r.bodySize <= CURL_OFF_MAX
    && forall i :: 0 <= i < |r.headers| ==> IsHeader(r.headers[i])
  }

  method Token(value: Text) returns (valid: bool)
    ensures valid <==> IsToken(value)
  {
    hide IsTokenUnit;
    if value == [] {
      return false;
    }
    for i := 0 to |value|
      invariant forall j :: 0 <= j < i ==> IsTokenUnit(value[j])
    {
      if !IsTokenUnit(value[i]) {
        return false;
      }
    }
    return true;
  }

  /** The part of Send that does not reach the network. */
  method Prepare(r: Request) returns (lines: Result<seq<Text>, ErrorCode>)
    ensures lines.Success? <==> IsSendable(r)
    ensures lines.Failure? ==> lines.error == InvalidArgument
    ensures lines.Success? ==> |lines.value| == |r.headers|
    ensures lines.Success? ==> forall i :: 0 <= i < |r.headers| ==> lines.value[i] == Line(r.headers[i])
  {
    hide IsToken, Line, StartsWith, Ascii;
    var methodIsToken := Token(r.method_);
    if !Free(r.url, 0) || !(StartsWith(r.url, Ascii("http://")) || StartsWith(r.url, Ascii("https://")))
       || !methodIsToken || r.timeout <= 0 || r.bodySize > CURL_OFF_MAX {
      return Failure(InvalidArgument);
    }
    var headers: seq<Text> := [];
    for i := 0 to |r.headers|
      invariant |headers| == i && forall j :: 0 <= j < i ==> IsHeader(r.headers[j]) && headers[j] == Line(r.headers[j])
    {
      var h := r.headers[i];
      var nameIsToken := Token(h.name);
      if !nameIsToken || !IsHeaderValue(h.value) {
        return Failure(InvalidArgument);
      }
      headers := headers + [Line(h)];
    }
    return Success(headers);
  }

  // A line stands for one header

  lemma TokenHasNoMarks(t: Text)
    requires IsToken(t)
    ensures Free(t, COLON) && Free(t, SEMICOLON) && Free(t, 0x0D) && Free(t, 0x0A)
  {
    forall i | 0 <= i < |t| ensures t[i] != COLON && t[i] != SEMICOLON && t[i] != 0x0D && t[i] != 0x0A {
      UnitIsNoMark(t[i]);
    }
  }

  lemma UnitIsNoMark(u: nat)
    requires IsTokenUnit(u)
    ensures u != COLON && u != SEMICOLON && u != 0x0D && u != 0x0A
  {
  }

  /** Accepted headers stay one line each. */
  lemma OneLine(h: Field)
    requires IsHeader(h)
    ensures Free(Line(h), 0x0D) && Free(Line(h), 0x0A)
  {
    TokenHasNoMarks(h.name);
    hide IsToken;
  }

  lemma NameEnds(h: Field)
    requires IsToken(h.name)
    ensures |h.name| < |Line(h)| && Line(h)[..|h.name|] == h.name
    ensures Line(h)[|h.name|] == (if h.value == [] then SEMICOLON else COLON)
    ensures forall i :: 0 <= i < |h.name| ==> Line(h)[i] != COLON && Line(h)[i] != SEMICOLON
    ensures h.value != [] ==> Line(h)[|h.name| + 1..] == [' ' as nat] + h.value
  {
    TokenHasNoMarks(h.name);
    hide IsToken;
    assert forall i :: 0 <= i < |h.name| ==> Line(h)[i] == h.name[i];
  }

  lemma LineInjective(g: Field, h: Field)
    requires IsToken(g.name) && IsToken(h.name) && Line(g) == Line(h)
    ensures g == h
  {
    NameEnds(g);
    NameEnds(h);
    hide IsToken, Line;
    assert |g.name| == |h.name|;
    if g.value != [] {
      assert g.value == ([' ' as nat] + g.value)[1..] && h.value == ([' ' as nat] + h.value)[1..];
    }
  }

  /** A header that is sent is the header the response collector makes of the same line. */
  lemma SentIsCollected(h: Field, line: Text)
    requires IsHeader(h) && h.value != [] && IsTrimmed(h.value)
    requires line == Line(h) + [0x0D, 0x0A]
    ensures Splits(line, h)
  {
    NameEnds(h);
    hide IsToken, Line, IsTrimmed, IsHeaderValue;
    var rest := line[|h.name| + 1..];
    assert rest == [' ' as nat] + h.value + [0x0D, 0x0A] by {
      assert rest == Line(h)[|h.name| + 1..] + [0x0D, 0x0A];
    }
    assert Surrounded(rest, [' ' as nat], h.value, [0x0D, 0x0A]);
    assert line[..|h.name|] == h.name;
    assert forall i :: 0 <= i < |h.name| ==> h.name[i] == Line(h)[i];
  }

  // The token units

  const DELIMITERS := "\"(),/:;<=>?@[\\]{}"

  lemma Punctuation(u: nat)
    ensures (exists i :: 0 <= i < |PUNCTUATION| && u == PUNCTUATION[i] as nat)
            <==> (u == '!' as nat || u == '#' as nat || u == '$' as nat || u == '%' as nat || u == '&' as nat
                  || u == '\'' as nat || u == '*' as nat || u == '+' as nat || u == '-' as nat || u == '.' as nat
                  || u == '^' as nat || u == '_' as nat || u == '`' as nat || u == '|' as nat || u == '~' as nat)
  {
    assert |PUNCTUATION| == 15;
    if u == '!' as nat {
      assert PUNCTUATION[0] as nat == u;
    } else if u == '#' as nat {
      assert PUNCTUATION[1] as nat == u;
    } else if u == '$' as nat {
      assert PUNCTUATION[2] as nat == u;
    } else if u == '%' as nat {
      assert PUNCTUATION[3] as nat == u;
    } else if u == '&' as nat {
      assert PUNCTUATION[4] as nat == u;
    } else if u == '\'' as nat {
      assert PUNCTUATION[5] as nat == u;
    } else if u == '*' as nat {
      assert PUNCTUATION[6] as nat == u;
    } else if u == '+' as nat {
      assert PUNCTUATION[7] as nat == u;
    } else if u == '-' as nat {
      assert PUNCTUATION[8] as nat == u;
    } else if u == '.' as nat {
      assert PUNCTUATION[9] as nat == u;
    } else if u == '^' as nat {
      assert PUNCTUATION[10] as nat == u;
    } else if u == '_' as nat {
      assert PUNCTUATION[11] as nat == u;
    } else if u == '`' as nat {
      assert PUNCTUATION[12] as nat == u;
    } else if u == '|' as nat {
      assert PUNCTUATION[13] as nat == u;
    } else if u == '~' as nat {
      assert PUNCTUATION[14] as nat == u;
    }
  }

  lemma Delimiters(u: nat)
    ensures (exists i :: 0 <= i < |DELIMITERS| && u == DELIMITERS[i] as nat)
            <==> (u == '\"' as nat || u == '(' as nat || u == ')' as nat || u == ',' as nat || u == '/' as nat
                  || u == ':' as nat || u == ';' as nat || u == '<' as nat || u == '=' as nat || u == '>' as nat
                  || u == '?' as nat || u == '@' as nat || u == '[' as nat || u == '\\' as nat || u == ']' as nat
                  || u == '{' as nat || u == '}' as nat)
  {
    assert |DELIMITERS| == 17;
    if u == '\"' as nat {
      assert DELIMITERS[0] as nat == u;
    } else if u == '(' as nat {
      assert DELIMITERS[1] as nat == u;
    } else if u == ')' as nat {
      assert DELIMITERS[2] as nat == u;
    } else if u == ',' as nat {
      assert DELIMITERS[3] as nat == u;
    } else if u == '/' as nat {
      assert DELIMITERS[4] as nat == u;
    } else if u == ':' as nat {
      assert DELIMITERS[5] as nat == u;
    } else if u == ';' as nat {
      assert DELIMITERS[6] as nat == u;
    } else if u == '<' as nat {
      assert DELIMITERS[7] as nat == u;
    } else if u == '=' as nat {
      assert DELIMITERS[8] as nat == u;
    } else if u == '>' as nat {
      assert DELIMITERS[9] as nat == u;
    } else if u == '?' as nat {
      assert DELIMITERS[10] as nat == u;
    } else if u == '@' as nat {
      assert DELIMITERS[11] as nat == u;
    } else if u == '[' as nat {
      assert DELIMITERS[12] as nat == u;
    } else if u == '\\' as nat {
      assert DELIMITERS[13] as nat == u;
    } else if u == ']' as nat {
      assert DELIMITERS[14] as nat == u;
    } else if u == '{' as nat {
      assert DELIMITERS[15] as nat == u;
    } else if u == '}' as nat {
      assert DELIMITERS[16] as nat == u;
    }
  }

  /** They are the visible characters that are no delimiters (section 5.6.2 of RFC 9110). */
  lemma TokenUnits(u: nat)
    ensures IsTokenUnit(u) <==> 0x21 <= u <= 0x7E && forall i :: 0 <= i < |DELIMITERS| ==> u != DELIMITERS[i] as nat
  {
    Punctuation(u);
    Delimiters(u);
  }

  /** The line of a header, as text. */
  lemma LineText(h: Field)
    ensures h.value != [] ==> Line(h) == h.name + Ascii(": ") + h.value
    ensures h.value == [] ==> Line(h) == h.name + Ascii(";")
  {
    assert Ascii(": ") == [COLON, ' ' as nat] && Ascii(";") == [SEMICOLON];
    hide Ascii;
  }
}
