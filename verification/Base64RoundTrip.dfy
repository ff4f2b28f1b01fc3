/** What the codec promises: both encodings decode, they differ only in alphabet and padding, and
    re-encoding is exact precisely on canonical texts. */
module Base64RoundTrip {
  import opened Text
  import opened Wrappers
  import opened BitStream
  import opened Base64

  predicate IsAlphabet(alphabet: Text) {
    |alphabet| == 64 && forall i :: 0 <= i < 64 ==> Base64UrlValue(alphabet[i]) == i
  }

  lemma UpperLetter(i: nat)
    requires i < 26
    ensures Base64UrlValue(LETTERS[i] as nat) == i
  {
    assert LETTERS[i] as nat == 'A' as nat + i by {
      hide Base64UrlValue;
      assert LETTERS[i] == "ABCDEFGHIJKLMNOPQRSTUVWXYZ"[i];
    }
  }

  lemma LowerLetter(i: nat)
    requires i < 26
    ensures Base64UrlValue(LETTERS[26 + i] as nat) == 26 + i
  {
    assert LETTERS[26 + i] as nat == 'a' as nat + i by {
      hide Base64UrlValue;
      assert LETTERS[26 + i] == "abcdefghijklmnopqrstuvwxyz"[i];
    }
  }

  lemma DigitLetter(i: nat)
    requires i < 10
    ensures Base64UrlValue(LETTERS[52 + i] as nat) == 52 + i
  {
    assert LETTERS[52 + i] as nat == '0' as nat + i by {
      hide Base64UrlValue;
      assert LETTERS[52 + i] == "0123456789"[i];
    }
  }

  predicate AreLetters(letters: string) {
    |letters| == 62 && forall i :: 0 <= i < 62 ==> Base64UrlValue(letters[i] as nat) == i
  }

  lemma CommonLetters()
    ensures AreLetters(LETTERS)
  {
    hide Base64UrlValue;
    forall i | 0 <= i < 62 ensures Base64UrlValue(LETTERS[i] as nat) == i {
      if i < 26 {
        UpperLetter(i);
      } else if i < 52 {
        LowerLetter(i - 26);
      } else {
        DigitLetter(i - 52);
      }
    }
  }

  lemma AlphabetIs(letters: string, last: string)
    requires AreLetters(letters)
    requires |last| == 2 && Base64UrlValue(last[0] as nat) == 62 && Base64UrlValue(last[1] as nat) == 63
    ensures IsAlphabet(Ascii(letters + last))
  {
    var alphabet := Ascii(letters + last);
    forall i | 0 <= i < 64 ensures Base64UrlValue(alphabet[i]) == i {
      assert alphabet[i] == if i < 62 then letters[i] as nat else last[i - 62] as nat;
    }
  }

  lemma UrlLetters()
    ensures IsAlphabet(UrlAlphabet())
    ensures UrlAlphabet()[62] == '-' as nat && UrlAlphabet()[63] == '_' as nat
  {
    CommonLetters();
    AlphabetIs(LETTERS, "-_");
  }

  lemma StdLetters()
    ensures IsAlphabet(StdAlphabet())
    ensures StdAlphabet()[62] == '+' as nat && StdAlphabet()[63] == '/' as nat
  {
    CommonLetters();
    AlphabetIs(LETTERS, "+/");
  }

  /** Every letter but '+' and '/' is the url letter of its value. */
  lemma UrlLetterOf(ch: nat)
    requires Base64UrlValue(ch) >= 0
    ensures UrlAlphabet()[Base64UrlValue(ch)] == ch <==> ch != '+' as nat && ch != '/' as nat
  {
    hide UrlAlphabet;
    UrlLetters();
    var v := Base64UrlValue(ch);
    assert Base64UrlValue(UrlAlphabet()[v]) == v;
  }

  // The decoder as a bit stream

  lemma {:induction false} GroupsPrefix(b: seq<bool>, w: nat, k: nat, n: nat)
    requires w > 0 && n == k * w && n <= |b| < n + w
    ensures Groups(b, w) == Groups(b[..n], w)
    decreases k
  {
    hide Number, Groups;
    if k > 0 {
      OneGroupLess(w, k, n);
      assert b[w..][..n - w] == b[..n][w..];
      assert b[..n] == b[..w] + b[..n][w..] && b == b[..w] + b[w..];
      GroupsPrefix(b[w..], w, k - 1, n - w);
      FirstGroup(b, b[..w], b[w..], w);
      FirstGroup(b[..n], b[..w], b[..n][w..], w);
    } else {
      TooShort(b, w);
      TooShort(b[..n], w);
    }
  }

  lemma OneGroupLess(w: nat, k: nat, n: nat)
    requires k > 0 && n == k * w
    ensures n - w == (k - 1) * w && w <= n
  {
    assert k * w == (k - 1) * w + w;
    assert (k - 1) * w >= 0;
  }

  lemma TooShort(b: seq<bool>, w: nat)
    requires |b| < w
    ensures Groups(b, w) == []
  {
  }

  /** The decoder's output is the whole bytes of the letters' bits: the first 6k / 8 of them. */
  lemma DecodedIsPrefix(value: Text)
    requires InAlphabets(BeforePad(value))
    ensures var bits := Stream(Sextets(BeforePad(value)), 6);
            var data := Decoded(value);
            && |bits| == 6 * |BeforePad(value)|
            && |data| == 6 * |BeforePad(value)| / 8
            && Stream(data, 8) == bits[..8 * |data|]
  {
    var bits := Stream(Sextets(BeforePad(value)), 6);
    StreamLength(Sextets(BeforePad(value)), 6);
    var k := |bits| / 8;
    hide Stream, Groups;
    GroupsPrefix(bits, 8, k, 8 * k);
    StreamGroups(bits[..8 * k], 8, k);
  }

  // Round trip

  lemma SextetsOfLetters(s: seq<nat>, alphabet: Text)
    requires Below(s, 64) && IsAlphabet(alphabet)
    ensures InAlphabets(Letters(s, alphabet)) && Sextets(Letters(s, alphabet)) == s
  {
  }

  /** The first padding character ends the letters. */
  lemma {:induction false} BeforePadIs(t: Text, rest: Text)
    requires PAD !in t && (rest != [] ==> rest[0] == PAD)
    ensures BeforePad(t + rest) == t
    decreases |t|
  {
    if t != [] {
      assert (t + rest)[1..] == t[1..] + rest;
      BeforePadIs(t[1..], rest);
    } else {
      assert t + rest == rest;
    }
  }

  lemma LettersHaveNoPad(t: Text)
    requires InAlphabets(t)
    ensures PAD !in t
  {
    assert Base64UrlValue(PAD) == -1;
  }

  /** How many sextets n bytes take. */
  lemma SextetCount(n: nat)
    ensures 8 * n + 2 * PadLength(n) == 6 * ((4 * n + 2) / 3)
    ensures (4 * n + 2) / 3 % 4 != 1
    ensures (4 * n + 2) / 3 + PadLength(n) == (n + 2) / 3 * 4
  {
    var q := n / 3;
    assert n == 3 * q || n == 3 * q + 1 || n == 3 * q + 2;
  }

  /** The sextets are exactly the data's bits, filled up with zeros. */
  lemma DataSextetsStream(data: Text)
    requires IsBytes(data)
    ensures |DataSextets(data)| == (4 * |data| + 2) / 3
    ensures Stream(DataSextets(data), 6) == Stream(data, 8) + Zeros(2 * PadLength(|data|))
  {
    SextetCount(|data|);
    StreamLength(data, 8);
    hide Stream, Groups, PadLength;
    StreamGroups(Stream(data, 8) + Zeros(2 * PadLength(|data|)), 6, (4 * |data| + 2) / 3);
  }

  lemma PaddedDecodable(t: Text, n: nat)
    requires InAlphabets(t) && |t| % 4 != 1 && (|t| + n) % 4 != 1
    ensures Decodable(t + Pads(n)) && BeforePad(t + Pads(n)) == t
  {
    LettersHaveNoPad(t);
    PadsStart(n);
    hide BeforePad, InAlphabets, Base64UrlValue, Pads;
    BeforePadIs(t, Pads(n));
  }

  lemma PadsStart(n: nat)
    ensures |Pads(n)| == n && (Pads(n) != [] ==> Pads(n)[0] == PAD)
  {
  }

  lemma EncodedLength(data: Text)
    requires IsBytes(data)
    ensures |DataSextets(data)| % 4 != 1 && (|DataSextets(data)| + PadLength(|data|)) % 4 == 0
  {
    hide DataSextets, PadLength, Stream, Zeros;
    DataSextetsStream(data);
    SextetCount(|data|);
    MultipleOfFour((|data| + 2) / 3);
  }

  lemma MultipleOfFour(n: nat)
    ensures n * 4 % 4 == 0
  {
  }

  /** An encoding is accepted, and its letters are the data's sextets. */
  lemma EncodedDecodable(data: Text, alphabet: Text, padding: bool)
    requires IsBytes(data) && IsAlphabet(alphabet)
    ensures var value := Encoded(data, alphabet, padding);
            Decodable(value) && Sextets(BeforePad(value)) == DataSextets(data)
  {
    hide DataSextets, BeforePad, Letters, Decodable, PadLength;
    var t := Letters(DataSextets(data), alphabet);
    var pads := if padding then PadLength(|data|) else 0;
    SextetsOfLetters(DataSextets(data), alphabet);
    EncodedLength(data);
    PaddedDecodable(t, pads);
    assert Encoded(data, alphabet, padding) == t + Pads(pads);
  }

  /** Every byte string decodes from its encoding, over either alphabet, padded or not. */
  lemma DecodeEncoded(data: Text, alphabet: Text, padding: bool)
    requires IsBytes(data) && IsAlphabet(alphabet)
    ensures Decode(Encoded(data, alphabet, padding)) == Some(data)
  {
    EncodedDecodable(data, alphabet, padding);
    DataSextetsStream(data);
    PowersOfTwo();
    hide Stream, Groups, DataSextets, Encoded, Decodable, Pow2;
    GroupsStream(data, 8, Zeros(2 * PadLength(|data|)));
  }

  lemma RoundTrip(data: Text)
    requires IsBytes(data)
    ensures Decode(Base64UrlEncode(data)) == Some(data)
    ensures Decode(Base64Encode(data)) == Some(data)
  {
    hide Decode, Encoded, IsAlphabet;
    UrlLetters();
    StdLetters();
    DecodeEncoded(data, UrlAlphabet(), false);
    DecodeEncoded(data, StdAlphabet(), true);
  }

  function ToStd(ch: nat): nat {
    if ch == '-' as nat then '+' as nat else if ch == '_' as nat then '/' as nat else ch
  }

  /** The padded encoding is the url encoding with '-' and '_' replaced and '=' appended, and fills
      exactly the length the encoder reserves. */
  lemma EncodingsDiffer(data: Text)
    requires IsBytes(data)
    ensures var url := Base64UrlEncode(data);
            Base64Encode(data) == seq(|url|, i requires 0 <= i < |url| => ToStd(url[i])) + Pads(PadLength(|data|))
    ensures |Base64Encode(data)| == (|data| + 2) / 3 * 4
    ensures |Base64UrlEncode(data)| == |Base64Encode(data)| - PadLength(|data|)
  {
    DataSextetsStream(data);
    SextetCount(|data|);
    UrlLetters();
    StdLetters();
    hide DataSextets;
    forall v: nat | v < 64 ensures StdAlphabet()[v] == ToStd(UrlAlphabet()[v]) {
      SameLetter(v);
    }
  }

  lemma SameLetter(v: nat)
    requires v < 64
    ensures StdAlphabet()[v] == ToStd(UrlAlphabet()[v])
  {
    hide UrlAlphabet, StdAlphabet;
    UrlLetters();
    StdLetters();
    assert Base64UrlValue(UrlAlphabet()[v]) == v && Base64UrlValue(StdAlphabet()[v]) == v;
  }

  // Canonical texts

  predicate UrlCharacters(value: Text) {
    forall i :: 0 <= i < |value| ==> value[i] != PAD && value[i] != '+' as nat && value[i] != '/' as nat
  }

  /** Unpadded, in the url alphabet, and with no bit set beyond the last whole byte. */
  predicate Canonical(value: Text)
    requires Decodable(value)
  {
    var bits := Stream(Sextets(BeforePad(value)), 6);
    DecodedIsPrefix(value);
    && UrlCharacters(value)
    && bits[8 * |Decoded(value)|..] == Zeros(|bits| - 8 * |Decoded(value)|)
  }

  lemma UnpaddedWhole(value: Text)
    requires UrlCharacters(value)
    ensures BeforePad(value) == value
  {
  }

  lemma LettersOfSextets(value: Text)
    requires InAlphabets(value) && UrlCharacters(value)
    ensures Letters(Sextets(value), UrlAlphabet()) == value
  {
    forall i | 0 <= i < |value| ensures UrlAlphabet()[Base64UrlValue(value[i])] == value[i] {
      UrlLetterOf(value[i]);
    }
  }

  lemma LeftoverBits(k: nat)
    requires k % 4 != 1
    ensures 6 * k - 8 * (6 * k / 8) == 2 * PadLength(6 * k / 8)
  {
    var q := k / 4;
    if k % 4 == 0 {
      assert 6 * k / 8 == 3 * q;
    } else if k % 4 == 2 {
      assert 6 * k / 8 == 3 * q + 1;
    } else {
      assert 6 * k / 8 == 3 * q + 2;
    }
  }

  /** Re-encoding what was decoded gives the text back exactly when it is canonical. */
  lemma ReEncode(value: Text)
    requires Decodable(value)
    ensures Base64UrlEncode(Decoded(value)) == value <==> Canonical(value)
  {
    if Canonical(value) {
      CanonicalReEncodes(value);
    }
    if Base64UrlEncode(Decoded(value)) == value {
      ReEncodedCanonical(value);
    }
  }

  lemma CanonicalReEncodes(value: Text)
    requires Decodable(value) && Canonical(value)
    ensures Base64UrlEncode(Decoded(value)) == value
  {
    UnpaddedWhole(value);
    CanonicalSextets(value);
    hide DataSextets, BeforePad, Decoded, UrlAlphabet, Letters;
    LettersOfSextets(value);
  }

  lemma CanonicalSextets(value: Text)
    requires Decodable(value) && Canonical(value)
    ensures DataSextets(Decoded(value)) == Sextets(BeforePad(value))
  {
    DecodedIsPrefix(value);
    UnpaddedWhole(value);
    LeftoverBits(|value|);
    PowersOfTwo();
    var data := Decoded(value);
    var bits := Stream(Sextets(value), 6);
    hide Stream, Groups, BeforePad, PadLength, Pow2, Decoded;
    assert bits == bits[..8 * |data|] + bits[8 * |data|..];
    GroupsStream(Sextets(value), 6, []);
    assert bits + [] == bits;
  }

  lemma ReEncodedCanonical(value: Text)
    requires Decodable(value) && Base64UrlEncode(Decoded(value)) == value
    ensures Canonical(value)
  {
    var data := Decoded(value);
    UrlLetters();
    hide DataSextets, Stream, Groups, BeforePad, Decoded, PadLength;
    assert value == Letters(DataSextets(data), UrlAlphabet());
    EncodedCharacters(DataSextets(data));
    SextetsOfLetters(DataSextets(data), UrlAlphabet());
    UnpaddedWhole(value);
    DataSextetsStream(data);
    DecodedIsPrefix(value);
    StreamLength(data, 8);
  }

  lemma EncodedCharacters(s: seq<nat>)
    requires Below(s, 64)
    ensures UrlCharacters(Letters(s, UrlAlphabet()))
  {
    UrlLetters();
    forall i | 0 <= i < |s| ensures var ch := UrlAlphabet()[s[i]]; ch != PAD && ch != '+' as nat && ch != '/' as nat {
      UrlLetterOf(UrlAlphabet()[s[i]]);
    }
  }

  // Which texts decode

  /** The units with a value are the letters of the two alphabets. */
  lemma LettersOnly(u: nat)
    ensures Base64UrlValue(u) >= 0 <==> u in UrlAlphabet() || u in StdAlphabet()
  {
    UrlLetters();
    StdLetters();
    hide UrlAlphabet, StdAlphabet;
    var v := Base64UrlValue(u);
    if v >= 0 {
      UrlLetterOf(u);
      SameLetter(v);
      assert UrlAlphabet()[v] in UrlAlphabet() && StdAlphabet()[v] in StdAlphabet();
      BothLetters(u);
    }
  }

  lemma BothLetters(u: nat)
    requires Base64UrlValue(u) >= 0
    ensures UrlAlphabet()[Base64UrlValue(u)] == u || StdAlphabet()[Base64UrlValue(u)] == u
  {
    UrlLetterOf(u);
    UrlLetters();
    StdLetters();
    hide UrlAlphabet, StdAlphabet;
  }

  lemma UrlLength(data: Text)
    requires IsBytes(data)
    ensures |Base64UrlEncode(data)| == |data| + (|data| + 2) / 3 && |Base64UrlEncode(data)| % 4 != 1
  {
    EncodedLength(data);
    EncodingsDiffer(data);
    UrlCount(|data|);
    hide DataSextets, UrlAlphabet, StdAlphabet, PadLength;
  }

  lemma UrlCount(n: nat)
    ensures (n + 2) / 3 * 4 - PadLength(n) == n + (n + 2) / 3
  {
    var q := n / 3;
    assert n == 3 * q || n == 3 * q + 1 || n == 3 * q + 2;
  }

  function Zeroes(n: nat): (t: Text)
    ensures |t| == n && IsBytes(t)
  {
    seq(n, _ => 0)
  }

  lemma SomeLength(k: nat)
    requires k % 4 != 1
    ensures exists data :: IsBytes(data) && |Base64UrlEncode(data)| == k
  {
    var n := 3 * k / 4;
    LengthReached(k / 4, k % 4);
    UrlLength(Zeroes(n));
    hide Base64UrlEncode, IsBytes;
  }

  lemma LengthReached(q: nat, r: nat)
    requires r < 4 && r != 1
    ensures var k := 4 * q + r; var n := 3 * k / 4; n + (n + 2) / 3 == k
  {
    var n := 3 * (4 * q + r) / 4;
    if r == 0 {
      assert n == 3 * q && (n + 2) / 3 == q;
    } else if r == 2 {
      assert n == 3 * q + 1 && (n + 2) / 3 == q + 1;
    } else {
      assert n == 3 * q + 2 && (n + 2) / 3 == q + 1;
    }
  }

  /** Without padding, letters decode exactly when they are as many as some byte string has. */
  lemma LettersDecode(value: Text)
    requires forall i :: 0 <= i < |value| ==> value[i] in UrlAlphabet() || value[i] in StdAlphabet()
    ensures Decode(value).Some? <==> exists data :: IsBytes(data) && |Base64UrlEncode(data)| == |value|
  {
    forall i | 0 <= i < |value| ensures Base64UrlValue(value[i]) >= 0 {
      LettersOnly(value[i]);
    }
    LettersDecodable(value);
    hide *;
    if |value| % 4 != 1 {
      SomeLength(|value|);
    }
    forall data | IsBytes(data) && |Base64UrlEncode(data)| == |value| ensures |value| % 4 != 1 {
      UrlLength(data);
    }
  }

  lemma LettersDecodable(value: Text)
    requires forall i :: 0 <= i < |value| ==> Base64UrlValue(value[i]) >= 0
    ensures Decode(value).Some? <==> |value| % 4 != 1
  {
    assert PAD !in value by {
      assert Base64UrlValue(PAD) == -1;
    }
    WholeBeforePad(value);
    hide Base64UrlValue, BeforePad, Decoded;
  }

  lemma WholeBeforePad(value: Text)
    requires PAD !in value
    ensures BeforePad(value) == value
  {
    BeforePadIs(value, []);
    assert value + [] == value;
  }

  /** What follows the first padding character only adds to the length, which must not be 1 modulo 4. */
  lemma PaddingIgnored(value: Text, more: Text)
    requires PAD !in value
    ensures Decode(value + [PAD] + more) == if (|value| + 1 + |more|) % 4 == 1 then None else Decode(value)
  {
    var t := value + [PAD] + more;
    assert t == value + ([PAD] + more);
    BeforePadIs(value, [PAD] + more);
    WholeBeforePad(value);
    hide Groups, Stream, Sextets, BeforePad, Base64UrlValue;
  }

  // Single blocks

  lemma OneBlock(data: Text)
    requires IsBytes(data) && 1 <= |data| <= 3
    ensures DataSextets(data) == BlockSextets(data, 0)
  {
    assert data[..0] == [];
    EncodeRound([], data, 0);
    hide BlockSextets, DataSextets;
    var six := BlockSextets(data, 0);
    assert [] + six == six;
    EncodedOfStream(six, data, 3);
  }

  lemma VectorOf(data: Text, sextets: seq<nat>, letters: Text, pads: Text)
    requires IsBytes(data) && 1 <= |data| <= 3 && BlockSextets(data, 0) == sextets && Below(sextets, 64)
    requires |letters| == |sextets|
    requires forall i :: 0 <= i < |sextets| ==> UrlAlphabet()[sextets[i]] == letters[i] == StdAlphabet()[sextets[i]]
    requires pads == Pads(PadLength(|data|))
    ensures Base64UrlEncode(data) == letters && Base64Encode(data) == letters + pads
  {
    OneBlock(data);
    hide DataSextets, UrlAlphabet, StdAlphabet, BlockSextets, PadLength, Pads;
    UrlLetters();
    StdLetters();
    assert Letters(sextets, UrlAlphabet()) == letters && Letters(sextets, StdAlphabet()) == letters;
  }

  /** Test vectors of section 10 of RFC 4648. */
  lemma VectorF()
    ensures Base64UrlEncode(Ascii("f")) == Ascii("Zg") && Base64Encode(Ascii("f")) == Ascii("Zg==")
  {
    assert Ascii("Zg==") == Ascii("Zg") + Pads(PadLength(1));
    VectorOf(Ascii("f"), [25, 32], Ascii("Zg"), Pads(PadLength(1)));
  }

  lemma VectorFo()
    ensures Base64UrlEncode(Ascii("fo")) == Ascii("Zm8") && Base64Encode(Ascii("fo")) == Ascii("Zm8=")
  {
    assert Ascii("Zm8=") == Ascii("Zm8") + Pads(PadLength(2));
    VectorOf(Ascii("fo"), [25, 38, 60], Ascii("Zm8"), Pads(PadLength(2)));
  }

  lemma VectorFoo()
    ensures Base64UrlEncode(Ascii("foo")) == Ascii("Zm9v") && Base64Encode(Ascii("foo")) == Ascii("Zm9v")
  {
    assert Ascii("Zm9v") == Ascii("Zm9v") + Pads(PadLength(3));
    VectorOf(Ascii("foo"), [25, 38, 61, 47], Ascii("Zm9v"), Pads(PadLength(3)));
  }
}
