/** The SDK's base64 codec, against the bit-stream reading of sections 4 and 5 of RFC 4648. */
module Base64 {
  import opened Text
  import opened Wrappers
  import opened BitStream

  const PAD: nat := '=' as nat

  const LETTERS := "ABCDEFGHIJKLMNOPQRSTUVWXYZ" + "abcdefghijklmnopqrstuvwxyz" + "0123456789"

  function StdAlphabet(): Text {
    Ascii(LETTERS + "+/")
  }

  function UrlAlphabet(): Text {
    Ascii(LETTERS + "-_")
  }

  // Encoding

  function PadLength(n: nat): nat {
    (3 - n % 3) % 3
  }

  /** The data's bits, filled up with zeros to a whole number of sextets, in groups of six. */
  function DataSextets(data: Text): (s: seq<nat>)
    ensures Below(s, 64)
  {
    assert Pow2(6) == 64;
    Groups(Stream(data, 8) + Zeros(2 * PadLength(|data|)), 6)
  }

  function Letters(sextets: seq<nat>, alphabet: Text): (t: Text)
    requires Below(sextets, |alphabet|)
    ensures |t| == |sextets|
  {
    seq(|sextets|, i requires 0 <= i < |sextets| => alphabet[sextets[i]])
  }

  function Pads(n: nat): Text {
    seq(n, _ => PAD)
  }

  function Encoded(data: Text, alphabet: Text, padding: bool): Text
    requires |alphabet| == 64
  {
    Letters(DataSextets(data), alphabet) + if padding then Pads(PadLength(|data|)) else []
  }

  function Base64Encode(data: Text): Text {
    Encoded(data, StdAlphabet(), true)
  }

  function Base64UrlEncode(data: Text): Text {
    Encoded(data, UrlAlphabet(), false)
  }

  lemma PowersOfTwo()
    ensures Pow2(6) == 64 && Pow2(8) == 256 && Pow2(32) == 0x1_0000_0000
  {
    assert Pow2(8) == 4 * Pow2(6);
    assert Pow2(16) == 256 * Pow2(8) by { assert Pow2(12) == 16 * Pow2(8); }
    assert Pow2(24) == 256 * Pow2(16) by { assert Pow2(20) == 16 * Pow2(16); }
    assert Pow2(32) == 256 * Pow2(24) by { assert Pow2(28) == 16 * Pow2(24); }
  }

  lemma {:induction false} ShrShr(v: nat, m: nat, n: nat)
    ensures Shr(v, m + n) == Shr(Shr(v, m), n)
    decreases m
  {
    if m > 0 {
      assert m + n - 1 == m - 1 + n;
      ShrShr(v / 2, m - 1, n);
    }
  }

  /** The shifts the codec uses, as divisions. */
  lemma ShrIs(v: nat)
    ensures Shr(v, 2) == v / 4 && Shr(v, 4) == v / 16 && Shr(v, 6) == v / 64
    ensures Shr(v, 8) == v / 256 && Shr(v, 12) == v / 4096 && Shr(v, 16) == v / 65536
    ensures Shr(v, 18) == v / 262144
  {
    forall u: nat ensures Shr(u, 2) == u / 4 {
      assert Shr(u, 2) == Shr(u / 2, 1) == Shr(u / 2 / 2, 0);
    }
    hide Shr;
    ShrShr(v, 2, 2);
    ShrShr(v, 4, 2);
    ShrShr(v, 6, 2);
    ShrShr(v, 8, 2);
    ShrShr(v, 10, 2);
    ShrShr(v, 12, 2);
    ShrShr(v, 14, 2);
    ShrShr(v, 16, 2);
  }

  lemma BitsOfRemainder(v: nat)
    ensures Bits(v % 64, 6) == Bits(v, 6)
  {
    PowersOfTwo();
    hide Bits, Pow2;
    BitsOfSum(v / 64, v % 64, 6, 6);
  }

  lemma ShrByte(q: nat, r: nat)
    requires r < 256
    ensures Shr(q * 256 + r, 8) == q
  {
    ShrIs(q * 256 + r);
  }

  lemma LowByte(q: nat, r: nat)
    requires r < 256
    ensures Bits(q * 256 + r, 8) == Bits(r, 8)
  {
    PowersOfTwo();
    hide Bits, Pow2;
    BitsOfSum(q, r, 8, 8);
  }

  lemma AppendByte(q: nat, r: nat, m: nat)
    requires r < 256
    ensures Bits(q * 256 + r, m + 8) == Bits(q, m) + Bits(r, 8)
  {
    hide Bits, Shr;
    ShrByte(q, r);
    LowByte(q, r);
    BitsSplit(q * 256 + r, m, 8);
  }

  /** Three bytes are the bits of the 24-bit number put together from them. */
  lemma ThreeBytes(first: nat, second: nat, third: nat)
    requires second < 256 && third < 256
    ensures Bits(first * 65536 + second * 256 + third, 24)
            == Bits(first, 8) + Bits(second, 8) + Bits(third, 8)
  {
    hide Bits;
    AppendByte(first, second, 8);
    AppendByte(first * 256 + second, third, 16);
  }

  /** A 24-bit number is the bits of its four sextets. */
  lemma FourSextets(value: nat)
    ensures Bits(value, 24) == Bits(value / 262144 % 64, 6) + Bits(value / 4096 % 64, 6)
                               + Bits(value / 64 % 64, 6) + Bits(value % 64, 6)
  {
    ShrIs(value);
    hide Bits, Shr;
    BitsSplit(value, 6, 18);
    BitsSplit(value, 6, 12);
    BitsSplit(value, 6, 6);
    BitsOfRemainder(value / 262144);
    BitsOfRemainder(value / 4096);
    BitsOfRemainder(value / 64);
    BitsOfRemainder(value);
  }

  lemma ThreeBytesStream(s: seq<nat>, a: nat, b: nat, c: nat)
    ensures Stream(s + [a, b, c], 8) == Stream(s, 8) + (Bits(a, 8) + Bits(b, 8) + Bits(c, 8))
  {
    hide Stream, Bits;
    assert s + [a, b, c] == s + [a] + [b] + [c];
    StreamAppend(s, a, 8);
    StreamAppend(s + [a], b, 8);
    StreamAppend(s + [a] + [b], c, 8);
  }

  lemma FourSextetsStream(s: seq<nat>, a: nat, b: nat, c: nat, d: nat)
    ensures Stream(s + [a, b, c, d], 6) == Stream(s, 6) + (Bits(a, 6) + Bits(b, 6) + Bits(c, 6) + Bits(d, 6))
  {
    hide Stream, Bits;
    assert s + [a, b, c, d] == s + [a] + [b] + [c] + [d];
    StreamAppend(s, a, 6);
    StreamAppend(s + [a], b, 6);
    StreamAppend(s + [a] + [b], c, 6);
    StreamAppend(s + [a] + [b] + [c], d, 6);
  }

  /** One round of the encoder: three more bytes (missing ones read as zero), four more sextets. */
  lemma BlockStream(six: seq<nat>, done: Text, first: nat, second: nat, third: nat, value: nat)
    requires Stream(six, 6) == Stream(done, 8)
    requires second < 256 && third < 256 && value == first * 65536 + second * 256 + third
    ensures Stream(six + [value / 262144 % 64, value / 4096 % 64, value / 64 % 64, value % 64], 6)
            == Stream(done + [first, second, third], 8)
  {
    hide Stream, Bits;
    ThreeBytes(first, second, third);
    FourSextets(value);
    ThreeBytesStream(done, first, second, third);
    FourSextetsStream(six, value / 262144 % 64, value / 4096 % 64, value / 64 % 64, value % 64);
  }

  lemma StreamLengths(six: seq<nat>, data: Text)
    ensures |Stream(six, 6)| == 6 * |six| && |Stream(data, 8)| == 8 * |data|
  {
    StreamLength(six, 6);
    StreamLength(data, 8);
  }

  lemma CutZeros(s: seq<bool>, u: seq<bool>, t: seq<bool>, n: nat, k: nat)
    requires s + u == t + Zeros(n) && |s| == |t| + k && k <= n
    ensures s == t + Zeros(k)
  {
    assert s == (s + u)[..|s|];
    assert t + Zeros(k) == (t + Zeros(n))[..|s|];
  }

  /** Two bytes of the last block are missing: two sextets carry the byte and four zero bits. */
  lemma TwoMissing(six: seq<nat>, a: nat, b: nat, c: nat, d: nat, data: Text)
    requires Stream(six + [a, b, c, d], 6) == Stream(data + [0, 0], 8)
    ensures Stream(six + [a, b], 6) == Stream(data, 8) + Zeros(4)
  {
    hide Stream, Bits;
    assert data + [0, 0] == data + [0] + [0];
    StreamAppend(data, 0, 8);
    StreamAppend(data + [0], 0, 8);
    BitsOfZero(8);
    assert Stream(data + [0, 0], 8) == Stream(data, 8) + Zeros(16);
    assert six + [a, b, c, d] == six + [a, b] + [c] + [d];
    StreamAppend(six + [a, b], c, 6);
    StreamAppend(six + [a, b] + [c], d, 6);
    assert Stream(six + [a, b, c, d], 6) == Stream(six + [a, b], 6) + (Bits(c, 6) + Bits(d, 6));
    StreamLengths(six + [a, b], data);
    StreamLengths(six + [a, b, c, d], data + [0, 0]);
    CutZeros(Stream(six + [a, b], 6), Bits(c, 6) + Bits(d, 6), Stream(data, 8), 16, 4);
  }

  /** One byte of the last block is missing: three sextets carry two bytes and two zero bits. */
  lemma OneMissing(six: seq<nat>, a: nat, b: nat, c: nat, d: nat, data: Text)
    requires Stream(six + [a, b, c, d], 6) == Stream(data + [0], 8)
    ensures Stream(six + [a, b, c], 6) == Stream(data, 8) + Zeros(2)
  {
    hide Stream, Bits;
    StreamAppend(data, 0, 8);
    BitsOfZero(8);
    assert six + [a, b, c, d] == six + [a, b, c] + [d];
    StreamAppend(six + [a, b, c], d, 6);
    StreamLengths(six + [a, b, c], data);
    StreamLengths(six + [a, b, c, d], data + [0]);
    CutZeros(Stream(six + [a, b, c], 6), Bits(d, 6), Stream(data, 8), 8, 2);
  }

  /** The sextets the encoder writes for the block at offset: four, or fewer at the end. */
  ghost function BlockSextets(data: Text, offset: nat): seq<nat>
    requires offset < |data|
  {
    var second := if offset + 1 < |data| then data[offset + 1] else 0;
    var third := if offset + 2 < |data| then data[offset + 2] else 0;
    var value := data[offset] * 65536 + second * 256 + third;
    if offset + 2 < |data| then [value / 262144 % 64, value / 4096 % 64, value / 64 % 64, value % 64]
    else if offset + 1 < |data| then [value / 262144 % 64, value / 4096 % 64, value / 64 % 64]
    else [value / 262144 % 64, value / 4096 % 64]
  }

  ghost predicate EncodedUpTo(six: seq<nat>, data: Text, offset: nat) {
    && Below(six, 64)
    && (if offset <= |data| then Stream(six, 6) == Stream(data[..offset], 8)
        else Stream(six, 6) == Stream(data, 8) + Zeros(2 * (offset - |data|)))
  }

  lemma WholeBlock(six: seq<nat>, data: Text, offset: nat)
    requires IsBytes(data) && offset + 2 < |data| && EncodedUpTo(six, data, offset)
    ensures EncodedUpTo(six + BlockSextets(data, offset), data, offset + 3)
  {
    hide Stream;
    var first, second, third := data[offset], data[offset + 1], data[offset + 2];
    BlockStream(six, data[..offset], first, second, third, first * 65536 + second * 256 + third);
    assert data[..offset] + [first, second, third] == data[..offset + 3];
  }

  lemma BlockOfTwo(six: seq<nat>, data: Text, offset: nat)
    requires IsBytes(data) && offset + 2 == |data| && EncodedUpTo(six, data, offset)
    ensures EncodedUpTo(six + BlockSextets(data, offset), data, offset + 3)
  {
    hide Stream;
    var first, second := data[offset], data[offset + 1];
    var value := first * 65536 + second * 256;
    BlockStream(six, data[..offset], first, second, 0, value);
    assert data[..offset] + [first, second, 0] == data + [0];
    OneMissing(six, value / 262144 % 64, value / 4096 % 64, value / 64 % 64, value % 64, data);
  }

  lemma BlockOfOne(six: seq<nat>, data: Text, offset: nat)
    requires IsBytes(data) && offset + 1 == |data| && EncodedUpTo(six, data, offset)
    ensures EncodedUpTo(six + BlockSextets(data, offset), data, offset + 3)
  {
    hide Stream;
    var value := data[offset] * 65536;
    BlockStream(six, data[..offset], data[offset], 0, 0, value);
    assert data[..offset] + [data[offset], 0, 0] == data + [0, 0];
    TwoMissing(six, value / 262144 % 64, value / 4096 % 64, value / 64 % 64, value % 64, data);
  }

  /** Every round of the encoder extends the encoded stream by the block it read. */
  lemma EncodeRound(six: seq<nat>, data: Text, offset: nat)
    requires IsBytes(data) && offset < |data| && EncodedUpTo(six, data, offset)
    ensures EncodedUpTo(six + BlockSextets(data, offset), data, offset + 3)
  {
    if offset + 2 < |data| {
      WholeBlock(six, data, offset);
    } else if offset + 1 < |data| {
      BlockOfTwo(six, data, offset);
    } else {
      BlockOfOne(six, data, offset);
    }
  }

  lemma LettersAppend(s: seq<nat>, more: seq<nat>, alphabet: Text)
    requires Below(s, |alphabet|) && Below(more, |alphabet|)
    ensures Below(s + more, |alphabet|)
    ensures Letters(s + more, alphabet) == Letters(s, alphabet) + Letters(more, alphabet)
  {
  }

  /** The encoder's loop computes the encoding of the bit stream. */
  method Base64(data: Text, alphabet: Text, padding: bool) returns (output: Text)
    requires IsBytes(data) && |alphabet| == 64
    ensures output == Encoded(data, alphabet, padding)
  {
    hide EncodedUpTo, Letters, DataSextets, PadLength, Pads, IsBytes, BlockSextets;
    output := [];
    ghost var six: seq<nat> := [];
    EncodeStart(data, alphabet);
    var offset := 0;
    while offset < |data|
      invariant offset % 3 == 0 && offset <= |data| + 2
      invariant EncodedUpTo(six, data, offset) && Below(six, 64)
      invariant output == Letters(six, alphabet) + if padding then Filler(data, offset) else []
    {
      var first := data[offset];
      var second := if offset + 1 < |data| then data[offset + 1] else 0;
      var third := if offset + 2 < |data| then data[offset + 2] else 0;
      var value := first * 65536 + second * 256 + third;
      ghost var before := output;
      output := output + [alphabet[value / 262144 % 64]];
      output := output + [alphabet[value / 4096 % 64]];
      if offset + 1 < |data| {
        output := output + [alphabet[value / 64 % 64]];
      } else if padding {
        output := output + [PAD];
      }
      if offset + 2 < |data| {
        output := output + [alphabet[value % 64]];
      } else if padding {
        output := output + [PAD];
      }
      assert output == before + [alphabet[value / 262144 % 64]] + [alphabet[value / 4096 % 64]]
             + (if offset + 1 < |data| then [alphabet[value / 64 % 64]] else if padding then [PAD] else [])
             + (if offset + 2 < |data| then [alphabet[value % 64]] else if padding then [PAD] else []);
      BlockLetters(before, data, offset, value, alphabet, padding);
      assert before == Letters(six, alphabet);
      LettersAppend(six, BlockSextets(data, offset), alphabet);
      EncodeRound(six, data, offset);
      six := six + BlockSextets(data, offset);
      offset := offset + 3;
    }
    EncodedOfStream(six, data, offset);
    FillerIs(data, offset);
  }

  /** The '=' characters written once the encoder has gone past the end. */
  ghost function Filler(data: Text, offset: nat): Text {
    if offset > |data| then Pads(offset - |data|) else []
  }

  lemma EncodeStart(data: Text, alphabet: Text)
    ensures EncodedUpTo([], data, 0) && Letters([], alphabet) == []
  {
  }

  lemma BlockLetters(before: Text, data: Text, offset: nat, value: nat, alphabet: Text, padding: bool)
    requires offset < |data| && |alphabet| == 64
    requires value == data[offset] * 65536 + (if offset + 1 < |data| then data[offset + 1] else 0) * 256
                      + (if offset + 2 < |data| then data[offset + 2] else 0)
    ensures Filler(data, offset) == []
    ensures Below(BlockSextets(data, offset), 64)
    ensures before + [alphabet[value / 262144 % 64]] + [alphabet[value / 4096 % 64]]
            + (if offset + 1 < |data| then [alphabet[value / 64 % 64]] else if padding then [PAD] else [])
            + (if offset + 2 < |data| then [alphabet[value % 64]] else if padding then [PAD] else [])
            == before + Letters(BlockSextets(data, offset), alphabet)
               + if padding then Filler(data, offset + 3) else []
  {
  }

  lemma PadLengthIs(n: nat, offset: nat)
    requires n <= offset <= n + 2 && offset % 3 == 0
    ensures offset - n == PadLength(n)
  {
  }

  lemma FillerIs(data: Text, offset: nat)
    requires |data| <= offset
    ensures Filler(data, offset) == Pads(offset - |data|)
  {
  }

  lemma EncodedOfStream(six: seq<nat>, data: Text, offset: nat)
    requires EncodedUpTo(six, data, offset)
    requires |data| <= offset <= |data| + 2 && offset % 3 == 0
    ensures DataSextets(data) == six && offset - |data| == PadLength(|data|)
  {
    PadLengthIs(|data|, offset);
    PowersOfTwo();
    hide Stream, Groups, PadLength, Pow2;
    if offset == |data| {
      assert data[..offset] == data;
      assert Stream(data, 8) + Zeros(0) == Stream(data, 8);
    }
    GroupsStream(six, 6, []);
    assert Stream(six, 6) + [] == Stream(six, 6);
  }

  // Decoding

  /** The value of one letter, -1 when it is in neither alphabet. */
  function Base64UrlValue(ch: nat): (v: int)
    ensures -1 <= v < 64
  {
    if 'A' as nat <= ch <= 'Z' as nat then ch - 'A' as nat
    else if 'a' as nat <= ch <= 'z' as nat then ch - 'a' as nat + 26
    else if '0' as nat <= ch <= '9' as nat then ch - '0' as nat + 52
    else if ch == '-' as nat || ch == '+' as nat then 62
    else if ch == '_' as nat || ch == '/' as nat then 63
    else -1
  }

  /** What comes before the first '='. */
  function BeforePad(value: Text): (p: Text)
    ensures |p| <= |value| && p == value[..|p|] && PAD !in p
    ensures |p| < |value| ==> value[|p|] == PAD
  {
    if value == [] || value[0] == PAD then []
    else
      var p := [value[0]] + BeforePad(value[1..]);
      assert value == [value[0]] + value[1..];
      p
  }

  predicate InAlphabets(t: Text) {
    forall i :: 0 <= i < |t| ==> Base64UrlValue(t[i]) >= 0
  }

  function Sextets(t: Text): (s: seq<nat>)
    requires InAlphabets(t)
    ensures |s| == |t| && Below(s, 64)
  {
    seq(|t|, i requires 0 <= i < |t| => Base64UrlValue(t[i]))
  }

  /** The texts the decoder accepts. */
  predicate Decodable(value: Text) {
    InAlphabets(BeforePad(value)) && |BeforePad(value)| % 4 != 1 && |value| % 4 != 1
  }

  /** The whole bytes of the unbounded bit stream the letters spell. */
  function Decoded(value: Text): (data: Text)
    requires InAlphabets(BeforePad(value))
    ensures IsBytes(data)
  {
    assert Pow2(8) == 256 by { PowersOfTwo(); }
    Groups(Stream(Sextets(BeforePad(value)), 6), 8)
  }

  function Decode(value: Text): Option<Text> {
    if Decodable(value) then Some(Decoded(value)) else None
  }

  lemma ShrSextet(q: nat, r: nat)
    requires r < 64
    ensures Shr(q * 64 + r, 6) == q
  {
    ShrIs(q * 64 + r);
  }

  lemma LowSextet(buffer: nat, sextet: nat)
    requires sextet < 64
    ensures Bits(buffer * 64 + sextet, 6) == Bits(sextet, 6)
  {
    PowersOfTwo();
    hide Bits, Pow2;
    BitsOfSum(buffer, sextet, 6, 6);
  }

  /** Wrapping at 32 bits changes none of the low bits. */
  lemma Wrapped(v: nat, low: nat, bits: nat)
    requires bits <= 32
    ensures Bits(v % 0x1_0000_0000 + low, bits) == Bits(v + low, bits)
  {
    PowersOfTwo();
    var turns := v / 0x1_0000_0000;
    assert v == turns * 0x1_0000_0000 + v % 0x1_0000_0000;
    hide Bits, Pow2;
    BitsOfSum(turns, v % 0x1_0000_0000 + low, 32, bits);
  }

  /** Shifting a sextet in: the wrapped 32-bit buffer still holds the pending bits. */
  lemma ShiftIn(buffer: nat, bits: nat, sextet: nat)
    requires sextet < 64 && bits + 6 <= 32
    ensures Bits(buffer * 64 % 0x1_0000_0000 + sextet, bits + 6) == Bits(buffer, bits) + Bits(sextet, 6)
  {
    hide Bits, Shr;
    ShrSextet(buffer, sextet);
    LowSextet(buffer, sextet);
    Wrapped(buffer * 64, sextet, bits + 6);
    BitsSplit(buffer * 64 + sextet, bits, 6);
  }

  /** Taking the top eight pending bits out as a byte. */
  lemma TakeByte(buffer: nat, bits: nat)
    ensures Bits(Shr(buffer, bits) % 256, 8) + Bits(buffer, bits) == Bits(buffer, 8 + bits)
  {
    PowersOfTwo();
    hide Bits, Pow2, Shr;
    var high := Shr(buffer, bits);
    BitsSplit(buffer, 8, bits);
    BitsOfSum(high / 256, high % 256, 8, 8);
  }

  /** The number of pending bits after k sextets. */
  function PendingBits(k: nat): nat {
    6 * k % 8
  }

  /** The bytes put out and the bits pending in the buffer are the bits of the letters read. */
  ghost predicate DecodedUpTo(output: Text, buffer: nat, bits: nat, letters: Text) {
    && InAlphabets(letters)
    && Stream(output, 8) + Bits(buffer, bits) == Stream(Sextets(letters), 6)
  }

  lemma DecodeStart()
    ensures DecodedUpTo([], 0, 0, []) && PendingBits(0) == 0
  {
  }

  lemma ShiftRound(output: Text, buffer: nat, bits: nat, letters: Text, ch: nat)
    requires DecodedUpTo(output, buffer, bits, letters)
    requires bits <= 26 && Base64UrlValue(ch) >= 0
    ensures DecodedUpTo(output, buffer * 64 % 0x1_0000_0000 + Base64UrlValue(ch), bits + 6, letters + [ch])
  {
    hide Stream, Bits;
    var d := Base64UrlValue(ch);
    assert Sextets(letters + [ch]) == Sextets(letters) + [d];
    StreamAppend(Sextets(letters), d, 6);
    ShiftIn(buffer, bits, d);
  }

  lemma TakeRound(output: Text, buffer: nat, bits: nat, letters: Text)
    requires DecodedUpTo(output, buffer, bits + 8, letters)
    ensures DecodedUpTo(output + [Shr(buffer, bits) % 256], buffer, bits, letters)
  {
    hide Stream, Bits, Shr;
    TakeByte(buffer, bits);
    StreamAppend(output, Shr(buffer, bits) % 256, 8);
  }

  lemma DecodeEnd(output: Text, buffer: nat, bits: nat, value: Text)
    requires DecodedUpTo(output, buffer, bits, BeforePad(value))
    requires IsBytes(output) && bits < 8
    ensures InAlphabets(BeforePad(value)) && Decoded(value) == output
  {
    hide Stream, Bits;
    PowersOfTwo();
    GroupsStream(output, 8, Bits(buffer, bits));
  }

  lemma PendingStep(k: nat)
    ensures PendingBits(k) <= 6 && (PendingBits(k) == 6 <==> k % 4 == 1)
    ensures PendingBits(k + 1) == if PendingBits(k) >= 2 then PendingBits(k) - 2 else PendingBits(k) + 6
  {
    var q := k / 4;
    var r := k % 4;
    assert k == 4 * q + r;
    assert 6 * k == 8 * (3 * q) + 6 * r;
    PendingIs(3 * q, 6 * r);
    PendingIs(3 * q, 6 * r + 6);
  }

  lemma PendingIs(q: nat, r: nat)
    ensures (8 * q + r) % 8 == r % 8
  {
  }

  /** The decoder's wrapping bit buffer refines the unbounded bit stream. */
  method Base64UrlDecode(value: Text) returns (r: Result<Text, ErrorCode>)
    ensures r.Success? <==> Decodable(value)
    ensures r.Success? ==> r.value == Decoded(value)
    ensures r.Failure? ==> r.error == Authentication
  {
    hide DecodedUpTo, Decoded, Shr, BeforePad, Base64UrlValue, PendingBits;
    var output: Text := [];
    var buffer: nat := 0;
    var bits: nat := 0;
    var i := 0;
    DecodeStart();
    assert value[..0] == [];
    while i < |value| && value[i] != PAD
      invariant i <= |BeforePad(value)|
      invariant bits == PendingBits(i) && bits <= 6 && buffer < 0x1_0000_0000
      invariant IsBytes(output)
      invariant DecodedUpTo(output, buffer, bits, value[..i])
      decreases |value| - i
    {
      PendingStep(i);
      PendingStep(i + 1);
      var decoded := Base64UrlValue(value[i]);
      if decoded < 0 {
        assert BeforePad(value)[i] == value[i];
        return Failure(Authentication);
      }
      assert value[..i + 1] == value[..i] + [value[i]];
      ShiftRound(output, buffer, bits, value[..i], value[i]);
      assert buffer * 64 % 0x1_0000_0000 <= 0x1_0000_0000 - 64;
      buffer := buffer * 64 % 0x1_0000_0000 + decoded;
      bits := bits + 6;
      if bits >= 8 {
        bits := bits - 8;
        TakeRound(output, buffer, bits, value[..i + 1]);
        output := output + [Shr(buffer, bits) % 256];
      }
      i := i + 1;
    }
    PendingStep(i);
    assert value[..i] == BeforePad(value);
    DecodeEnd(output, buffer, bits, value);
    if bits >= 6 || |value| % 4 == 1 {
      return Failure(Authentication);
    }
    return Success(output);
  }
}
