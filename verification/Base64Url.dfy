/** The base64url alphabet of section 5 of RFC 4648, with the padding of its section 3.2 stripped and put back. */
module Base64Url {

  type Byte = b: int | 0 <= b < 256
  type Sextet = v: int | 0 <= v < 64

  // ----- Bytes and groups of six bits

  /** Three bytes as four sextets, and back. */
  function First(x: Byte): Sextet { x / 4 }
  function Second(x: Byte, y: Byte): Sextet { x % 4 * 16 + y / 16 }
  function Third(y: Byte, z: Byte): Sextet { y % 16 * 4 + z / 64 }
  function Fourth(z: Byte): Sextet { z % 64 }

  function Byte1(a: Sextet, b: Sextet): Byte { a * 4 + b / 16 }
  function Byte2(b: Sextet, c: Sextet): Byte { b % 16 * 16 + c / 4 }
  function Byte3(c: Sextet, d: Sextet): Byte { c % 4 * 64 + d }

  lemma RegroupBytes(x: Byte, y: Byte, z: Byte)
    ensures Byte1(First(x), Second(x, y)) == x
    ensures Byte2(Second(x, y), Third(y, z)) == y
    ensures Byte3(Third(y, z), Fourth(z)) == z
  {
  }

  lemma RegroupSextets(a: Sextet, b: Sextet, c: Sextet, d: Sextet)
    ensures First(Byte1(a, b)) == a
    ensures Second(Byte1(a, b), Byte2(b, c)) == b
    ensures Third(Byte2(b, c), Byte3(c, d)) == c
    ensures Fourth(Byte3(c, d)) == d
    ensures Second(Byte1(a, b), 0) == b <==> b % 16 == 0
    ensures Third(Byte2(b, c), 0) == c <==> c % 4 == 0
  {
  }

  /** Four sextets for every three bytes; a shorter last group is filled with zero bits and cut short. */
  function Sextets(data: seq<Byte>): (values: seq<Sextet>)
    ensures |values| == (4 * |data| + 2) / 3
  {
    if |data| == 0 then []
    else if |data| == 1 then [First(data[0]), Second(data[0], 0)]
    else if |data| == 2 then [First(data[0]), Second(data[0], data[1]), Third(data[1], 0)]
    else
      [First(data[0]), Second(data[0], data[1]), Third(data[1], data[2]), Fourth(data[2])] + Sextets(data[3..])
  }

  lemma SextetsLength(data: seq<Byte>)
    ensures |Sextets(data)| % 4 != 1
    ensures Sextets(data) == [] <==> data == []
  {
  }

  // ----- Characters

  function EncodeSextet(v: Sextet): char {
    if v < 26 then (v + 'A' as int) as char
    else if v < 52 then (v - 26 + 'a' as int) as char
    else if v < 62 then (v - 52 + '0' as int) as char
    else if v == 62 then '-'
    else '_'
  }

  /** What a decoder sees in a character. */
  datatype Symbol = Data(value: Sextet) | Pad | Unknown

  function Classify(c: char): Symbol {
    if 'A' <= c <= 'Z' then Data(c as int - 'A' as int)
    else if 'a' <= c <= 'z' then Data(c as int - 'a' as int + 26)
    else if '0' <= c <= '9' then Data(c as int - '0' as int + 52)
    else if c == '-' then Data(62)
    else if c == '_' then Data(63)
    else if c == '=' then Pad
    else Unknown
  }

  lemma SextetRoundTrip(v: Sextet)
    ensures Classify(EncodeSextet(v)) == Data(v)
  {
  }

  lemma CharRoundTrip(c: char)
    requires Classify(c).Data?
    ensures EncodeSextet(Classify(c).value) == c
  {
  }

  function Chars(values: seq<Sextet>): (s: string)
    ensures |s| == |values| && forall k :: 0 <= k < |s| ==> s[k] == EncodeSextet(values[k])
  {
    if |values| == 0 then "" else [EncodeSextet(values[0])] + Chars(values[1..])
  }

  function Symbols(s: string): (r: seq<Symbol>)
    ensures |r| == |s| && forall k :: 0 <= k < |s| ==> r[k] == Classify(s[k])
  {
    if |s| == 0 then [] else [Classify(s[0])] + Symbols(s[1..])
  }

  function DataSymbols(values: seq<Sextet>): (r: seq<Symbol>)
    ensures |r| == |values| && forall k :: 0 <= k < |r| ==> r[k] == Data(values[k])
  {
    if |values| == 0 then [] else [Data(values[0])] + DataSymbols(values[1..])
  }

  // ----- Encoding

  /** How many padding characters fill a text of this length up to whole groups of four. */
  function PaddingCount(length: nat): nat {
    (4 - length % 4) % 4
  }

  function Padding(count: nat): (s: string)
    ensures |s| == count && forall k :: 0 <= k < count ==> s[k] == '='
  {
    if count == 0 then "" else "=" + Padding(count - 1)
  }

  /** The library's encoder. */
  function UrlsafeEncode(data: seq<Byte>): string {
    var body := Chars(Sextets(data));
    body + Padding(PaddingCount(|body|))
  }

  function StripPadding(s: string): string {
    if |s| > 0 && s[|s| - 1] == '=' then StripPadding(s[..|s| - 1]) else s
  }

  /** `_b64encode`. */
  function B64Encode(data: seq<Byte>): string {
    StripPadding(UrlsafeEncode(data))
  }

  /** A text of data characters only. */
  predicate AllData(s: string) {
    forall k :: 0 <= k < |s| ==> Classify(s[k]).Data?
  }

  lemma CharsAreData(values: seq<Sextet>)
    ensures AllData(Chars(values)) && Symbols(Chars(values)) == DataSymbols(values)
  {
    forall k | 0 <= k < |values| ensures Classify(Chars(values)[k]) == Data(values[k]) {
      SextetRoundTrip(values[k]);
    }
  }

  lemma {:induction false} StripsToData(s: string, count: nat)
    requires AllData(s)
    ensures StripPadding(s + Padding(count)) == s
  {
    var padded := s + Padding(count);
    if count == 0 {
      assert padded == s;
      assert |s| > 0 ==> Classify(s[|s| - 1]).Data?;
    } else {
      StripsToData(s, count - 1);
      assert padded[..|padded| - 1] == s + Padding(count - 1);
    }
  }

  /** Stripping the encoder's padding leaves the data characters and nothing else. */
  lemma EncodedIsData(data: seq<Byte>)
    ensures B64Encode(data) == Chars(Sextets(data))
  {
    var body := Chars(Sextets(data));
    CharsAreData(Sextets(data));
    StripsToData(body, PaddingCount(|body|));
  }

  // ----- Decoding

  datatype Decoded = Bytes(data: seq<Byte>) | Malformed

  function Given(b: Byte, rest: Decoded): Decoded {
    match rest
    case Bytes(data) => Bytes([b] + data)
    case Malformed => Malformed
  }

  /**
   * The library's decoder: `quad` counts the characters of the current group, `last` is the sextet read
   * before, and `pads` counts padding characters. Padding that completes a group ends the text; padding
   * elsewhere, and any character it does not know, is skipped.
   */
  function DecodeFrom(s: seq<Symbol>, quad: nat, last: Sextet, pads: nat): Decoded
    requires quad < 4
  {
    if |s| == 0 then if quad == 0 then Bytes([]) else Malformed
    else
      match s[0]
      case Pad =>
        if quad < 2 then DecodeFrom(s[1..], quad, last, pads)
        else if quad + pads + 1 >= 4 then Bytes([])
        else DecodeFrom(s[1..], quad, last, pads + 1)
      case Unknown => DecodeFrom(s[1..], quad, last, pads)
      case Data(v) =>
        if quad == 0 then DecodeFrom(s[1..], 1, v, 0)
        else if quad == 1 then Given(Byte1(last, v), DecodeFrom(s[1..], 2, v, 0))
        else if quad == 2 then Given(Byte2(last, v), DecodeFrom(s[1..], 3, v, 0))
        else Given(Byte3(last, v), DecodeFrom(s[1..], 0, 0, 0))
  }

  function UrlsafeDecode(s: string): Decoded {
    DecodeFrom(Symbols(s), 0, 0, 0)
  }

  /** `_b64decode`: the characters are checked first, because the decoder skips those it does not know. */
  function B64Decode(text: string): Decoded {
    if text == "" || exists k :: 0 <= k < |text| && Classify(text[k]) == Unknown then Malformed
    else UrlsafeDecode(text + Padding(PaddingCount(|text|)))
  }

  lemma DecodeData(v: Sextet, rest: seq<Symbol>, quad: nat, last: Sextet, pads: nat)
    requires quad < 4
    ensures DecodeFrom([Data(v)] + rest, quad, last, pads) ==
            if quad == 0 then DecodeFrom(rest, 1, v, 0)
            else if quad == 1 then Given(Byte1(last, v), DecodeFrom(rest, 2, v, 0))
            else if quad == 2 then Given(Byte2(last, v), DecodeFrom(rest, 3, v, 0))
            else Given(Byte3(last, v), DecodeFrom(rest, 0, 0, 0))
  {
    assert ([Data(v)] + rest)[1..] == rest;
  }

  /** A whole group of four characters gives three bytes. */
  lemma DecodeGroup(a: Sextet, b: Sextet, c: Sextet, d: Sextet, rest: seq<Symbol>)
    ensures DecodeFrom([Data(a), Data(b), Data(c), Data(d)] + rest, 0, 0, 0) ==
            Given(Byte1(a, b), Given(Byte2(b, c), Given(Byte3(c, d), DecodeFrom(rest, 0, 0, 0))))
  {
    var s3 := [Data(d)] + rest;
    var s2 := [Data(c)] + s3;
    var s1 := [Data(b)] + s2;
    DecodeData(d, rest, 3, c, 0);
    DecodeData(c, s3, 2, b, 0);
    DecodeData(b, s2, 1, a, 0);
    DecodeData(a, s1, 0, 0, 0);
    assert [Data(a), Data(b), Data(c), Data(d)] + rest == [Data(a)] + s1;
  }

  lemma DecodePads(last: Sextet)
    ensures DecodeFrom([Pad, Pad], 2, last, 0) == Bytes([])
    ensures DecodeFrom([Pad], 3, last, 0) == Bytes([])
    ensures DecodeFrom([Pad, Pad, Pad], 1, last, 0) == Malformed
  {
    assert [Pad, Pad][1..] == [Pad] && [Pad][1..] == [];
    assert [Pad, Pad, Pad][1..] == [Pad, Pad];
    assert DecodeFrom([Pad], 2, last, 1) == Bytes([]);
    assert DecodeFrom([], 1, last, 0) == Malformed;
    assert DecodeFrom([Pad], 1, last, 0) == Malformed;
    assert DecodeFrom([Pad, Pad], 1, last, 0) == Malformed;
  }

  /** One, two or three last characters and their padding give an error, one byte or two bytes. */
  lemma DecodeLastGroup(a: Sextet, b: Sextet, c: Sextet)
    ensures DecodeFrom([Data(a), Pad, Pad, Pad], 0, 0, 0) == Malformed
    ensures DecodeFrom([Data(a), Data(b), Pad, Pad], 0, 0, 0) == Bytes([Byte1(a, b)])
    ensures DecodeFrom([Data(a), Data(b), Data(c), Pad], 0, 0, 0) == Bytes([Byte1(a, b), Byte2(b, c)])
  {
    DecodePads(a);
    DecodePads(b);
    DecodePads(c);
    DecodeData(a, [Pad, Pad, Pad], 0, 0, 0);
    assert [Data(a), Pad, Pad, Pad] == [Data(a)] + [Pad, Pad, Pad];
    DecodeData(b, [Pad, Pad], 1, a, 0);
    DecodeData(a, [Data(b), Pad, Pad], 0, 0, 0);
    assert [Data(a), Data(b), Pad, Pad] == [Data(a)] + [Data(b), Pad, Pad];
    assert [Data(b), Pad, Pad] == [Data(b)] + [Pad, Pad];
    DecodeData(c, [Pad], 2, b, 0);
    DecodeData(b, [Data(c), Pad], 1, a, 0);
    DecodeData(a, [Data(b), Data(c), Pad], 0, 0, 0);
    assert [Data(a), Data(b), Data(c), Pad] == [Data(a)] + [Data(b), Data(c), Pad];
    assert [Data(b), Data(c), Pad] == [Data(b)] + [Data(c), Pad];
    assert [Data(c), Pad] == [Data(c)] + [Pad];
  }

  function Pads(count: nat): (r: seq<Symbol>)
    ensures |r| == count && forall k :: 0 <= k < count ==> r[k] == Pad
  {
    if count == 0 then [] else [Pad] + Pads(count - 1)
  }

  /** A text of data characters with its padding, as the decoder sees it. */
  function Padded(values: seq<Sextet>): seq<Symbol> {
    DataSymbols(values) + Pads(PaddingCount(|values|))
  }

  lemma SymbolsConcat(a: string, b: string)
    ensures Symbols(a + b) == Symbols(a) + Symbols(b)
  {
  }

  lemma SymbolsOfPadding(count: nat)
    ensures Symbols(Padding(count)) == Pads(count)
  {
    assert Classify('=') == Pad;
  }

  lemma PaddedText(values: seq<Sextet>)
    ensures Symbols(Chars(values) + Padding(PaddingCount(|values|))) == Padded(values)
  {
    CharsAreData(values);
    SymbolsConcat(Chars(values), Padding(PaddingCount(|values|)));
    SymbolsOfPadding(PaddingCount(|values|));
  }

  lemma DataSymbolsConcat(a: seq<Sextet>, b: seq<Sextet>)
    ensures DataSymbols(a + b) == DataSymbols(a) + DataSymbols(b)
  {
  }

  lemma PaddedGroup(a: Sextet, b: Sextet, c: Sextet, d: Sextet, rest: seq<Sextet>)
    ensures Padded([a, b, c, d] + rest) == [Data(a), Data(b), Data(c), Data(d)] + Padded(rest)
  {
    DataSymbolsConcat([a, b, c, d], rest);
    assert DataSymbols([a, b, c, d]) == [Data(a), Data(b), Data(c), Data(d)];
    assert PaddingCount(|[a, b, c, d] + rest|) == PaddingCount(|rest|);
  }

  lemma DecodePaddedGroup(a: Sextet, b: Sextet, c: Sextet, d: Sextet, rest: seq<Sextet>)
    ensures DecodeFrom(Padded([a, b, c, d] + rest), 0, 0, 0) ==
            Given(Byte1(a, b), Given(Byte2(b, c), Given(Byte3(c, d), DecodeFrom(Padded(rest), 0, 0, 0))))
  {
    PaddedGroup(a, b, c, d, rest);
    DecodeGroup(a, b, c, d, Padded(rest));
  }

  /** One, two or three last sextets give an error, one byte or two bytes. */
  lemma DecodePaddedShort(a: Sextet, b: Sextet, c: Sextet)
    ensures DecodeFrom(Padded([a]), 0, 0, 0) == Malformed
    ensures DecodeFrom(Padded([a, b]), 0, 0, 0) == Bytes([Byte1(a, b)])
    ensures DecodeFrom(Padded([a, b, c]), 0, 0, 0) == Bytes([Byte1(a, b), Byte2(b, c)])
  {
    DecodeLastGroup(a, b, c);
    assert Padded([a]) == [Data(a), Pad, Pad, Pad];
    assert Padded([a, b]) == [Data(a), Data(b), Pad, Pad];
    assert Padded([a, b, c]) == [Data(a), Data(b), Data(c), Pad];
  }

  lemma RoundTripGroup(x: Byte, y: Byte, z: Byte, rest: seq<Sextet>, tail: seq<Byte>)
    requires DecodeFrom(Padded(rest), 0, 0, 0) == Bytes(tail)
    ensures DecodeFrom(Padded([First(x), Second(x, y), Third(y, z), Fourth(z)] + rest), 0, 0, 0) ==
            Bytes([x, y, z] + tail)
  {
    RegroupBytes(x, y, z);
    DecodePaddedGroup(First(x), Second(x, y), Third(y, z), Fourth(z), rest);
    assert [x] + ([y] + ([z] + tail)) == [x, y, z] + tail;
  }

  lemma ShortGroupGives(a: Sextet, b: Sextet, c: Sextet, x: Byte, y: Byte)
    requires Byte1(a, b) == x && Byte2(b, c) == y
    ensures DecodeFrom(Padded([a, b]), 0, 0, 0) == Bytes([x])
    ensures DecodeFrom(Padded([a, b, c]), 0, 0, 0) == Bytes([x, y])
  {
    DecodePaddedShort(a, b, c);
  }

  lemma RoundTripShort(x: Byte, y: Byte)
    ensures DecodeFrom(Padded([First(x), Second(x, 0)]), 0, 0, 0) == Bytes([x])
    ensures DecodeFrom(Padded([First(x), Second(x, y), Third(y, 0)]), 0, 0, 0) == Bytes([x, y])
  {
    RegroupBytes(x, 0, 0);
    RegroupBytes(x, y, 0);
    ShortGroupGives(First(x), Second(x, 0), Third(0, 0), x, 0);
    ShortGroupGives(First(x), Second(x, y), Third(y, 0), x, y);
  }

  /** The decoder undoes the encoder, whatever the length modulo three. */
  lemma {:induction false} DecodeUndoesEncode(data: seq<Byte>)
    ensures DecodeFrom(Padded(Sextets(data)), 0, 0, 0) == Bytes(data)
  {
    if |data| == 0 {
    } else if |data| == 1 {
      RoundTripShort(data[0], 0);
      assert data == [data[0]];
    } else if |data| == 2 {
      RoundTripShort(data[0], data[1]);
      assert data == [data[0], data[1]];
    } else {
      DecodeUndoesEncode(data[3..]);
      RoundTripGroup(data[0], data[1], data[2], Sextets(data[3..]), data[3..]);
      assert data == [data[0], data[1], data[2]] + data[3..];
    }
  }

  /** `_b64decode` undoes `_b64encode` on every non-empty byte string; the empty one is refused. */
  lemma B64RoundTrip(data: seq<Byte>)
    ensures B64Decode(B64Encode(data)) == if data == [] then Malformed else Bytes(data)
  {
    var values := Sextets(data);
    EncodedIsData(data);
    SextetsLength(data);
    CharsAreData(values);
    PaddedText(values);
    DecodeUndoesEncode(data);
  }

  // ----- Which texts are read, and which are read back as written

  lemma GroupAccepted(a: Sextet, b: Sextet, c: Sextet, d: Sextet, rest: seq<Sextet>)
    ensures DecodeFrom(Padded([a, b, c, d] + rest), 0, 0, 0) == Malformed <==>
            DecodeFrom(Padded(rest), 0, 0, 0) == Malformed
  {
    DecodePaddedGroup(a, b, c, d, rest);
  }

  /** A text of data characters is refused exactly when its length is one more than a multiple of four. */
  lemma {:induction false} DataAccepted(values: seq<Sextet>)
    ensures DecodeFrom(Padded(values), 0, 0, 0) == Malformed <==> |values| % 4 == 1
    decreases |values|
  {
    if |values| >= 4 {
      var rest := values[4..];
      DataAccepted(rest);
      GroupAccepted(values[0], values[1], values[2], values[3], rest);
      assert values == [values[0], values[1], values[2], values[3]] + rest;
    } else {
      ShortValues(values);
    }
  }

  lemma ShortValues(values: seq<Sextet>)
    requires |values| < 4
    ensures DecodeFrom(Padded(values), 0, 0, 0) ==
            if |values| == 0 then Bytes([]) else if |values| == 1 then Malformed
            else if |values| == 2 then Bytes([Byte1(values[0], values[1])])
            else Bytes([Byte1(values[0], values[1]), Byte2(values[1], values[2])])
  {
    if |values| == 0 {
      assert values == [];
    } else if |values| == 1 {
      DecodePaddedShort(values[0], 0, 0);
      assert values == [values[0]];
    } else if |values| == 2 {
      DecodePaddedShort(values[0], values[1], 0);
      assert values == [values[0], values[1]];
    } else {
      DecodePaddedShort(values[0], values[1], values[2]);
      assert values == [values[0], values[1], values[2]];
    }
  }

  /** The bits that the last sextet of a short group carries beyond the data are zero. */
  predicate SpareBitsZero(values: seq<Sextet>) {
    (|values| % 4 == 2 ==> values[|values| - 1] % 16 == 0) &&
    (|values| % 4 == 3 ==> values[|values| - 1] % 4 == 0)
  }

  /** A text of data characters is what its bytes encode to exactly when its spare bits are zero. */
  lemma {:induction false} EncodeUndoesDecode(values: seq<Sextet>, data: seq<Byte>)
    requires DecodeFrom(Padded(values), 0, 0, 0) == Bytes(data)
    ensures Sextets(data) == values <==> SpareBitsZero(values)
    decreases |values|
  {
    DataAccepted(values);
    if |values| >= 4 {
      var tail := values[4..];
      var rest := DecodeFrom(Padded(tail), 0, 0, 0);
      assert values == [values[0], values[1], values[2], values[3]] + tail;
      DecodePaddedGroup(values[0], values[1], values[2], values[3], tail);
      EncodeUndoesDecode(tail, rest.data);
      RegroupWholeGroup(values, data, rest.data);
    } else {
      ShortValues(values);
      if |values| == 2 {
        RegroupTwo(values[0], values[1], values, data);
      } else if |values| == 3 {
        RegroupThree(values[0], values[1], values[2], values, data);
      }
    }
  }

  lemma RegroupTwo(a: Sextet, b: Sextet, values: seq<Sextet>, data: seq<Byte>)
    requires values == [a, b] && data == [Byte1(a, b)]
    ensures Sextets(data) == values <==> SpareBitsZero(values)
  {
    var x := data[0];
    var last := Second(x, 0);
    SpareBitsOfTwo(a, b, x);
    SextetsOfOne(x, a, last);
    assert [a, last] == values <==> last == b;
  }

  lemma SpareBitsOfTwo(a: Sextet, b: Sextet, x: Byte)
    requires x == Byte1(a, b)
    ensures First(x) == a && (Second(x, 0) == b <==> b % 16 == 0)
  {
  }

  lemma SextetsOfOne(x: Byte, a: Sextet, b: Sextet)
    requires First(x) == a && Second(x, 0) == b
    ensures Sextets([x]) == [a, b]
  {
  }

  lemma RegroupThree(a: Sextet, b: Sextet, c: Sextet, values: seq<Sextet>, data: seq<Byte>)
    requires values == [a, b, c] && data == [Byte1(a, b), Byte2(b, c)]
    ensures Sextets(data) == values <==> SpareBitsZero(values)
  {
    RegroupSextets(a, b, c, 0);
    assert Sextets(data) == [a, b, Third(Byte2(b, c), 0)];
  }

  lemma SextetsOfGroup(x: Byte, y: Byte, z: Byte, rest: seq<Byte>)
    ensures Sextets([x] + ([y] + ([z] + rest))) == [First(x), Second(x, y), Third(y, z), Fourth(z)] + Sextets(rest)
  {
    var data := [x] + ([y] + ([z] + rest));
    assert data[3..] == rest;
  }

  lemma RegroupWholeGroup(values: seq<Sextet>, data: seq<Byte>, rest: seq<Byte>)
    requires |values| >= 4
    requires data == [Byte1(values[0], values[1])] +
             ([Byte2(values[1], values[2])] + ([Byte3(values[2], values[3])] + rest))
    ensures Sextets(data) == values <==> Sextets(rest) == values[4..]
    ensures SpareBitsZero(values) <==> SpareBitsZero(values[4..])
  {
    var a, b, c, d := values[0], values[1], values[2], values[3];
    RegroupSextets(a, b, c, d);
    SextetsOfGroup(Byte1(a, b), Byte2(b, c), Byte3(c, d), rest);
    SameBehind([a, b, c, d], Sextets(rest), values);
    SpareBitsBehind(values);
  }

  lemma SpareBitsBehind(values: seq<Sextet>)
    requires |values| >= 4
    ensures SpareBitsZero(values) <==> SpareBitsZero(values[4..])
  {
    var rest := values[4..];
    assert |rest| % 4 == |values| % 4;
    assert |rest| > 0 ==> rest[|rest| - 1] == values[|values| - 1];
  }

  lemma SameBehind(front: seq<Sextet>, rest: seq<Sextet>, all: seq<Sextet>)
    requires |front| <= |all| && front == all[..|front|]
    ensures front + rest == all <==> rest == all[|front|..]
  {
    assert all == front + all[|front|..];
    assert (front + rest)[|front|..] == rest;
  }

  function Values(text: string): (values: seq<Sextet>)
    requires AllData(text)
    ensures |values| == |text| && forall k :: 0 <= k < |text| ==> Data(values[k]) == Classify(text[k])
  {
    if |text| == 0 then []
    else
      assert forall k :: 0 <= k < |text| - 1 ==> text[1..][k] == text[k + 1];
      [Classify(text[0]).value] + Values(text[1..])
  }

  lemma TextOfValues(text: string)
    requires AllData(text)
    ensures Chars(Values(text)) == text
  {
    forall k | 0 <= k < |text| ensures Chars(Values(text))[k] == text[k] {
      CharRoundTrip(text[k]);
    }
  }

  /** Which texts without padding characters `_b64decode` reads, and which of them `_b64encode` gives back. */
  lemma DecodeThenEncode(text: string)
    requires AllData(text) && text != ""
    ensures B64Decode(text) == Malformed <==> |text| % 4 == 1
    ensures B64Decode(text).Bytes? ==> (B64Encode(B64Decode(text).data) == text <==> SpareBitsZero(Values(text)))
  {
    var values := Values(text);
    TextOfValues(text);
    PaddedText(values);
    DataAccepted(values);
    assert B64Decode(text) == UrlsafeDecode(text + Padding(PaddingCount(|text|)));
    if B64Decode(text).Bytes? {
      var data := B64Decode(text).data;
      EncodeUndoesDecode(values, data);
      EncodedIsData(data);
      CharsInjective(Sextets(data), values);
    }
  }

  lemma CharsInjective(a: seq<Sextet>, b: seq<Sextet>)
    ensures Chars(a) == Chars(b) <==> a == b
  {
    if Chars(a) == Chars(b) {
      CharsAreData(a);
      CharsAreData(b);
      assert forall k :: 0 <= k < |a| ==> DataSymbols(a)[k] == DataSymbols(b)[k];
    }
  }

  // ----- The alphabet

  /** A test vector in the manner of section 10 of RFC 4648. */
  lemma Vector(data: seq<Byte>)
    requires |data| == 3 && data[0] == 0x66 && data[1] == 0x6f && data[2] == 0x6f
    ensures B64Encode(data) == ['Z', 'm', '9', 'v']
  {
    ThreeEncoded(data[0], data[1], data[2]);
    assert data == [data[0], data[1], data[2]];
  }

  /** One without padding, and with the end of the alphabet. */
  lemma ShortVector(data: seq<Byte>)
    requires |data| == 2 && data[0] == 0xfb && data[1] == 0xff
    ensures B64Encode(data) == ['-', '_', '8']
  {
    TwoEncoded(data[0], data[1]);
    assert data == [data[0], data[1]];
  }

  lemma TwoEncoded(x: Byte, y: Byte)
    ensures B64Encode([x, y]) == [EncodeSextet(x / 4), EncodeSextet(x % 4 * 16 + y / 16), EncodeSextet(y % 16 * 4)]
  {
    EncodedIsData([x, y]);
  }

  lemma ThreeEncoded(x: Byte, y: Byte, z: Byte)
    ensures B64Encode([x, y, z]) ==
            [EncodeSextet(x / 4), EncodeSextet(x % 4 * 16 + y / 16),
             EncodeSextet(y % 16 * 4 + z / 64), EncodeSextet(z % 64)]
  {
    EncodedIsData([x, y, z]);
    assert [x, y, z][3..] == [];
  }

  /** Anything but letters, digits, hyphens, underscores and equals signs is refused. */
  lemma OthersAreRefused(text: string, k: nat)
    requires k < |text| && var c := text[k];
             !('A' <= c <= 'Z') && !('a' <= c <= 'z') && !('0' <= c <= '9') && c != '-' && c != '_' && c != '='
    ensures B64Decode(text) == Malformed
  {
    assert Classify(text[k]) == Unknown;
  }
}
