/** The line in which a password hash is stored: `scrypt$n$r$p$salt$key`. */
module PasswordCodec {
  import opened Text
  import opened Numerals
  import opened Base64Url

  const ALGORITHM_TAG := "scrypt"
  const FIELD_SEPARATOR := '$'

  // ----- Integers as Python prints and reads them

  function PrintInt(n: int): string {
    if n < 0 then "-" + Decimal(-n) else Decimal(n)
  }

  datatype Number = Number(value: int) | NotANumber

  predicate IsDigit(c: char) {
    '0' <= c <= '9'
  }

  /** Digits, with single underscores allowed between them. */
  function ReadDigits(s: string): Number
    decreases |s|
  {
    if |s| == 0 || !IsDigit(s[|s| - 1]) then NotANumber
    else
      var d := s[|s| - 1] as int - '0' as int;
      if |s| == 1 then Number(d)
      else
        var front := if s[|s| - 2] == '_' then s[..|s| - 2] else s[..|s| - 1];
        match ReadDigits(front)
        case Number(v) => Number(10 * v + d)
        case NotANumber => NotANumber
  }

  /** Python's `int` of a text: outer white space and one sign are allowed. */
  function ReadInt(text: string): Number {
    ReadSigned(Strip(text))
  }

  function ReadSigned(s: string): Number {
    if |s| > 0 && s[0] == '-' then
      match ReadDigits(s[1..])
      case Number(v) => Number(-v)
      case NotANumber => NotANumber
    else ReadDigits(if |s| > 0 && s[0] == '+' then s[1..] else s)
  }

  predicate AllDigits(s: string) {
    forall k :: 0 <= k < |s| ==> IsDigit(s[k])
  }

  lemma {:induction false} DecimalReads(n: nat)
    ensures AllDigits(Decimal(n)) && ReadDigits(Decimal(n)) == Number(n)
  {
    if n >= 10 {
      DecimalReads(n / 10);
      var s := Decimal(n);
      assert s[..|s| - 1] == Decimal(n / 10);
      assert IsDigit(Decimal(n / 10)[|Decimal(n / 10)| - 1]);
    }
  }

  lemma StripsNothing(s: string)
    requires |s| > 0 && !IsSpace(s[0]) && !IsSpace(s[|s| - 1])
    ensures Strip(s) == s
  {
  }

  /** Every integer that is printed is read back. */
  lemma IntRoundTrip(n: int)
    ensures ReadInt(PrintInt(n)) == Number(n) && FIELD_SEPARATOR !in PrintInt(n)
  {
    var digits := Decimal(if n < 0 then -n else n);
    DecimalReads(if n < 0 then -n else n);
    var s := PrintInt(n);
    assert IsDigit(digits[0]) && IsDigit(digits[|digits| - 1]);
    StripsNothing(s);
    if n < 0 {
      assert s[1..] == digits;
    }
  }

  /** A numeral as the printer writes it: digits only, and a zero in front only if it is alone. */
  predicate IsPlainNumeral(s: string) {
    |s| > 0 && AllDigits(s) && (|s| > 1 ==> s[0] != '0')
  }

  lemma {:induction false} PlainNumeralValue(s: string)
    requires IsPlainNumeral(s)
    ensures ReadDigits(s).Number? && ReadDigits(s).value >= 0 && Decimal(ReadDigits(s).value) == s
    ensures |s| > 1 ==> ReadDigits(s).value > 0
    decreases |s|
  {
    if |s| > 1 {
      var front := s[..|s| - 1];
      PlainNumeralValue(front);
      assert IsDigit(s[|s| - 2]);
      var v, d := ReadDigits(front).value, s[|s| - 1] as int - '0' as int;
      assert v > 0 by {
        if |front| == 1 {
          assert front == [s[0]];
        }
      }
      assert (10 * v + d) / 10 == v && (10 * v + d) % 10 == d;
      assert s == front + [s[|s| - 1]];
    } else {
      assert s == [s[0]];
    }
  }

  lemma {:induction false} DecimalIsPlain(n: nat)
    ensures IsPlainNumeral(Decimal(n)) && (n > 0 ==> Decimal(n)[0] != '0')
  {
    if n >= 10 {
      DecimalIsPlain(n / 10);
    }
  }

  /**
   * An integer as the printer writes it: a plain numeral, and a minus sign in front only of a number that is not zero.
   */
  predicate IsPlainInt(s: string) {
    if |s| > 0 && s[0] == '-' then IsPlainNumeral(s[1..]) && s[1] != '0' else IsPlainNumeral(s)
  }

  lemma PlainIntIsPrinted(s: string)
    requires IsPlainInt(s)
    ensures ReadInt(s).Number? && PrintInt(ReadInt(s).value) == s
  {
    var digits := if s[0] == '-' then s[1..] else s;
    assert IsDigit(digits[0]) && IsDigit(digits[|digits| - 1]) && s[|s| - 1] == digits[|digits| - 1];
    StripsNothing(s);
    PlainNumeralValue(digits);
    var v := ReadDigits(digits).value;
    if s[0] == '-' {
      assert s == "-" + digits;
      assert Decimal(0) == ['0'];
      assert v > 0;
    }
  }

  lemma PrintedIntIsPlain(n: int)
    ensures IsPlainInt(PrintInt(n))
  {
    var digits, s := Decimal(if n < 0 then -n else n), PrintInt(n);
    DecimalIsPlain(if n < 0 then -n else n);
    if n < 0 {
      assert s[1..] == digits;
    } else {
      assert IsDigit(s[0]);
    }
  }

  /** Reading a number and printing it gives the text back exactly when it is written as the printer does. */
  lemma ReadThenPrint(s: string)
    requires ReadInt(s).Number?
    ensures PrintInt(ReadInt(s).value) == s <==> IsPlainInt(s)
  {
    PrintedIntIsPlain(ReadInt(s).value);
    if IsPlainInt(s) {
      PlainIntIsPrinted(s);
    }
  }

  lemma ReadPositiveThenPrint(s: string)
    requires ReadInt(s).Number? && ReadInt(s).value > 0
    ensures PrintInt(ReadInt(s).value) == s <==> IsPlainNumeral(s)
  {
    ReadThenPrint(s);
    DecimalIsPlain(ReadInt(s).value);
    assert IsPlainNumeral(s) ==> IsDigit(s[0]);
  }

  /** Digits, with an underscore allowed wherever it stands between two of them. */
  ghost predicate IsNumeral(s: string) {
    && |s| > 0 && '0' <= s[0] <= '9' && '0' <= s[|s| - 1] <= '9'
    && forall k :: 0 < k < |s| - 1 ==> IsInNumeral(s, k)
  }

  predicate IsInNumeral(s: string, k: nat)
    requires 0 < k < |s| - 1
  {
    '0' <= s[k] <= '9' || (s[k] == '_' && s[k - 1] != '_' && s[k + 1] != '_')
  }

  lemma {:induction false} ReadsNumeralIff(s: string)
    ensures ReadDigits(s).Number? <==> IsNumeral(s)
    ensures ReadDigits(s).Number? ==> ReadDigits(s).value >= 0
    decreases |s|
  {
    if |s| > 1 && IsDigit(s[|s| - 1]) {
      var n := if s[|s| - 2] == '_' then 2 else 1;
      ReadsNumeralIff(s[..|s| - n]);
      ShorterNumeral(s, s[..|s| - n], n);
    }
  }

  lemma ShorterNumeral(s: string, front: string, n: nat)
    requires |s| > 1 && IsDigit(s[|s| - 1]) && n == (if s[|s| - 2] == '_' then 2 else 1) && front == s[..|s| - n]
    ensures IsNumeral(s) <==> IsNumeral(front)
  {
    if IsNumeral(s) {
      assert n == 2 ==> |s| > 2 && IsInNumeral(s, |s| - 2);
      assert |s| - n > 1 ==> IsInNumeral(s, |s| - n - 1);
      forall k | 0 < k < |front| - 1 ensures IsInNumeral(front, k) {
        assert IsInNumeral(s, k);
      }
    }
    if IsNumeral(front) {
      forall k | 0 < k < |s| - 1 ensures IsInNumeral(s, k) {
        assert k < |front| - 1 ==> IsInNumeral(front, k);
      }
    }
  }

  /** A text is read as an integer exactly when it is a numeral, with one sign at most and white space around it. */
  lemma ReadsIntegerIff(text: string)
    ensures ReadInt(text).Number? <==> exists lead, sign, digits, trail ::
              IsWritten(text, lead, sign, digits, trail) && (sign == "" || sign == "+" || sign == "-")
    ensures ReadInt(text).Number? && ReadInt(text).value < 0 ==> |Strip(text)| > 0 && Strip(text)[0] == '-'
  {
    var lead, core, trail := StripParts(text);
    if ReadInt(text).Number? {
      var sign := if |core| > 0 && (core[0] == '-' || core[0] == '+') then core[..1] else "";
      var digits := core[|sign|..];
      ReadsNumeralIff(digits);
      assert core == sign + digits;
      assert IsWritten(text, lead, sign, digits, trail);
    }
    if lead', sign, digits, trail' :| IsWritten(text, lead', sign, digits, trail') &&
                                      (sign == "" || sign == "+" || sign == "-") {
      WrittenIsRead(text, lead', sign, digits, trail');
    }
  }

  ghost predicate IsWritten(text: string, lead: string, sign: string, digits: string, trail: string) {
    text == lead + (sign + digits) + trail && AllSpace(lead) && AllSpace(trail) && IsNumeral(digits)
  }

  lemma WrittenIsRead(text: string, lead: string, sign: string, digits: string, trail: string)
    requires IsWritten(text, lead, sign, digits, trail) && (sign == "" || sign == "+" || sign == "-")
    ensures ReadInt(text).Number?
  {
    SignedIsRead(sign, digits);
    StripIsCore(lead, sign + digits, trail);
  }

  lemma SignedIsRead(sign: string, digits: string)
    requires IsNumeral(digits) && (sign == "" || sign == "+" || sign == "-")
    ensures ReadSigned(sign + digits).Number? && IsCore(sign + digits)
  {
    var core := sign + digits;
    assert core[|core| - 1] == digits[|digits| - 1] && core[|sign|..] == digits;
    assert |sign| > 0 ==> core[0] == sign[0];
    ReadsNumeralIff(digits);
  }

  // ----- The record

  datatype Hash = Hash(n: int, r: int, p: int, salt: seq<Byte>, key: seq<Byte>)

  datatype Error = WrongFieldCount | UnsupportedTag | NotInteger | NotPositive | BadBase64

  datatype Result<T> = Ok(value: T) | Err(error: Error)

  /** `_serialize`. */
  function Serialize(h: Hash): string {
    Join([ALGORITHM_TAG, PrintInt(h.n), PrintInt(h.r), PrintInt(h.p), B64Encode(h.salt), B64Encode(h.key)],
      [FIELD_SEPARATOR])
  }

  /** `_deserialize`. */
  function Deserialize(stored: string): Result<Hash> {
    var parts := Split(stored, FIELD_SEPARATOR);
    if |parts| != 6 then Err(WrongFieldCount)
    else if parts[0] != ALGORITHM_TAG then Err(UnsupportedTag)
    else
      var n, r, p := ReadInt(parts[1]), ReadInt(parts[2]), ReadInt(parts[3]);
      if n == NotANumber || r == NotANumber || p == NotANumber then Err(NotInteger)
      else if n.value <= 0 || r.value <= 0 || p.value <= 0 then Err(NotPositive)
      else
        var salt, key := B64Decode(parts[4]), B64Decode(parts[5]);
        if salt == Malformed || key == Malformed then Err(BadBase64)
        else Ok(Hash(n.value, r.value, p.value, salt.data, key.data))
  }

  lemma EncodedHasNoSeparator(data: seq<Byte>)
    ensures FIELD_SEPARATOR !in B64Encode(data)
  {
    EncodedIsData(data);
    SeparatorIsNoData(Sextets(data));
  }

  lemma SeparatorIsNoData(values: seq<Sextet>)
    ensures FIELD_SEPARATOR !in Chars(values)
  {
    CharsAreData(values);
    NotInData(Chars(values), FIELD_SEPARATOR);
  }

  lemma NotInData(s: string, c: char)
    requires AllData(s) && !Classify(c).Data?
    ensures c !in s
  {
  }

  lemma SixFields(a: string, b: string, c: string, d: string, e: string, f: string, sep: char)
    requires sep !in a && sep !in b && sep !in c && sep !in d && sep !in e && sep !in f
    ensures Split(Join([a, b, c, d, e, f], [sep]), sep) == [a, b, c, d, e, f]
  {
    SplitUndoesJoin([a, b, c, d, e, f], sep);
  }

  /** The six fields of a printed record are found again, in order. */
  lemma FieldsOf(h: Hash)
    ensures Split(Serialize(h), FIELD_SEPARATOR) ==
            [ALGORITHM_TAG, PrintInt(h.n), PrintInt(h.r), PrintInt(h.p), B64Encode(h.salt), B64Encode(h.key)]
  {
    IntRoundTrip(h.n);
    IntRoundTrip(h.r);
    IntRoundTrip(h.p);
    EncodedHasNoSeparator(h.salt);
    EncodedHasNoSeparator(h.key);
    assert FIELD_SEPARATOR !in ALGORITHM_TAG;
    SixFields(ALGORITHM_TAG, PrintInt(h.n), PrintInt(h.r), PrintInt(h.p), B64Encode(h.salt), B64Encode(h.key),
      FIELD_SEPARATOR);
  }

  /** What parsing makes of any record that was printed: the record, or the reason why it is refused. */
  lemma RoundTrip(h: Hash)
    ensures Deserialize(Serialize(h)) ==
            if h.n <= 0 || h.r <= 0 || h.p <= 0 then Err(NotPositive)
            else if h.salt == [] || h.key == [] then Err(BadBase64)
            else Ok(h)
  {
    FieldsOf(h);
    IntRoundTrip(h.n);
    IntRoundTrip(h.r);
    IntRoundTrip(h.p);
    B64RoundTrip(h.salt);
    B64RoundTrip(h.key);
  }

  /** The base64 fields as the encoder writes them: data characters only, spare bits zero. */
  predicate IsPlainBase64(s: string) {
    AllData(s) && SpareBitsZero(Values(s))
  }

  lemma PlainBase64(s: string)
    requires B64Decode(s).Bytes?
    ensures B64Encode(B64Decode(s).data) == s <==> IsPlainBase64(s)
  {
    var data := B64Decode(s).data;
    EncodedIsData(data);
    CharsAreData(Sextets(data));
    if AllData(s) {
      DecodeThenEncode(s);
    }
  }

  /** Parsing and printing again gives the stored line back exactly when every field is in the printer's form. */
  lemma ParseThenPrint(stored: string)
    requires Deserialize(stored).Ok?
    ensures var parts := Split(stored, FIELD_SEPARATOR);
            Serialize(Deserialize(stored).value) == stored <==>
            IsPlainNumeral(parts[1]) && IsPlainNumeral(parts[2]) && IsPlainNumeral(parts[3]) &&
            IsPlainBase64(parts[4]) && IsPlainBase64(parts[5])
  {
    var parts, h := Split(stored, FIELD_SEPARATOR), Deserialize(stored).value;
    var printed := [ALGORITHM_TAG, PrintInt(h.n), PrintInt(h.r), PrintInt(h.p), B64Encode(h.salt), B64Encode(h.key)];
    JoinUndoesSplit(stored, FIELD_SEPARATOR);
    FieldsOf(h);
    SameFields(printed, parts);
    ReadPositiveThenPrint(parts[1]);
    ReadPositiveThenPrint(parts[2]);
    ReadPositiveThenPrint(parts[3]);
    PlainBase64(parts[4]);
    PlainBase64(parts[5]);
  }

  lemma SameFields(a: seq<string>, b: seq<string>)
    requires |a| == 6 && |b| == 6
    ensures a == b <==> a[0] == b[0] && a[1] == b[1] && a[2] == b[2] && a[3] == b[3] && a[4] == b[4] && a[5] == b[5]
  {
  }

  // ----- Verification of a password

  const DEFAULT_N := 32768
  const DEFAULT_R := 8
  const DEFAULT_P := 1
  const DERIVED_KEY_LEN := 64

  datatype Derivation = Derived(key: seq<Byte>) | Refused

  /** The key derivation: password, salt, n, r, p and the length asked for. It may refuse its parameters. */
  type Scrypt = (string, seq<Byte>, int, int, int, nat) -> Derivation

  datatype Verdict = Accepted | Rejected | Raised

  /** `hash_password`, with the salt it drew. */
  function HashPassword(scrypt: Scrypt, plaintext: string, salt: seq<Byte>): Derivation {
    scrypt(plaintext, salt, DEFAULT_N, DEFAULT_R, DEFAULT_P, DERIVED_KEY_LEN)
  }

  /** `verify_password`: a malformed line is a rejection; an error of the key derivation is passed on. */
  function VerifyPassword(scrypt: Scrypt, plaintext: string, stored: string): Verdict {
    match Deserialize(stored)
    case Err(_) => Rejected
    case Ok(h) =>
      match scrypt(plaintext, h.salt, h.n, h.r, h.p, |h.key|)
      case Refused => Raised
      case Derived(candidate) => if candidate == h.key then Accepted else Rejected
  }

  /** A stored password accepts exactly the passwords that derive its key, its own among them. */
  lemma StoredPasswordVerifies(scrypt: Scrypt, plaintext: string, attempt: string, salt: seq<Byte>, key: seq<Byte>)
    requires salt != [] && HashPassword(scrypt, plaintext, salt) == Derived(key) && |key| == DERIVED_KEY_LEN
    ensures var stored := Serialize(Hash(DEFAULT_N, DEFAULT_R, DEFAULT_P, salt, key));
            && VerifyPassword(scrypt, plaintext, stored) == Accepted
            && VerifyPassword(scrypt, attempt, stored) ==
               match HashPassword(scrypt, attempt, salt)
               case Refused => Raised
               case Derived(candidate) => if candidate == key then Accepted else Rejected
  {
    RoundTrip(Hash(DEFAULT_N, DEFAULT_R, DEFAULT_P, salt, key));
  }

  /**
   * A stored record of any parameters accepts exactly the attempts that derive its key under its own salt, parameters
   * and key length, whatever the defaults are by now.
   */
  lemma RecordVerifies(scrypt: Scrypt, attempt: string, n: int, r: int, p: int, salt: seq<Byte>, key: seq<Byte>)
    requires n > 0 && r > 0 && p > 0 && salt != [] && key != []
    ensures var verdict := VerifyPassword(scrypt, attempt, Serialize(Hash(n, r, p, salt, key)));
            && (verdict == Accepted <==> scrypt(attempt, salt, n, r, p, |key|) == Derived(key))
            && (verdict == Raised <==> scrypt(attempt, salt, n, r, p, |key|) == Refused)
  {
    RoundTrip(Hash(n, r, p, salt, key));
  }

  /** A new record is made under the default parameters. */
  lemma NewPasswordsUseDefaults(scrypt: Scrypt, plaintext: string, salt: seq<Byte>)
    ensures HashPassword(scrypt, plaintext, salt) == scrypt(plaintext, salt, 32768, 8, 1, 64)
  {
  }

  /**
   * Whatever line is stored: it accepts only if it has six fields, the first the tag and the others positive numbers
   * and data, and the attempt derives the data of the last field under the others.
   */
  lemma AcceptedLine(scrypt: Scrypt, attempt: string, stored: string)
    requires VerifyPassword(scrypt, attempt, stored) == Accepted
    ensures var parts := Split(stored, '$');
            && |parts| == 6 && parts[0] == "scrypt"
            && ReadInt(parts[1]).Number? && ReadInt(parts[2]).Number? && ReadInt(parts[3]).Number?
            && B64Decode(parts[4]).Bytes? && B64Decode(parts[5]).Bytes?
            && var n, r, p := ReadInt(parts[1]).value, ReadInt(parts[2]).value, ReadInt(parts[3]).value;
               var salt, key := B64Decode(parts[4]).data, B64Decode(parts[5]).data;
               n > 0 && r > 0 && p > 0 && scrypt(attempt, salt, n, r, p, |key|) == Derived(key)
  {
  }

  lemma MalformedNeverAccepts(scrypt: Scrypt, attempt: string, stored: string)
    requires Deserialize(stored).Err?
    ensures VerifyPassword(scrypt, attempt, stored) == Rejected
  {
  }
}
