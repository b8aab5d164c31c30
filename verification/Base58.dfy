/** The 58-letter alphabet as a table, and the arithmetic that reads it in both directions. */
module Base58Alphabet {
  import opened Wrappers

  const ALPHABET_LOW := "123456789ABCDEFGHJKLMNPQRSTUV"
  const ALPHABET_HIGH := "WXYZabcdefghijkmnopqrstuvwxyz"
  const ALPHABET := ALPHABET_LOW + ALPHABET_HIGH

  /** The alphabet runs through six ranges of consecutive characters: no 0, O, I or l. */
  function Letter(d: nat): (c: char)
    requires d < 58
    ensures DigitOf(c) == d
  {
    if d < 9 then '1' + d as char
    else if d < 17 then 'A' + (d - 9) as char
    else if d < 22 then 'J' + (d - 17) as char
    else if d < 33 then 'P' + (d - 22) as char
    else if d < 44 then 'a' + (d - 33) as char
    else 'm' + (d - 44) as char
  }

  function DigitOf(c: char): (d: int)
    ensures -1 <= d < 58
  {
    if '1' <= c <= '9' then (c - '1') as int
    else if 'A' <= c <= 'H' then (c - 'A') as int + 9
    else if 'J' <= c <= 'N' then (c - 'J') as int + 17
    else if 'P' <= c <= 'Z' then (c - 'P') as int + 22
    else if 'a' <= c <= 'k' then (c - 'a') as int + 33
    else if 'm' <= c <= 'z' then (c - 'm') as int + 44
    else -1
  }

  lemma LetterOfDigitOf(c: char)
    requires DigitOf(c) != -1
    ensures Letter(DigitOf(c)) == c
  {
  }

  /** The arithmetic agrees with the table at every position... */
  lemma LetterIsTable(d: nat)
    requires d < 58
    ensures Letter(d) == ALPHABET[d]
  {
    if d < 29 {
      assert ALPHABET[d] == ALPHABET_LOW[d];
    } else {
      assert ALPHABET[d] == ALPHABET_HIGH[d - 29];
    }
  }

  /** ...and searching the table for a character gives its digit, or -1. */
  lemma DigitIsIndexOf(c: char)
    ensures DigitOf(c) == IndexOf(ALPHABET, c)
  {
    var d, i := DigitOf(c), IndexOf(ALPHABET, c);
    if d >= 0 {
      LetterOfDigitOf(c);
      LetterIsTable(d);
      assert ALPHABET[d] in ALPHABET;
    }
    if i >= 0 {
      LetterIsTable(i);
    }
  }
}

/** Base58 and Base58Check: the arbitrary-precision loops and why they invert each other. */
module Base58 {
  import opened Numerals
  import opened Wrappers
  import opened Base58Alphabet

  datatype DecodeError = InvalidCharacter(c: char) | TooShort

  datatype Decoded = Decoded(version: Byte, payload: seq<Byte>, checksum: seq<Byte>, checksumValid: bool)

  // ---------------------------------------------------------------- specification

  /** How many elements equal to x the sequence starts with. */
  function Leading<T(==)>(s: seq<T>, x: T): (n: nat)
    ensures n <= |s|
    ensures forall i :: 0 <= i < n ==> s[i] == x
    ensures n < |s| ==> s[n] != x
  {
    if s == [] || s[0] != x then 0 else 1 + Leading(s[1..], x)
  }

  function Ones(n: nat): (s: string)
    ensures |s| == n && forall i :: 0 <= i < n ==> s[i] == '1'
  {
    seq(n, _ => '1')
  }

  predicate Base58Digits(digits: seq<int>) {
    forall i :: 0 <= i < |digits| ==> 0 <= digits[i] < 58
  }

  function Letters(digits: seq<int>): (s: string)
    requires Base58Digits(digits)
    ensures |s| == |digits|
    ensures forall i :: 0 <= i < |s| ==> s[i] == Letter(digits[i])
  {
    seq(|digits|, i requires 0 <= i < |digits| => Letter(digits[i]))
  }

  predicate InAlphabet(s: string) {
    forall i :: 0 <= i < |s| ==> DigitOf(s[i]) != -1
  }

  function Indices(s: string): (ds: seq<int>)
    requires InAlphabet(s)
    ensures |ds| == |s| && Base58Digits(ds)
    ensures forall i :: 0 <= i < |s| ==> ds[i] == DigitOf(s[i])
  {
    seq(|s|, i requires 0 <= i < |s| => DigitOf(s[i]))
  }

  /** big.Int's SetBytes: the number a big-endian byte string stands for. */
  function FromBytes(bytes: seq<Byte>): nat {
    ValueBounds(256, bytes);
    Value(256, bytes)
  }

  function Encode(bytes: seq<Byte>): string {
    Ones(Leading<int>(bytes, 0)) + Letters(Digits(58, FromBytes(bytes)))
  }

  function FirstInvalid(s: string): (c: char)
    requires !InAlphabet(s)
    ensures DigitOf(c) == -1
  {
    if DigitOf(s[0]) == -1 then s[0] else FirstInvalid(s[1..])
  }

  /** The shortest big-endian byte string of the number, after one zero byte for each leading '1'. */
  function DecodedBytes(s: string): (bytes: seq<Byte>)
    requires InAlphabet(s)
  {
    ValueBounds(58, Indices(s));
    Zeros(Leading(s, '1')) + Digits(256, Value(58, Indices(s)))
  }

  function Decode(s: string): Result<seq<Byte>, DecodeError> {
    if InAlphabet(s) then Success(DecodedBytes(s)) else Failure(InvalidCharacter(FirstInvalid(s)))
  }

  function Framed(doubleHash: seq<Byte> -> Digest, version: int, data: seq<Byte>): seq<Byte> {
    var payload := [version % 256] + data;
    payload + doubleHash(payload)[..4]
  }

  function EncodeCheck(doubleHash: seq<Byte> -> Digest, version: int, data: seq<Byte>): string {
    Encode(Framed(doubleHash, version, data))
  }

  function DecodeCheck(doubleHash: seq<Byte> -> Digest, input: string): Result<Decoded, DecodeError> {
    match Decode(input)
    case Failure(e) => Failure(e)
    case Success(bytes) =>
      if |bytes| < 5 then Failure(TooShort)
      else
        var payload, checksum := bytes[..|bytes| - 4], bytes[|bytes| - 4..];
        Success(Decoded(payload[0], payload[1..], checksum, checksum == doubleHash(payload)[..4]))
  }

  // ---------------------------------------------------------------- the loops of the source

  /** Repeated division by 58, prepending one letter a round, then one '1' for each leading zero byte. */
  method Base58Encode(input: seq<Byte>) returns (result: string)
    ensures result == Encode(input)
  {
    hide Digits, Leading, Value, Letters, Ones;
    var leadingZeros := CountLeading<int>(input, 0);
    var value := SetBytes(input);
    result := LettersOf(value);
    ghost var letters := result;
    for i := 0 to leadingZeros
      invariant result == Ones(i) + letters
    {
      OneMore(i, letters);
      result := "1" + result;
    }
  }

  lemma OneMore(n: nat, s: string)
    ensures "1" + (Ones(n) + s) == Ones(n + 1) + s
  {
  }

  method CountLeading<T(==)>(s: seq<T>, x: T) returns (n: nat)
    ensures n == Leading(s, x)
  {
    n := 0;
    while n < |s| && s[n] == x
      invariant n <= |s|
      invariant Leading(s, x) == n + Leading(s[n..], x)
    {
      n := n + 1;
    }
  }

  method SetBytes(input: seq<Byte>) returns (value: nat)
    ensures value == FromBytes(input)
  {
    var v: int := 0;
    for i := 0 to |input|
      invariant v == Value(256, input[..i])
    {
      assert input[..i + 1] == input[..i] + [input[i]];
      ValueSnoc(256, input[..i], input[i]);
      v := v * 256 + input[i];
    }
    assert input[..|input|] == input;
    ValueBounds(256, input);
    value := v;
  }

  method LettersOf(n: nat) returns (result: string)
    ensures result == Letters(Digits(58, n))
  {
    hide *;
    LastDigit(0);
    var value := n;
    result := "";
    ghost var done: seq<int> := [];
    while value > 0
      invariant value >= 0 && Digits(58, n) == Digits(58, value) + done
      invariant Base58Digits(done) && result == Letters(done)
    {
      LastDigit(value);
      LettersCons(value % 58, done);
      result := [Letter(value % 58)] + result;
      done := [value % 58] + done;
      value := value / 58;
    }
    assert Digits(58, n) == done;
  }

  lemma LastDigit(v: nat)
    ensures Base58Digits([]) && Letters([]) == "" && Digits(58, 0) == []
    ensures v > 0 ==> Digits(58, v) == Digits(58, v / 58) + [v % 58]
  {
  }

  lemma LettersCons(d: int, rest: seq<int>)
    requires 0 <= d < 58 && Base58Digits(rest)
    ensures Base58Digits([d] + rest) && Letters([d] + rest) == [Letter(d)] + Letters(rest)
  {
  }

  /** Horner's rule over the letters; the leading '1's come back as zero bytes. */
  method Base58Decode(input: string) returns (r: Result<seq<Byte>, DecodeError>)
    ensures r == Decode(input)
  {
    var leadingZeros := CountLeading(input, '1');
    var stop, value := Horner(input);
    if stop < |input| {
      FirstInvalidIs(input, stop);
      return Failure(InvalidCharacter(input[stop]));
    }
    assert input[..stop] == input;
    ValueBounds(58, Indices(input));
    r := Success(Zeros(leadingZeros) + Digits(256, value));
  }

  /** The value of the letters before the first one outside the alphabet. */
  method Horner(input: string) returns (stop: nat, value: int)
    ensures stop <= |input| && InAlphabet(input[..stop])
    ensures stop < |input| ==> DigitOf(input[stop]) == -1
    ensures value == Value(58, Indices(input[..stop]))
  {
    stop, value := 0, 0;
    while stop < |input|
      invariant stop <= |input| && InAlphabet(input[..stop])
      invariant value == Value(58, Indices(input[..stop]))
    {
      var index := DigitOf(input[stop]);
      if index == -1 {
        return;
      }
      IndicesSnoc(input, stop);
      value := value * 58 + index;
      stop := stop + 1;
    }
  }

  lemma IndicesSnoc(s: string, i: nat)
    requires i < |s| && InAlphabet(s[..i]) && DigitOf(s[i]) != -1
    ensures InAlphabet(s[..i + 1])
    ensures Value(58, Indices(s[..i + 1])) == Value(58, Indices(s[..i])) * 58 + DigitOf(s[i])
  {
    assert forall k :: 0 <= k < i + 1 ==> s[..i + 1][k] == (s[..i] + [s[i]])[k];
    assert Indices(s[..i + 1]) == Indices(s[..i]) + [DigitOf(s[i])];
    ValueSnoc(58, Indices(s[..i]), DigitOf(s[i]));
  }

  lemma {:induction false} FirstInvalidIs(s: string, i: nat)
    requires i < |s| && InAlphabet(s[..i]) && DigitOf(s[i]) == -1
    ensures !InAlphabet(s) && FirstInvalid(s) == s[i]
  {
    if i > 0 {
      assert s[0] == s[..i][0];
      assert s[1..][..i - 1] == s[..i][1..];
      FirstInvalidIs(s[1..], i - 1);
    }
  }

  // ---------------------------------------------------------------- letters and leading zeros

  lemma IndicesOfEncoding(zeros: nat, digits: seq<int>)
    requires Base58Digits(digits)
    ensures var s := Ones(zeros) + Letters(digits);
            InAlphabet(s) && Indices(s) == Zeros(zeros) + digits
  {
    var s := Ones(zeros) + Letters(digits);
    assert DigitOf('1') == 0;
    forall i | 0 <= i < |s| ensures DigitOf(s[i]) == (Zeros(zeros) + digits)[i] {
    }
  }

  lemma {:induction false} LeadingSplit<T>(s: seq<T>, x: T, n: nat)
    requires n <= |s| && (forall i :: 0 <= i < n ==> s[i] == x)
    requires n < |s| ==> s[n] != x
    ensures Leading(s, x) == n
  {
    if n > 0 {
      LeadingSplit(s[1..], x, n - 1);
    }
  }

  // ---------------------------------------------------------------- the two round trips

  lemma BytesOfNumber(zeros: nat, rest: seq<int>)
    requires forall i :: 0 <= i < |rest| ==> 0 <= rest[i] < 256
    requires rest != [] ==> rest[0] != 0
    ensures Value(256, Zeros(zeros) + rest) >= 0
    ensures Digits(256, Value(256, Zeros(zeros) + rest)) == rest
  {
    LeadingZeros(256, zeros, rest);
    DigitsOfValue(256, rest);
  }

  lemma NumberOfDigits(base: nat, zeros: nat, v: nat)
    requires base >= 2
    ensures Value(base, Zeros(zeros) + Digits(base, v)) == v
  {
    LeadingZeros(base, zeros, Digits(base, v));
    ValueOfDigits(base, v);
  }

  lemma ReadEncoding(zeros: nat, v: nat)
    ensures var s := Ones(zeros) + Letters(Digits(58, v));
            InAlphabet(s) && Value(58, Indices(s)) == v && Leading(s, '1') == zeros
  {
    var digits := Digits(58, v);
    IndicesOfEncoding(zeros, digits);
    NumberOfDigits(58, zeros, v);
    var s := Ones(zeros) + Letters(digits);
    if v > 0 {
      assert s[zeros] == Letter(digits[0]) && DigitOf(Letter(digits[0])) != DigitOf('1');
    }
    LeadingSplit(s, '1', zeros);
  }

  lemma {:induction false} LeadingRun<T>(s: seq<T>, x: T)
    ensures var n := Leading(s, x);
            && n <= |s| && (forall i :: 0 <= i < n ==> s[i] == x) && (n < |s| ==> s[n] != x)
  {
    if s != [] && s[0] == x {
      LeadingRun(s[1..], x);
    }
  }

  lemma ZeroFront(bytes: seq<int>, n: nat)
    requires n <= |bytes| && forall i :: 0 <= i < n ==> bytes[i] == 0
    ensures bytes == Zeros(n) + bytes[n..]
  {
    assert bytes[..n] == Zeros(n);
  }

  lemma SplitZeros(bytes: seq<Byte>)
    ensures var n := Leading<int>(bytes, 0);
            && n <= |bytes| && bytes == Zeros(n) + bytes[n..] && (bytes[n..] != [] ==> bytes[n..][0] != 0)
  {
    hide *;
    LeadingRun<int>(bytes, 0);
    ZeroFront(bytes, Leading<int>(bytes, 0));
  }

  /** Decoding inverts encoding on every byte string, leading zero bytes included. */
  lemma DecodeEncode(bytes: seq<Byte>)
    ensures Decode(Encode(bytes)) == Success(bytes)
  {
    hide Leading, Value, Digits;
    var n := Leading<int>(bytes, 0);
    ReadEncoding(n, FromBytes(bytes));
    SplitZeros(bytes);
    BytesOfNumber(n, bytes[n..]);
  }

  /** Letters of digits without a leading zero, read as a number and written again. */
  lemma RewriteLetters(s: string)
    requires InAlphabet(s)
    requires s != "" ==> s[0] != '1'
    ensures Value(58, Indices(s)) >= 0
    ensures Letters(Digits(58, Value(58, Indices(s)))) == s
  {
    var indices := Indices(s);
    forall i | 0 <= i < |s| ensures Letter(indices[i]) == s[i] {
      LetterOfDigitOf(s[i]);
    }
    DigitsOfValue(58, indices);
  }

  /** Encoding inverts decoding on every string over the alphabet; no other string decodes at all. */
  lemma EncodeDecode(s: string)
    ensures Decode(s).Success? <==> InAlphabet(s)
    ensures InAlphabet(s) ==> Encode(Decode(s).value) == s
  {
    if InAlphabet(s) {
      EncodeOfDecoded(s);
    }
  }

  lemma SplitOnes(s: string)
    requires InAlphabet(s)
    ensures var n := Leading(s, '1');
            && n <= |s| && s == Ones(n) + s[n..] && (s[n..] != "" ==> s[n..][0] != '1')
            && InAlphabet(s[n..]) && Indices(s) == Zeros(n) + Indices(s[n..])
  {
    hide *;
    var n := Leading(s, '1');
    LeadingRun(s, '1');
    var rest := s[n..];
    assert s == Ones(n) + rest;
    SuffixDigits(s, n);
    assert Indices(s) == Zeros(n) + Indices(rest);
  }

  lemma SuffixDigits(s: string, n: nat)
    requires n <= |s| && InAlphabet(s)
    ensures InAlphabet(s[n..]) && DigitOf('1') == 0
  {
  }

  lemma EncodeOfDecoded(s: string)
    requires InAlphabet(s)
    ensures Encode(DecodedBytes(s)) == s
  {
    hide Leading, Value, Digits;
    var n := Leading(s, '1');
    SplitOnes(s);
    RewriteLetters(s[n..]);
    LeadingZeros(58, n, Indices(s[n..]));
    NumberOfDigits(256, n, Value(58, Indices(s)));
    LeadingSplit<int>(DecodedBytes(s), 0, n);
  }

  /** Different byte strings have different encodings. */
  lemma EncodeInjective(a: seq<Byte>, b: seq<Byte>)
    requires Encode(a) == Encode(b)
    ensures a == b
  {
    DecodeEncode(a);
    DecodeEncode(b);
  }

  /** What EncodeBase58Check writes, DecodeBase58Check reads back with a valid checksum. The version
      comes back unchanged exactly when it fits the single byte it is truncated to. */
  lemma DecodeCheckOfEncodeCheck(doubleHash: seq<Byte> -> Digest, version: int, data: seq<Byte>)
    ensures var r := DecodeCheck(doubleHash, EncodeCheck(doubleHash, version, data));
            && r.Success?
            && r.value.payload == data
            && r.value.checksumValid
            && r.value.checksum == doubleHash([version % 256] + data)[..4]
            && (r.value.version == version <==> 0 <= version < 256)
  {
    hide Encode, Decode;
    var payload: seq<Byte> := [version % 256] + data;
    var bytes := Framed(doubleHash, version, data);
    DecodeEncode(bytes);
    assert bytes[..|bytes| - 4] == payload;
    assert payload[1..] == data;
  }

  lemma ReframeDecoded(doubleHash: seq<Byte> -> Digest, bytes: seq<Byte>)
    requires |bytes| >= 5 && bytes[|bytes| - 4..] == doubleHash(bytes[..|bytes| - 4])[..4]
    ensures Framed(doubleHash, bytes[0], bytes[1..|bytes| - 4]) == bytes
  {
    assert [bytes[0]] + bytes[1..|bytes| - 4] == bytes[..|bytes| - 4];
  }

  lemma ReencodeDecoded(doubleHash: seq<Byte> -> Digest, s: string)
    requires var r := DecodeCheck(doubleHash, s); r.Success? && r.value.checksumValid
    ensures var r := DecodeCheck(doubleHash, s).value;
            EncodeCheck(doubleHash, r.version, r.payload) == s
  {
    EncodeDecode(s);
    var bytes := Decode(s).value;
    ReframeDecoded(doubleHash, bytes);
    assert bytes[..|bytes| - 4][1..] == bytes[1..|bytes| - 4];
  }

  /** The strings whose checksum is reported valid are exactly the ones EncodeBase58Check produces. */
  lemma ChecksumValidIffEncoded(doubleHash: seq<Byte> -> Digest, s: string)
    ensures (DecodeCheck(doubleHash, s).Success? && DecodeCheck(doubleHash, s).value.checksumValid)
            <==> exists version: Byte, data: seq<Byte> :: EncodeCheck(doubleHash, version, data) == s
  {
    var r := DecodeCheck(doubleHash, s);
    if r.Success? && r.value.checksumValid {
      ReencodeDecoded(doubleHash, s);
      assert EncodeCheck(doubleHash, r.value.version, r.value.payload) == s;
    } else if version: Byte, data: seq<Byte> :| EncodeCheck(doubleHash, version, data) == s {
      DecodeCheckOfEncodeCheck(doubleHash, version, data);
    }
  }
}
