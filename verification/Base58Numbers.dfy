/** Base58 by place values: a text encodes a byte string exactly when both are the same number behind as many zeros. */
module Base58Numbers {
  import opened Numerals
  import opened Wrappers
  import opened Base58Alphabet
  import opened Base58

  function Power(base: nat, k: nat): nat { if k == 0 then 1 else base * Power(base, k - 1) }

  /** The most significant digit counts base^(length - 1), the last one counts 1. */
  function Number(base: nat, ds: seq<int>): int {
    if ds == [] then 0 else ds[0] * Power(base, |ds| - 1) + Number(base, ds[1..])
  }

  /** The 58 signs: digits and letters in order, without 0, O, I and l. */
  function Sign(d: int): char
    requires 0 <= d < 58
  {
    if d < 29 then "123456789ABCDEFGHJKLMNPQRSTUV"[d] else "WXYZabcdefghijkmnopqrstuvwxyz"[d - 29]
  }

  predicate Spells(s: string, ds: seq<int>) {
    |s| == |ds| && forall i :: 0 <= i < |s| ==> 0 <= ds[i] < 58 && s[i] == Sign(ds[i])
  }

  lemma {:induction false} FirstDigit(base: nat, d: int, rest: seq<int>)
    ensures Value(base, [d] + rest) == d * Power(base, |rest|) + Value(base, rest)
  {
    if rest == [] {
      assert [d] + [] == [] + [d];
      ValueSnoc(base, [], d);
    } else {
      var n := |rest| - 1;
      FirstDigit(base, d, rest[..n]);
      assert rest == rest[..n] + [rest[n]];
      MoreDigits(base, d, rest[..n], rest[n]);
    }
  }

  lemma MoreDigits(base: nat, d: int, front: seq<int>, last: int)
    requires Value(base, [d] + front) == d * Power(base, |front|) + Value(base, front)
    ensures Value(base, [d] + (front + [last])) == d * Power(base, |front| + 1) + Value(base, front + [last])
  {
    var p := Power(base, |front|);
    assert Power(base, |front| + 1) == base * p;
    hide Value, Power;
    assert [d] + (front + [last]) == ([d] + front) + [last];
    ValueSnoc(base, [d] + front, last);
    ValueSnoc(base, front, last);
    Distribute(d, p, Value(base, front), Value(base, [d] + front), base);
  }

  lemma Distribute(d: int, p: int, v: int, x: int, base: int)
    requires x == d * p + v
    ensures x * base == d * (base * p) + v * base
  {
  }

  lemma {:induction false} NumberIsValue(base: nat, ds: seq<int>)
    ensures Number(base, ds) == Value(base, ds)
  {
    if ds != [] {
      NumberIsValue(base, ds[1..]);
      FirstDigit(base, ds[0], ds[1..]);
      assert ds == [ds[0]] + ds[1..];
    }
  }

  lemma SignIs(d: int)
    requires 0 <= d < 58
    ensures Letter(d) == Sign(d) && DigitOf(Sign(d)) == d
  {
    LetterIsTable(d);
  }

  lemma SpelledIndices(s: string, ds: seq<int>)
    requires Spells(s, ds)
    ensures InAlphabet(s) && Indices(s) == ds && Leading(s, '1') == Leading<int>(ds, 0)
  {
    hide Sign, Leading;
    forall i | 0 <= i < |s| ensures DigitOf(s[i]) == ds[i] {
      SignIs(ds[i]);
    }
    assert Indices(s) == ds;
    SignIs(0);
    var n := Leading<int>(ds, 0);
    LeadingRun<int>(ds, 0);
    assert DigitOf('1') == 0;
    forall i | 0 <= i < n ensures s[i] == '1' {
      assert DigitOf(s[i]) == 0;
      LetterOfDigitOf(s[i]);
      LetterOfDigitOf('1');
    }
    LeadingSplit(s, '1', n);
  }

  /** A text is the encoding of a byte string exactly when it starts with as many zero digits as the bytes with zero
      bytes, and both stand for the same number. */
  lemma EncodeIff(bytes: seq<Byte>, s: string, ds: seq<int>)
    requires Spells(s, ds)
    ensures Encode(bytes) == s
       <==> Leading<int>(ds, 0) == Leading<int>(bytes, 0) && Number(58, ds) == Number(256, bytes)
  {
    hide Leading, Value, Digits, Number, Spells;
    SpelledIndices(s, ds);
    NumberIsValue(58, ds);
    NumberIsValue(256, bytes);
    var n := Leading<int>(bytes, 0);
    ReadEncoding(n, FromBytes(bytes));
    if Leading<int>(ds, 0) == n && Number(58, ds) == Number(256, bytes) {
      SplitZeros(bytes);
      BytesOfNumber(n, bytes[n..]);
      assert DecodedBytes(s) == bytes;
      EncodeDecode(s);
    }
  }

  /** Every encoding is spelled in the 58 signs, and a text that is not has no decoding. */
  lemma DecodesIffSpelled(s: string)
    ensures Decode(s).Success? <==> exists ds :: Spells(s, ds)
  {
    if Decode(s).Success? {
      var ds := Indices(s);
      forall i | 0 <= i < |s| ensures s[i] == Sign(ds[i]) {
        LetterOfDigitOf(s[i]);
        SignIs(ds[i]);
      }
      assert Spells(s, ds);
    }
    if ds :| Spells(s, ds) {
      SpelledIndices(s, ds);
    }
  }

  /** Base58Check is the text of the version byte, the data and four bytes of the hash of both, in this order... */
  lemma EncodeCheckIs(doubleHash: seq<Byte> -> Digest, version: int, data: seq<Byte>)
    ensures var v: Byte := version % 256;
            EncodeCheck(doubleHash, version, data) == Encode([v] + data + doubleHash([v] + data)[..4])
  {
  }

  /** ...and is taken apart in that order, from five bytes on. */
  lemma DecodeCheckIs(doubleHash: seq<Byte> -> Digest, bytes: seq<Byte>)
    ensures |bytes| < 5 ==> DecodeCheck(doubleHash, Encode(bytes)) == Failure(TooShort)
    ensures |bytes| >= 5 ==>
      var end := |bytes| - 4;
      DecodeCheck(doubleHash, Encode(bytes))
        == Success(Decoded(bytes[0], bytes[1..end], bytes[end..], bytes[end..] == doubleHash(bytes[..end])[..4]))
  {
    hide Encode, Decode;
    DecodeEncode(bytes);
    if |bytes| >= 5 {
      assert bytes[..|bytes| - 4][1..] == bytes[1..|bytes| - 4];
    }
  }

  /** 0000287fb4cd in hexadecimal is 11233QC4. */
  lemma KnownText()
    ensures Encode([0, 0, 0x28, 0x7f, 0xb4, 0xcd]) == "11233QC4"
  {
    hide *;
    var bytes: seq<Byte>, ds := [0, 0, 0x28, 0x7f, 0xb4, 0xcd], [0, 0, 1, 2, 2, 23, 11, 3];
    NumberIsValue(256, bytes);
    NumberIsValue(58, ds);
    FourDigits(256, 0x28, 0x7f, 0xb4, 0xcd);
    FourDigits(58, 0, 0, 1, 2);
    FourMoreDigits(58, [0, 0, 1, 2], 2, 23, 11, 3);
    assert bytes == Zeros(2) + [0x28, 0x7f, 0xb4, 0xcd] && ds == [0, 0, 1, 2] + [2, 23, 11, 3];
    LeadingZeros(256, 2, [0x28, 0x7f, 0xb4, 0xcd]);
    LeadingSplit<int>(bytes, 0, 2);
    LeadingSplit<int>(ds, 0, 2);
    KnownSpelling();
    EncodeIff(bytes, "11233QC4", ds);
  }

  lemma KnownSpelling()
    ensures Spells("11233QC4", [0, 0, 1, 2, 2, 23, 11, 3])
  {
  }

  lemma FourMoreDigits(base: nat, high: seq<int>, a: int, b: int, c: int, d: int)
    ensures Value(base, high + [a, b, c, d])
         == (((Value(base, high) * base + a) * base + b) * base + c) * base + d
  {
    hide Value;
    ValueSnoc(base, high, a);
    ValueSnoc(base, high + [a], b);
    ValueSnoc(base, high + [a] + [b], c);
    ValueSnoc(base, high + [a] + [b] + [c], d);
    assert high + [a, b, c, d] == high + [a] + [b] + [c] + [d];
  }

  lemma FourDigits(base: nat, a: int, b: int, c: int, d: int)
    ensures Value(base, [a, b, c, d]) == ((a * base + b) * base + c) * base + d
  {
    FourMoreDigits(base, [], a, b, c, d);
    assert [] + [a, b, c, d] == [a, b, c, d];
  }
}
