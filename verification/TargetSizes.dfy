/** The text form of a plan's target sizes: decimal numbers joined by commas. */
module TargetSizes {
  import opened Numerals
  import opened Wrappers

  const INT64_MIN := -0x8000_0000_0000_0000
  const INT64_MAX := 0x7FFF_FFFF_FFFF_FFFF

  predicate Int64(v: int) { INT64_MIN <= v <= INT64_MAX }

  // ---------------------------------------------------------------- decimal numbers

  predicate IsDigit(c: char) { '0' <= c <= '9' }

  function DigitChar(d: int): char
    requires 0 <= d < 10
  {
    '0' + d as char
  }

  function DigitValue(c: char): int { c as int - '0' as int }

  function Chars(digits: seq<int>): (s: string)
    requires forall i :: 0 <= i < |digits| ==> 0 <= digits[i] < 10
    ensures |s| == |digits| && forall i :: 0 <= i < |s| ==> s[i] == DigitChar(digits[i])
  {
    seq(|digits|, i requires 0 <= i < |digits| => DigitChar(digits[i]))
  }

  function DigitValues(s: string): seq<int> { seq(|s|, i requires 0 <= i < |s| => DigitValue(s[i])) }

  function Decimal(n: nat): string { if n == 0 then "0" else Chars(Digits(10, n)) }

  /** strconv.FormatInt in base 10. */
  function FormatInt(v: int): string { if v < 0 then "-" + Decimal(-v) else Decimal(v) }

  predicate AllDigits(s: string) { forall i :: 0 <= i < |s| ==> IsDigit(s[i]) }

  /** strconv.ParseInt in base 10 and 64 bits: an optional sign, then at least one digit, within range. */
  function ParseInt(s: string): Option<int> {
    var negative := s != "" && s[0] == '-';
    var digits := if s != "" && (s[0] == '-' || s[0] == '+') then s[1..] else s;
    if digits == "" || !AllDigits(digits) then None
    else
      var v := Value(10, DigitValues(digits));
      if negative then (if -v < INT64_MIN then None else Some(-v)) else if v > INT64_MAX then None else Some(v)
  }

  lemma DecimalReads(n: nat)
    ensures Decimal(n) != "" && IsDigit(Decimal(n)[0]) && AllDigits(Decimal(n))
      && Value(10, DigitValues(Decimal(n))) == n
  {
    if n == 0 {
      assert DigitValues("0") == [0] && [0][..0] == [];
      assert Value(10, [0]) == 0;
    } else {
      var digits := Digits(10, n);
      ValueOfDigits(10, n);
      assert DigitValues(Chars(digits)) == digits;
    }
  }

  lemma ParseFormat(v: int)
    requires Int64(v)
    ensures ParseInt(FormatInt(v)) == Some(v)
  {
    hide Decimal, AllDigits, DigitValues, Value;
    var n := if v < 0 then -v else v;
    DecimalReads(n);
    var s := FormatInt(v);
    if v < 0 {
      assert s[0] == '-' && s[1..] == Decimal(n);
    }
  }

  /** White space as Unicode defines it. */
  predicate IsSpace(c: char) {
    var n := c as int;
    9 <= n <= 13 || n == 0x20 || n == 0x85 || n == 0xA0 || n == 0x1680 || 0x2000 <= n <= 0x200A
    || n == 0x2028 || n == 0x2029 || n == 0x202F || n == 0x205F || n == 0x3000
  }

  function TrimSpace(s: string): string
    decreases |s|
  {
    if s != "" && IsSpace(s[0]) then TrimSpace(s[1..])
    else if s != "" && IsSpace(s[|s| - 1]) then TrimSpace(s[..|s| - 1])
    else s
  }

  lemma TrimNothing(s: string)
    requires s == "" || (!IsSpace(s[0]) && !IsSpace(s[|s| - 1]))
    ensures TrimSpace(s) == s
  {
    hide IsSpace;
  }

  predicate NumberChar(c: char) { c == '-' || IsDigit(c) }

  lemma FormatChars(v: int)
    ensures FormatInt(v) != "" && forall i :: 0 <= i < |FormatInt(v)| ==> NumberChar(FormatInt(v)[i])
  {
    hide Decimal;
    var n := if v < 0 then -v else v;
    DecimalReads(n);
    var s, digits := FormatInt(v), Decimal(n);
    assert AllDigits(digits);
    assert s == if v < 0 then ['-'] + digits else digits;
  }

  /** A formatted number has no comma and nothing to trim. */
  lemma FormatIsPlain(v: int)
    ensures FormatInt(v) != "" && ',' !in FormatInt(v) && TrimSpace(FormatInt(v)) == FormatInt(v)
  {
    hide FormatInt;
    var s := FormatInt(v);
    FormatChars(v);
    forall i | 0 <= i < |s| ensures s[i] != ',' && !IsSpace(s[i]) {
      assert NumberChar(s[i]);
    }
    TrimNothing(s);
  }

  // ---------------------------------------------------------------- comma-separated lists

  function Join(parts: seq<string>): string {
    if parts == [] then ""
    else if |parts| == 1 then parts[0]
    else Join(parts[..|parts| - 1]) + "," + parts[|parts| - 1]
  }

  /** The parts between the commas: always at least one. */
  function Split(s: string): (parts: seq<string>)
    ensures parts != []
  {
    if s == "" then [""]
    else
      var front := Split(s[..|s| - 1]);
      if s[|s| - 1] == ',' then front + [""]
      else front[|front| - 1 := front[|front| - 1] + [s[|s| - 1]]]
  }

  lemma {:induction false} SplitPlain(s: string, rest: string)
    requires ',' !in rest
    ensures Split(s + "," + rest) == Split(s) + [rest]
    decreases |rest|
  {
    var t := s + "," + rest;
    if rest == "" {
      assert t[..|t| - 1] == s;
    } else {
      var n := |rest| - 1;
      SplitPlain(s, rest[..n]);
      assert t[..|t| - 1] == s + "," + rest[..n];
      assert rest[..n] + [rest[n]] == rest;
    }
  }

  lemma {:induction false} SplitNoComma(s: string)
    requires ',' !in s
    ensures Split(s) == [s]
  {
    if s != "" {
      SplitNoComma(s[..|s| - 1]);
      assert s[..|s| - 1] + [s[|s| - 1]] == s;
    }
  }

  lemma {:induction false} SplitJoin(parts: seq<string>)
    requires parts != [] && forall i :: 0 <= i < |parts| ==> ',' !in parts[i]
    ensures Split(Join(parts)) == parts
  {
    var n := |parts| - 1;
    if n == 0 {
      SplitNoComma(parts[0]);
      assert parts == [parts[0]];
    } else {
      SplitJoin(parts[..n]);
      SplitPlain(Join(parts[..n]), parts[n]);
      assert parts == parts[..n] + [parts[n]];
    }
  }

  // ---------------------------------------------------------------- encoding and parsing

  function Formatted(sizes: seq<int>): seq<string> { Map(FormatInt, sizes) }

  function Encode(sizes: seq<int>): Option<string> {
    if sizes == [] then None else Some(Join(Formatted(sizes)))
  }

  /** The numbers of the parts that are not blank; the first part that is no number is the error. */
  function ParseParts(parts: seq<string>): Result<seq<int>, string> {
    if parts == [] then Success([])
    else
      var front := ParseParts(parts[..|parts| - 1]);
      var p := TrimSpace(parts[|parts| - 1]);
      if front.Failure? || p == "" then front
      else if ParseInt(p).None? then Failure(p)
      else Success(front.value + [ParseInt(p).value])
  }

  function Parse(data: Option<string>): Result<seq<int>, string> {
    if data.None? || data.value == "" then Success([]) else ParseParts(Split(data.value))
  }

  method EncodeTargetSizes(sizes: seq<int>) returns (text: Option<string>)
    ensures text == Encode(sizes)
  {
    if |sizes| == 0 {
      return None;
    }
    var parts: seq<string> := [];
    for i := 0 to |sizes|
      invariant parts == Formatted(sizes[..i])
    {
      parts := parts + [FormatInt(sizes[i])];
    }
    assert sizes[..|sizes|] == sizes;
    return Some(Join(parts));
  }

  method ParseTargetUtxoSizes(data: Option<string>) returns (r: Result<seq<int>, string>)
    ensures r == Parse(data)
  {
    if data.None? || data.value == "" {
      return Success([]);
    }
    var parts := Split(data.value);
    var sizes: seq<int> := [];
    for i := 0 to |parts|
      invariant ParseParts(parts[..i]) == Success(sizes)
    {
      assert parts[..i + 1][..i] == parts[..i];
      var p := TrimSpace(parts[i]);
      if p == "" {
        continue;
      }
      var v := ParseInt(p);
      if v.None? {
        FirstFailure(parts, i + 1);
        return Failure(p);
      }
      sizes := sizes + [v.value];
    }
    assert parts[..|parts|] == parts;
    return Success(sizes);
  }

  lemma {:induction false} FirstFailure(parts: seq<string>, i: nat)
    requires i <= |parts| && ParseParts(parts[..i]).Failure?
    ensures ParseParts(parts) == ParseParts(parts[..i])
    decreases |parts|
  {
    if i < |parts| {
      var front := parts[..|parts| - 1];
      assert front[..i] == parts[..i];
      FirstFailure(front, i);
    } else {
      assert parts[..i] == parts;
    }
  }

  lemma {:induction false} ParseFormatted(sizes: seq<int>)
    requires forall i :: 0 <= i < |sizes| ==> Int64(sizes[i])
    ensures ParseParts(Formatted(sizes)) == Success(sizes)
  {
    hide FormatInt, ParseInt, TrimSpace;
    if sizes != [] {
      var n := |sizes| - 1;
      ParseFormatted(sizes[..n]);
      assert Formatted(sizes)[..n] == Formatted(sizes[..n]);
      FormatIsPlain(sizes[n]);
      ParseFormat(sizes[n]);
      assert sizes == sizes[..n] + [sizes[n]];
    }
  }

  /** Whatever 64-bit sizes are stored are read back, the empty list and negative values included. */
  lemma RoundTrip(sizes: seq<int>)
    requires forall i :: 0 <= i < |sizes| ==> Int64(sizes[i])
    ensures Parse(Encode(sizes)) == Success(sizes)
  {
    if sizes != [] {
      var parts := Formatted(sizes);
      forall i | 0 <= i < |parts| ensures ',' !in parts[i] && parts[i] != "" {
        FormatIsPlain(sizes[i]);
      }
      SplitJoin(parts);
      ParseFormatted(sizes);
      assert Split("") == [""];
    }
  }

  lemma {:induction false} ParsedInRange(parts: seq<string>)
    ensures ParseParts(parts).Success? ==> forall i :: 0 <= i < |ParseParts(parts).value| ==>
      Int64(ParseParts(parts).value[i])
  {
    if parts != [] {
      ParsedInRange(parts[..|parts| - 1]);
      ParseIntInRange(TrimSpace(parts[|parts| - 1]));
    }
  }

  lemma ParseIntInRange(s: string)
    ensures ParseInt(s).Some? ==> Int64(ParseInt(s).value)
  {
    var digits := if s != "" && (s[0] == '-' || s[0] == '+') then s[1..] else s;
    if AllDigits(digits) {
      ValueBounds(10, DigitValues(digits));
    }
  }

  /** Text that parses, with blanks, signs or empty parts, means the same after being stored again. */
  lemma ReencodingIsStable(data: Option<string>)
    requires Parse(data).Success?
    ensures Parse(Encode(Parse(data).value)) == Parse(data)
  {
    if data.Some? && data.value != "" {
      ParsedInRange(Split(data.value));
    }
    RoundTrip(Parse(data).value);
  }

  // ---------------------------------------------------------------- the texts themselves

  /** Numbers are written in decimal, with a minus sign in front of negative ones. */
  lemma KnownNumbers()
    ensures FormatInt(0) == "0" && FormatInt(7) == "7" && FormatInt(-120) == "-120"
  {
    assert Digits(10, 120) == Digits(10, 12) + [0] && Digits(10, 12) == Digits(10, 1) + [2];
    assert Digits(10, 7) == Digits(10, 0) + [7] && Digits(10, 1) == Digits(10, 0) + [1];
    assert Chars([1, 2, 0]) == "120" && Chars([7]) == "7";
  }

  /** Lists are joined by single commas. */
  lemma JoinedText(a: int, b: int, c: int)
    ensures Encode([]) == None && Encode([a]) == Some(FormatInt(a))
    ensures Encode([a, b, c]) == Some(FormatInt(a) + "," + FormatInt(b) + "," + FormatInt(c))
  {
    hide FormatInt;
    var x, y, z := FormatInt(a), FormatInt(b), FormatInt(c);
    assert Formatted([a, b, c]) == [x, y, z] && Formatted([a]) == [x];
    assert [x, y, z][..2] == [x, y] && [x, y][..1] == [x];
    assert Join([x]) == x && Join([x, y]) == x + "," + y && Join([x, y, z]) == x + "," + y + "," + z;
  }

  /** Either sign is allowed in front of the digits, and numbers beyond 64 bits are refused. */
  lemma ParsesSigned(n: int, text: string)
    requires n >= 0 && text == FormatInt(n)
    ensures ParseInt("+" + text) == if n <= 0x7fff_ffff_ffff_ffff then Some(n) else None
    ensures ParseInt("-" + text) == if n <= 0x8000_0000_0000_0000 then Some(-n) else None
  {
    hide Decimal, DigitValues, Value;
    DecimalReads(n);
    assert ("+" + text)[1..] == text && ("-" + text)[1..] == text;
  }

  /** So is text with anything but digits behind the sign, or nothing at all. */
  lemma RefusesOthers(text: string)
    requires text == "" || exists i :: 0 <= i < |text| && !('0' <= text[i] <= '9')
    ensures ParseInt("+" + text) == None && ParseInt("-" + text) == None
  {
    assert ("+" + text)[1..] == text && ("-" + text)[1..] == text;
  }

  predicate Blank(s: string) { forall i :: 0 <= i < |s| ==> s[i] in {' ', '\t', '\n', '\r'} }

  lemma {:induction false} TrimPadded(left: string, s: string, right: string)
    requires Blank(left) && Blank(right) && s != "" && !IsSpace(s[0]) && !IsSpace(s[|s| - 1])
    ensures TrimSpace(left + s + right) == s
    decreases |left| + |right|
  {
    var text := left + s + right;
    if left != "" {
      TrimPadded(left[1..], s, right);
      assert text[1..] == left[1..] + s + right;
    } else if right != "" {
      var n := |right| - 1;
      TrimPadded(left, s, right[..n]);
      assert text[..|text| - 1] == left + s + right[..n];
    } else {
      assert text == s;
      TrimNothing(s);
    }
  }

  function Padded(sizes: seq<int>, left: seq<string>, right: seq<string>): (parts: seq<string>)
    requires |left| == |right| == |sizes|
  {
    seq(|sizes|, i requires 0 <= i < |sizes| => left[i] + FormatInt(sizes[i]) + right[i])
  }

  /** Blanks around the numbers do not matter. */
  lemma {:induction false} BlanksIgnored(sizes: seq<int>, left: seq<string>, right: seq<string>)
    requires |left| == |right| == |sizes|
    requires forall i :: 0 <= i < |sizes| ==> Int64(sizes[i]) && Blank(left[i]) && Blank(right[i])
    ensures ParseParts(Padded(sizes, left, right)) == Success(sizes)
  {
    hide FormatInt, ParseInt, TrimSpace, Blank, IsSpace;
    if sizes != [] {
      var n := |sizes| - 1;
      var parts := Padded(sizes, left, right);
      BlanksIgnored(sizes[..n], left[..n], right[..n]);
      assert parts[..n] == Padded(sizes[..n], left[..n], right[..n]);
      FormatEnds(sizes[n]);
      TrimPadded(left[n], FormatInt(sizes[n]), right[n]);
      ParseFormat(sizes[n]);
      assert sizes == sizes[..n] + [sizes[n]];
    }
  }

  /** So a list typed with blanks around its numbers is read like the one that is stored. */
  lemma TypedList(sizes: seq<int>, left: seq<string>, right: seq<string>)
    requires |left| == |right| == |sizes| > 0
    requires forall i :: 0 <= i < |sizes| ==> Int64(sizes[i]) && Blank(left[i]) && Blank(right[i])
    ensures Parse(Some(Join(Padded(sizes, left, right)))) == Success(sizes)
  {
    hide FormatInt, ParseInt, TrimSpace, IsSpace, ParseParts, Join, Split;
    var parts := Padded(sizes, left, right);
    forall i | 0 <= i < |parts| ensures ',' !in parts[i] && parts[i] != "" {
      FormatIsPlain(sizes[i]);
    }
    SplitJoin(parts);
    BlanksIgnored(sizes, left, right);
    SplitNoComma("");
    assert parts[0] != "" && Join(parts) != "";
  }

  lemma FormatEnds(v: int)
    ensures var s := FormatInt(v); s != "" && !IsSpace(s[0]) && !IsSpace(s[|s| - 1])
  {
    hide FormatInt;
    var s := FormatInt(v);
    FormatChars(v);
    assert NumberChar(s[0]) && NumberChar(s[|s| - 1]);
  }
}
