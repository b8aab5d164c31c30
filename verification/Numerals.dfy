/** Bytes, digests, word sizes, and positional numerals in an arbitrary base. */
module Numerals {

  type Byte = b: int | 0 <= b < 256

  /** A SHA-256 digest. */
  type Digest = d: seq<Byte> | |d| == 32 witness seq(32, _ => 0)

  /** The number of uint32 values. */
  const UINT32 := 0x1_0000_0000

  /** The number a most-significant-first digit string stands for. */
  function Value(base: int, digits: seq<int>): (v: int) {
    if digits == [] then 0
    else Value(base, digits[..|digits| - 1]) * base + digits[|digits| - 1]
  }

  /** The digits of n, most significant first and without a leading zero: [] for 0. */
  function Digits(base: nat, n: nat): (ds: seq<int>)
    requires base >= 2
    ensures forall i :: 0 <= i < |ds| ==> 0 <= ds[i] < base
    ensures n > 0 ==> |ds| > 0 && ds[0] != 0
    ensures n == 0 ==> ds == []
  {
    if n == 0 then []
    else
      QuotientRemainder(n, base);
      Digits(base, n / base) + [n % base]
  }

  lemma MulGap(a: nat, b: nat, base: nat)
    ensures a < b ==> a * base + base <= b * base
  {
    if a < b {
      assert b * base == (b - 1) * base + base;
      MulGap(a, b - 1, base);
    }
  }

  /** Euclidean division has one quotient and one remainder. */
  lemma DivModOf(v: nat, last: nat, base: nat)
    requires last < base
    ensures (v * base + last) / base == v
    ensures (v * base + last) % base == last
  {
    var n := v * base + last;
    var q := n / base;
    QuotientRemainder(n, base);
    MulGap(q, v, base);
    MulGap(v, q, base);
  }

  lemma QuotientRemainder(n: nat, base: nat)
    requires base > 0
    ensures n / base >= 0
    ensures n == (n / base) * base + n % base
    ensures n >= base ==> 0 < n / base
    ensures n > 0 && base >= 2 ==> n / base < n
  {
    MulGap(n / base, 1, base);
    MulGap(0, n / base, base);
    if base >= 2 {
      assert (n / base) * base == (n / base) * (base - 2) + 2 * (n / base);
    }
  }

  /** Reading the digits of n back gives n. */
  lemma {:induction false} ValueOfDigits(base: nat, n: nat)
    requires base >= 2
    ensures Value(base, Digits(base, n)) == n
  {
    if n > 0 {
      QuotientRemainder(n, base);
      var q, r := n / base, n % base;
      ValueOfDigits(base, q);
      var high := Digits(base, q);
      assert Digits(base, n) == high + [r];
      assert (high + [r])[..|high|] == high;
    }
  }

  lemma {:induction false} ValueBounds(base: nat, digits: seq<int>)
    requires forall i :: 0 <= i < |digits| ==> 0 <= digits[i]
    ensures Value(base, digits) >= 0
  {
    if digits != [] {
      ValueBounds(base, digits[..|digits| - 1]);
      MulGap(0, Value(base, digits[..|digits| - 1]), base);
    }
  }

  lemma ValueSnoc(base: nat, high: seq<int>, last: int)
    ensures Value(base, high + [last]) == Value(base, high) * base + last
  {
    assert (high + [last])[..|high|] == high;
  }

  lemma DigitsSnoc(base: nat, v: nat, last: nat)
    requires base >= 2 && last < base
    requires v > 0 || last > 0
    ensures v * base + last > 0
    ensures Digits(base, v * base + last) == Digits(base, v) + [last]
  {
    DivModOf(v, last, base);
    MulGap(0, v, base);
  }

  /** A digit string without a leading zero is the one Digits produces. */
  lemma {:induction false} DigitsOfValue(base: nat, digits: seq<int>)
    requires base >= 2
    requires forall i :: 0 <= i < |digits| ==> 0 <= digits[i] < base
    requires digits != [] ==> digits[0] != 0
    ensures Value(base, digits) >= 0 && (digits != [] ==> Value(base, digits) > 0)
    ensures Digits(base, Value(base, digits)) == digits
  {
    if digits != [] {
      var high, last := digits[..|digits| - 1], digits[|digits| - 1];
      DigitsOfValue(base, high);
      assert digits == high + [last];
      ValueSnoc(base, high, last);
      DigitsSnoc(base, Value(base, high), last);
    }
  }

  function Zeros(n: nat): (s: seq<int>)
    ensures |s| == n && forall i :: 0 <= i < n ==> s[i] == 0
  {
    seq(n, _ => 0)
  }

  /** A run of leading zero digits does not change the number. */
  lemma {:induction false} LeadingZeros(base: int, zeros: nat, digits: seq<int>)
    ensures Value(base, Zeros(zeros) + digits) == Value(base, digits)
  {
    var padded := Zeros(zeros) + digits;
    if digits != [] {
      LeadingZeros(base, zeros, digits[..|digits| - 1]);
      assert padded[..|padded| - 1] == Zeros(zeros) + digits[..|digits| - 1];
    } else if zeros > 0 {
      LeadingZeros(base, zeros - 1, []);
      assert padded[..zeros - 1] == Zeros(zeros - 1) + [];
    } else {
      assert padded == digits;
    }
  }
}
