/** The checksum's state: 40-bit polynomials over GF(2), held in one 64-bit word, and one polymod step. */
module ChecksumState {

  /** A uint64 of the source. */
  datatype Word = Word(bits: bv64)

  const ZERO := Word(0)

  predicate Below(a: Word, limit: bv64) { a.bits < limit }

  /** The 40-bit states. */
  predicate IsState(a: Word) { Below(a, 0x100_0000_0000) }

  /** The five-bit symbols. */
  predicate IsSymbol(a: Word) { Below(a, 32) }

  function Xor(a: Word, b: Word): Word { Word(a.bits ^ b.bits) }

  /** One conditional `c ^= generator` of polymod. */
  function Tap(c: Word, on: bool, generator: Word): Word {
    if on then Xor(c, generator) else c
  }

  predicate Bit(word: Word, k: nat) { BitSet(word.bits, k) }

  predicate BitSet(bits: bv64, k: nat) {
    if k == 0 then bits & 1 != 0
    else if k == 1 then bits & 2 != 0
    else if k == 2 then bits & 4 != 0
    else if k == 3 then bits & 8 != 0
    else bits & 16 != 0
  }

  function Generator(k: nat): Word {
    if k == 0 then Word(0xf5dee51989)
    else if k == 1 then Word(0xa9fdca3312)
    else if k == 2 then Word(0x1bab10e32d)
    else if k == 3 then Word(0x3706b1677a)
    else Word(0x644d626ffd)
  }

  /** The taps k, k+1, .., 4, selected by the five bits of `top`. */
  function Taps(k: nat, c: Word, top: Word): Word
    decreases 5 - k
  {
    if k >= 5 then c else Taps(k + 1, Tap(c, Bit(top, k), Generator(k)), top)
  }

  function Shifted(c: Word): Word { Word(ShiftBits(c.bits)) }

  function ShiftBits(bits: bv64): bv64 { (bits & 0x7ffffffff) << 5 }

  function Top(c: Word): Word { Word(TopBits(c.bits)) }

  function TopBits(bits: bv64): bv64 { bits >> 35 }

  function Polymod(c: Word, val: Word): Word {
    Taps(0, Xor(Shifted(c), val), Top(c))
  }

  lemma TapsUnfolded(c: Word, top: Word)
    ensures Taps(0, c, top)
         == Tap(Tap(Tap(Tap(Tap(c, Bit(top, 0), Generator(0)), Bit(top, 1), Generator(1)),
                        Bit(top, 2), Generator(2)), Bit(top, 3), Generator(3)), Bit(top, 4), Generator(4))
  {
  }

  method PolymodStep(c: Word, val: Word) returns (r: Word)
    ensures r == Polymod(c, val)
  {
    var c0 := Top(c);
    r := Xor(Shifted(c), val);
    TapsUnfolded(r, c0);
    r := Tap(r, Bit(c0, 0), Generator(0));
    r := Tap(r, Bit(c0, 1), Generator(1));
    r := Tap(r, Bit(c0, 2), Generator(2));
    r := Tap(r, Bit(c0, 3), Generator(3));
    r := Tap(r, Bit(c0, 4), Generator(4));
  }

  // ---------------------------------------------------------------- exclusive or

  lemma XorCommutes(a: Word, b: Word)
    ensures Xor(a, b) == Xor(b, a)
  {
  }

  lemma XorAssociates(a: Word, b: Word, c: Word)
    ensures Xor(Xor(a, b), c) == Xor(a, Xor(b, c))
  {
  }

  lemma XorZero(a: Word)
    ensures Xor(a, ZERO) == a && Xor(ZERO, a) == a && Xor(a, a) == ZERO
  {
  }

  lemma XorNonZero(a: Word, b: Word)
    ensures Xor(a, b) == ZERO <==> a == b
  {
    hide Xor;
    if Xor(a, b) == ZERO {
      XorAssociates(a, b, b);
      XorZero(b);
      XorZero(a);
    }
    XorZero(a);
  }

  lemma XorExchange(a: Word, b: Word, c: Word, d: Word)
    ensures Xor(Xor(a, b), Xor(c, d)) == Xor(Xor(a, c), Xor(b, d))
  {
    hide Xor;
    XorAssociates(a, b, Xor(c, d));
    XorAssociates(b, c, d);
    XorCommutes(b, c);
    XorAssociates(c, b, d);
    XorAssociates(a, c, Xor(b, d));
  }

  lemma XorBelow(a: Word, b: Word)
    ensures IsState(a) && IsState(b) ==> IsState(Xor(a, b))
    ensures IsSymbol(a) && IsSymbol(b) ==> IsSymbol(Xor(a, b))
    ensures IsSymbol(a) ==> IsState(a)
  {
  }

  // ---------------------------------------------------------------- linearity of the step

  lemma BitSetOfXor(a: bv64, b: bv64, x: bv64, k: nat)
    requires x == a ^ b
    ensures BitSet(x, k) <==> BitSet(a, k) != BitSet(b, k)
  {
    if k == 0 {
    } else if k == 1 {
    } else if k == 2 {
    } else if k == 3 {
    }
  }

  lemma BitOfXor(a: Word, b: Word, k: nat)
    ensures Bit(Xor(a, b), k) <==> Bit(a, k) != Bit(b, k)
  {
    hide Xor, BitSet;
    XorBits(a, b);
    BitSetOfXor(a.bits, b.bits, Xor(a, b).bits, k);
  }

  lemma XorBits(a: Word, b: Word)
    ensures Xor(a, b).bits == a.bits ^ b.bits
  {
  }

  lemma TapLinear(c: Word, d: Word, p: bool, q: bool, g: Word)
    ensures Tap(Xor(c, d), p != q, g) == Xor(Tap(c, p, g), Tap(d, q, g))
  {
    hide Xor;
    XorExchange(c, g, d, g);
    XorZero(g);
    XorZero(Xor(c, d));
    XorAssociates(c, d, g);
    XorAssociates(c, g, d);
    XorCommutes(g, d);
  }

  lemma {:induction false} TapsLinear(k: nat, c: Word, d: Word, a: Word, b: Word)
    ensures Taps(k, Xor(c, d), Xor(a, b)) == Xor(Taps(k, c, a), Taps(k, d, b))
    decreases 5 - k
  {
    hide Xor, Tap, Bit, Generator;
    if k < 5 {
      BitOfXor(a, b, k);
      TapLinear(c, d, Bit(a, k), Bit(b, k), Generator(k));
      TapsLinear(k + 1, Tap(c, Bit(a, k), Generator(k)), Tap(d, Bit(b, k), Generator(k)), a, b);
    }
  }

  lemma ShiftWords(a: bv64, b: bv64, x: bv64, sa: bv64, sb: bv64)
    requires x == a ^ b && sa == ShiftBits(a) && sb == ShiftBits(b)
    ensures ShiftBits(x) == sa ^ sb
  {
  }

  lemma TopWords(a: bv64, b: bv64, x: bv64, ta: bv64, tb: bv64)
    requires x == a ^ b && ta == TopBits(a) && tb == TopBits(b)
    ensures TopBits(x) == ta ^ tb
  {
  }

  lemma ShiftedLinear(a: Word, b: Word)
    ensures Shifted(Xor(a, b)) == Xor(Shifted(a), Shifted(b))
  {
    hide Xor, ShiftBits;
    XorBits(a, b);
    XorBits(Shifted(a), Shifted(b));
    ShiftWords(a.bits, b.bits, Xor(a, b).bits, Shifted(a).bits, Shifted(b).bits);
  }

  lemma TopLinear(a: Word, b: Word)
    ensures Top(Xor(a, b)) == Xor(Top(a), Top(b))
  {
    hide Xor, TopBits;
    XorBits(a, b);
    XorBits(Top(a), Top(b));
    TopWords(a.bits, b.bits, Xor(a, b).bits, Top(a).bits, Top(b).bits);
  }

  /** polymod is linear over exclusive or, in the state and the symbol together. */
  lemma PolymodLinear(a: Word, b: Word, v: Word, w: Word)
    ensures Polymod(Xor(a, b), Xor(v, w)) == Xor(Polymod(a, v), Polymod(b, w))
  {
    hide Xor, Shifted, Top, Taps;
    ShiftedLinear(a, b);
    TopLinear(a, b);
    XorExchange(Shifted(a), Shifted(b), v, w);
    TapsLinear(0, Xor(Shifted(a), v), Xor(Shifted(b), w), Top(a), Top(b));
  }

  // ---------------------------------------------------------------- range, injectivity, no wrap-around

  lemma StatesBelow(c: Word, k: nat)
    ensures IsState(Shifted(c)) && IsState(Generator(k))
  {
  }

  lemma {:induction false} TapsBelow(k: nat, c: Word, top: Word)
    requires IsState(c)
    ensures IsState(Taps(k, c, top))
    decreases 5 - k
  {
    hide Xor, Bit, Generator, IsState;
    if k < 5 {
      StatesBelow(c, k);
      XorBelow(c, Generator(k));
      TapsBelow(k + 1, Tap(c, Bit(top, k), Generator(k)), top);
    }
  }

  lemma PolymodBelow(c: Word, val: Word)
    requires IsState(c) && IsSymbol(val)
    ensures IsState(Polymod(c, val))
  {
    hide Xor, Taps, IsState, IsSymbol;
    StatesBelow(c, 0);
    XorBelow(val, val);
    XorBelow(Shifted(c), val);
    TapsBelow(0, Xor(Shifted(c), val), Top(c));
  }

  lemma KernelWords(c: bv64)
    requires c < 0x100_0000_0000
    requires var c0 := c >> 35;
             var r := (c & 0x7ffffffff) << 5;
             var r := if c0 & 1 != 0 then r ^ 0xf5dee51989 else r;
             var r := if c0 & 2 != 0 then r ^ 0xa9fdca3312 else r;
             var r := if c0 & 4 != 0 then r ^ 0x1bab10e32d else r;
             var r := if c0 & 8 != 0 then r ^ 0x3706b1677a else r;
             var r := if c0 & 16 != 0 then r ^ 0x644d626ffd else r;
             r == 0
    ensures c == 0
  {
  }

  /** A step on the zero symbol loses nothing: only the zero state is mapped to zero. */
  lemma PolymodKernel(c: Word)
    requires IsState(c) && Polymod(c, ZERO) == ZERO
    ensures c == ZERO
  {
    TapsUnfolded(Xor(Shifted(c), ZERO), Top(c));
    XorZero(Shifted(c));
    KernelWords(c.bits);
  }

  /** Hence it is injective on 40-bit states. */
  lemma PolymodInjective(a: Word, b: Word)
    requires IsState(a) && IsState(b) && Polymod(a, ZERO) == Polymod(b, ZERO)
    ensures a == b
  {
    hide Xor, Polymod, IsState;
    PolymodLinear(a, b, ZERO, ZERO);
    XorZero(ZERO);
    XorZero(Polymod(a, ZERO));
    XorBelow(a, b);
    PolymodKernel(Xor(a, b));
    XorNonZero(a, b);
  }

  /** 2^(5n): the states reachable from zero in n symbols. */
  function Reach(n: nat): bv64 {
    if n == 0 then 0x1
    else if n == 1 then 0x20
    else if n == 2 then 0x400
    else if n == 3 then 0x8000
    else if n == 4 then 0x10_0000
    else if n == 5 then 0x200_0000
    else if n == 6 then 0x4000_0000
    else if n == 7 then 0x8_0000_0000
    else 0x100_0000_0000
  }

  lemma SmallWords(c: bv64)
    requires c < 0x8_0000_0000
    ensures c >> 35 == 0
    ensures (c >> 35) & 1 == 0 && (c >> 35) & 2 == 0 && (c >> 35) & 4 == 0 && (c >> 35) & 8 == 0 && (c >> 35) & 16 == 0
    ensures (c & 0x7ffffffff) << 5 == c << 5
  {
  }

  /** A state below 2^35 absorbs a symbol without touching the generators. */
  lemma PolymodNoWrap(c: Word, val: Word)
    requires Below(c, 0x8_0000_0000)
    ensures Polymod(c, val) == Xor(Shifted(c), val)
  {
    hide Xor;
    SmallWords(c.bits);
    TapsUnfolded(Xor(Shifted(c), val), Top(c));
  }

  lemma AppendWords(n: nat, c: bv64, val: bv64, r: bv64)
    requires n < 8 && c < Reach(n) && val < 32
    requires r == ShiftBits(c) ^ val
    ensures c < 0x8_0000_0000
    ensures r < Reach(n + 1)
    ensures r == 0 <==> c == 0 && val == 0
  {
  }

  lemma AppendSymbol(n: nat, c: Word, val: Word)
    requires n < 8 && Below(c, Reach(n)) && IsSymbol(val)
    ensures Below(Polymod(c, val), Reach(n + 1))
    ensures Polymod(c, val) == ZERO <==> c == ZERO && val == ZERO
  {
    hide Xor, Shifted, ShiftBits, Reach, Polymod;
    var r := Xor(Shifted(c), val);
    AppendIs(c, val);
    AppendWords(n, c.bits, val.bits, r.bits);
    PolymodNoWrap(c, val);
    BitsZero(c);
    BitsZero(val);
    BitsZero(r);
    hide ZERO;
  }

  lemma AppendIs(c: Word, val: Word)
    ensures Xor(Shifted(c), val).bits == ShiftBits(c.bits) ^ val.bits
  {
    hide Xor, ShiftBits;
    XorBits(Shifted(c), val);
  }

  lemma BitsZero(a: Word)
    ensures a == ZERO <==> a.bits == 0
  {
  }
}
