/** Descriptor checksums: the character loop, code words, and error detection at every length. */
module DescriptorChecksum {
  import opened Wrappers
  import opened ChecksumState

  const INPUT_CHARSET := "0123456789()[],'/*abcdefgh@:$%{}" + "IJKLMNOPQRSTUVWXYZ&+-.;<=>?!^_|~"
                       + "ijklmnopqrstuvwxyzABCDEFGH`#\"\\ "
  const CHECKSUM_CHARSET := "qpzry9x8gf2tvdw0" + "s3jn54khce6mua7l"

  // ---------------------------------------------------------------- characters and symbols

  function Position(ch: char): (pos: int)
    ensures -1 <= pos < 95
  {
    IndexOf(INPUT_CHARSET, ch)
  }

  lemma PositionInjective(a: char, b: char)
    requires Position(a) == Position(b) != -1
    ensures a == b
  {
  }

  predicate Valid(desc: string) {
    forall i :: 0 <= i < |desc| ==> Position(desc[i]) != -1
  }

  predicate Indices(ps: seq<int>) {
    forall i :: 0 <= i < |ps| ==> 0 <= ps[i] < 95
  }

  function Positions(desc: string): (ps: seq<int>)
    requires Valid(desc)
    ensures |ps| == |desc| && Indices(ps)
    ensures forall i :: 0 <= i < |ps| ==> ps[i] == Position(desc[i])
  {
    seq(|desc|, i requires 0 <= i < |desc| => Position(desc[i]))
  }

  /** uint64(n) for n below 32. */
  function Symbol(n: int): (w: Word)
    requires 0 <= n < 32
    ensures IsSymbol(w) && w.bits as int == n
  {
    if n == 0 then ZERO
    else
      var previous := Symbol(n - 1);
      Increment(previous.bits);
      Word(previous.bits + 1)
  }

  lemma Increment(bits: bv64)
    requires bits as int < 31
    ensures bits < 31 && (bits + 1) as int == bits as int + 1
  {
  }

  function Class(group: seq<int>): (cls: int)
    requires Indices(group) && |group| <= 3
    ensures 0 <= cls < (if |group| == 0 then 1 else if |group| == 1 then 3 else if |group| == 2 then 9 else 27)
  {
    if group == [] then 0 else Class(group[..|group| - 1]) * 3 + group[|group| - 1] / 32
  }

  function Low(p: int): Word
    requires 0 <= p < 95
  {
    Symbol(p % 32)
  }

  /** The low symbols of a group, then the symbol that packs the characters' high parts. */
  function Group(group: seq<int>): (s: seq<Word>)
    requires Indices(group) && 0 < |group| <= 3
    ensures |s| == |group| + 1 && Symbols(s)
  {
    seq(|group|, i requires 0 <= i < |group| => Low(group[i])) + [Symbol(Class(group))]
  }

  predicate Symbols(s: seq<Word>) {
    forall i :: 0 <= i < |s| ==> IsSymbol(s[i])
  }

  /** BIP 380's expansion: groups of three characters, the last one possibly shorter. */
  function Expand(ps: seq<int>): (s: seq<Word>)
    requires Indices(ps)
    ensures Symbols(s)
  {
    if ps == [] then []
    else if |ps| <= 3 then Group(ps)
    else Group(ps[..3]) + Expand(ps[3..])
  }

  // ---------------------------------------------------------------- the checksum

  function Run(c: Word, symbols: seq<Word>): Word
    decreases |symbols|
  {
    if symbols == [] then c else Run(Polymod(c, symbols[0]), symbols[1..])
  }

  function Repeated(n: nat): (s: seq<Word>)
    ensures |s| == n && (forall i :: 0 <= i < n ==> s[i] == ZERO)
  {
    seq(n, _ => ZERO)
  }

  const ONE := Word(1)

  /** The eight symbols of the checksum, as one 40-bit word. */
  function Residue(ps: seq<int>): Word
    requires Indices(ps)
  {
    Xor(Run(Run(ONE, Expand(ps)), Repeated(8)), ONE)
  }

  /** c >> 5n. */
  function ShiftRight(c: Word, n: nat): Word {
    if n == 0 then c else DropFive(ShiftRight(c, n - 1))
  }

  function DropFive(c: Word): Word { Word(DropBits(c.bits)) }

  function DropBits(k: bv64): bv64 { k >> 5 }

  function LowBits(k: bv64): (symbol: bv64)
    ensures symbol < 32
  {
    k & 31
  }

  function LowFive(c: Word): (w: Word)
    ensures IsSymbol(w)
  {
    Word(LowBits(c.bits))
  }

  /** The i-th five-bit symbol from the top: (c >> 5*(7-i)) & 31. */
  function FiveBits(c: Word, i: nat): (w: Word)
    requires i < 8
    ensures IsSymbol(w)
  {
    LowFive(ShiftRight(c, 7 - i))
  }

  function Unpack(c: Word): (s: seq<Word>)
    ensures |s| == 8 && Symbols(s)
  {
    seq(8, i requires 0 <= i < 8 => FiveBits(c, i))
  }

  lemma SmallIndex(a: bv64, b: bv64)
    requires a < 32 && b < 32
    ensures 0 <= a as int < 32 && (a as int == b as int ==> a == b)
  {
  }

  function Character(w: Word): char
    requires IsSymbol(w)
  {
    SmallIndex(w.bits, w.bits);
    CHECKSUM_CHARSET[w.bits as int]
  }

  function Text(c: Word): (s: string)
    ensures |s| == 8
    ensures forall i :: 0 <= i < 8 ==> s[i] == Character(FiveBits(c, i))
  {
    seq(8, i requires 0 <= i < 8 => Character(FiveBits(c, i)))
  }

  function FirstMiss(ps: seq<int>): (i: nat)
    ensures i <= |ps| && (i < |ps| ==> ps[i] == -1) && forall k :: 0 <= k < i ==> ps[k] != -1
  {
    if ps == [] || ps[0] == -1 then 0 else 1 + FirstMiss(ps[1..])
  }

  /** What DescriptorChecksum returns: eight characters, or the first character outside the charset. */
  function Checksum(desc: string): Result<string, char> {
    if Valid(desc) then Success(Text(Residue(Positions(desc)))) else Failure(desc[FirstMiss(Map(Position, desc))])
  }

  // ---------------------------------------------------------------- the source's loop

  /** The symbols fed to polymod after reading ps: the class of an unfinished group is still pending. */
  function Emitted(ps: seq<int>): seq<Word>
    requires Indices(ps)
  {
    if |ps| < 3 then seq(|ps|, i requires 0 <= i < |ps| => Low(ps[i]))
    else Group(ps[..3]) + Emitted(ps[3..])
  }

  function Pending(ps: seq<int>): (group: seq<int>)
    requires Indices(ps)
    ensures |group| == |ps| % 3 && Indices(group)
  {
    if |ps| < 3 then ps else Pending(ps[3..])
  }

  lemma {:induction false} EmitOne(ps: seq<int>, p: int)
    requires Indices(ps) && 0 <= p < 95
    ensures Indices(ps + [p])
    ensures var group := Pending(ps) + [p];
            Emitted(ps + [p]) == Emitted(ps) + [Low(p)] + (if |group| == 3 then [Symbol(Class(group))] else [])
    ensures Pending(ps + [p]) == if |Pending(ps)| == 2 then [] else Pending(ps) + [p]
  {
    hide Low, Symbol, Class;
    var all := ps + [p];
    if |ps| >= 3 {
      EmitOne(ps[3..], p);
      assert all[..3] == ps[..3] && all[3..] == ps[3..] + [p];
    } else if |ps| == 2 {
      assert all[..3] == all && all[3..] == [];
      assert Emitted(all) == Group(all) + [];
      assert Group(all) == Emitted(ps) + [Low(p)] + [Symbol(Class(all))];
    } else {
      assert Emitted(all) == Emitted(ps) + [Low(p)] + [];
    }
  }

  lemma {:induction false} ExpandIsEmitted(ps: seq<int>)
    requires Indices(ps)
    ensures Expand(ps) == Emitted(ps) + (if Pending(ps) == [] then [] else [Symbol(Class(Pending(ps)))])
  {
    if |ps| > 3 {
      ExpandIsEmitted(ps[3..]);
    } else if |ps| == 3 {
      assert ps[..3] == ps && ps[3..] == [];
    }
  }

  lemma {:induction false} RunAppend(c: Word, s: seq<Word>, t: seq<Word>)
    ensures Run(c, s + t) == Run(Run(c, s), t)
    decreases |s|
  {
    hide Polymod;
    if s == [] {
      assert s + t == t;
    } else {
      assert (s + t)[0] == s[0] && (s + t)[1..] == s[1..] + t;
      RunAppend(Polymod(c, s[0]), s[1..], t);
    }
  }

  lemma RunSnoc(c: Word, s: seq<Word>, w: Word)
    ensures Run(c, s + [w]) == Polymod(Run(c, s), w)
  {
    hide Polymod;
    RunAppend(c, s, [w]);
    var state := Run(c, s);
    assert [w][0] == w && [w][1..] == [];
    assert Run(state, [w]) == Run(Polymod(state, w), []);
  }

  method ComputeDescriptorChecksum(desc: string) returns (r: Result<string, char>)
    ensures r == Checksum(desc)
  {
    hide Polymod, Text, FiveBits, Position, FirstMiss;
    var stop, c, cls, clscount := Absorb(desc);
    if stop < |desc| {
      FirstInvalidIs(desc, stop);
      return Failure(desc[stop]);
    }
    assert desc[..stop] == desc;
    ghost var ps := Positions(desc);
    ExpandIsEmitted(ps);
    if clscount > 0 {
      RunSnoc(ONE, Emitted(ps), Symbol(cls));
      c := PolymodStep(c, Symbol(cls));
    } else {
      assert Emitted(ps) + [] == Emitted(ps);
    }
    c := EightZeros(c);
    c := Xor(c, ONE);
    var checksum := Spell(c);
    return Success(checksum);
  }

  /** The descriptor with its checksum behind a `#`. */
  method AddDescriptorChecksum(desc: string) returns (r: Result<string, char>)
    ensures r.Success? <==> Valid(desc)
    ensures r.Success? ==> |r.value| == |desc| + 9 && r.value[..|desc|] == desc && r.value[|desc|] == '#'
                           && Checksum(desc) == Success(r.value[|desc| + 1..])
  {
    hide Text, Residue, Positions, FirstMiss, Position;
    var checksum := ComputeDescriptorChecksum(desc);
    match checksum {
      case Failure(ch) => return Failure(ch);
      case Success(text) => return Success(desc + "#" + text);
    }
  }

  /** The loop over the descriptor, up to its end or the first character outside the charset. */
  method Absorb(desc: string) returns (stop: nat, c: Word, cls: int, clscount: nat)
    ensures stop <= |desc| && Valid(desc[..stop])
    ensures stop < |desc| ==> Position(desc[stop]) == -1
    ensures var ps := Positions(desc[..stop]);
            c == Run(ONE, Emitted(ps)) && clscount == |Pending(ps)| && cls == Class(Pending(ps))
  {
    hide Polymod, Run, Emitted, Pending, Low, Symbol, Position;
    stop, c, cls, clscount := 0, ONE, 0, 0;
    ghost var ps: seq<int> := [];
    NothingRead(ONE);
    while stop < |desc|
      invariant stop <= |desc| && Valid(desc[..stop]) && ps == Positions(desc[..stop])
      invariant c == Run(ONE, Emitted(ps)) && clscount == |Pending(ps)| && cls == Class(Pending(ps))
    {
      var pos := Position(desc[stop]);
      if pos == -1 {
        return;
      }
      AbsorbOne(ps, pos);
      PositionsSnoc(desc, stop);
      c := PolymodStep(c, Low(pos));
      cls := cls * 3 + pos / 32;
      clscount := clscount + 1;
      if clscount == 3 {
        c := PolymodStep(c, Symbol(cls));
        cls := 0;
        clscount := 0;
      }
      stop := stop + 1;
      ps := ps + [pos];
    }
  }

  lemma NothingRead(c: Word)
    ensures Emitted([]) == [] && Expand([]) == [] && Run(c, []) == c
    ensures Pending([]) == [] && Class([]) == 0
  {
  }

  lemma AbsorbOne(ps: seq<int>, p: int)
    requires Indices(ps) && 0 <= p < 95
    ensures Indices(ps + [p])
    ensures 0 <= Class(Pending(ps)) * 3 + p / 32 < 32
    ensures var cls, c := Class(Pending(ps)) * 3 + p / 32, Polymod(Run(ONE, Emitted(ps)), Low(p));
            var full := |Pending(ps)| == 2;
            && Run(ONE, Emitted(ps + [p])) == (if full then Polymod(c, Symbol(cls)) else c)
            && |Pending(ps + [p])| == (if full then 0 else |Pending(ps)| + 1)
            && Class(Pending(ps + [p])) == (if full then 0 else cls)
  {
    hide Polymod, Run, Emitted, Pending, Low, Symbol;
    EmitOne(ps, p);
    ClassSnoc(Pending(ps), p);
    RunSnoc(ONE, Emitted(ps), Low(p));
    if |Pending(ps)| == 2 {
      RunSnoc(ONE, Emitted(ps) + [Low(p)], Symbol(Class(Pending(ps) + [p])));
    } else {
      assert Emitted(ps) + [Low(p)] + [] == Emitted(ps) + [Low(p)];
    }
  }

  lemma PositionsSnoc(desc: string, i: nat)
    requires i < |desc| && Valid(desc[..i]) && Position(desc[i]) != -1
    ensures Valid(desc[..i + 1])
    ensures Positions(desc[..i + 1]) == Positions(desc[..i]) + [Position(desc[i])]
  {
    hide Position;
    assert desc[..i + 1] == desc[..i] + [desc[i]];
  }

  lemma ClassSnoc(group: seq<int>, p: int)
    requires Indices(group) && |group| <= 2 && 0 <= p < 95
    ensures Class(group + [p]) == Class(group) * 3 + p / 32
  {
    assert (group + [p])[..|group|] == group;
  }

  method EightZeros(start: Word) returns (c: Word)
    ensures c == Run(start, Repeated(8))
  {
    hide Polymod;
    c := start;
    for i := 0 to 8
      invariant c == Run(start, Repeated(i))
    {
      assert Repeated(i + 1) == Repeated(i) + [ZERO];
      RunSnoc(start, Repeated(i), ZERO);
      c := PolymodStep(c, ZERO);
    }
  }

  method Spell(c: Word) returns (checksum: string)
    ensures checksum == Text(c)
  {
    hide FiveBits, Character;
    checksum := "";
    for i := 0 to 8
      invariant checksum == Text(c)[..i]
    {
      checksum := checksum + [Character(FiveBits(c, i))];
    }
  }

  lemma FirstInvalidIs(desc: string, i: nat)
    requires i < |desc| && Valid(desc[..i]) && Position(desc[i]) == -1
    ensures !Valid(desc) && FirstMiss(Map(Position, desc)) == i
  {
    hide Position;
    forall k | 0 <= k < i ensures Map(Position, desc)[k] != -1 { assert desc[..i][k] == desc[k]; }
  }

  // ---------------------------------------------------------------- runs of polymod

  function XorSymbols(s: seq<Word>, t: seq<Word>): (d: seq<Word>)
    requires |s| == |t|
    ensures |d| == |s| && forall i :: 0 <= i < |d| ==> d[i] == Xor(s[i], t[i])
  {
    seq(|s|, i requires 0 <= i < |s| => Xor(s[i], t[i]))
  }

  lemma {:induction false} RunBelow(c: Word, s: seq<Word>)
    requires IsState(c) && Symbols(s)
    ensures IsState(Run(c, s))
    decreases |s|
  {
    hide Polymod, IsState, IsSymbol;
    if s != [] {
      PolymodBelow(c, s[0]);
      RunBelow(Polymod(c, s[0]), s[1..]);
    }
  }

  /** A whole run is linear over exclusive or, whatever its length. */
  lemma {:induction false} RunLinear(a: Word, b: Word, s: seq<Word>, t: seq<Word>)
    requires |s| == |t|
    ensures Run(Xor(a, b), XorSymbols(s, t)) == Xor(Run(a, s), Run(b, t))
    decreases |s|
  {
    hide Xor, Polymod;
    if s != [] {
      PolymodLinear(a, b, s[0], t[0]);
      assert XorSymbols(s, t)[1..] == XorSymbols(s[1..], t[1..]);
      RunLinear(Polymod(a, s[0]), Polymod(b, t[0]), s[1..], t[1..]);
    }
  }

  /** The same symbols keep two different states apart for ever. */
  lemma {:induction false} RunInjective(a: Word, b: Word, s: seq<Word>)
    requires IsState(a) && IsState(b) && Symbols(s)
    requires Run(a, s) == Run(b, s)
    ensures a == b
    decreases |s|
  {
    hide Xor, Polymod, IsState, IsSymbol;
    if s != [] {
      PolymodBelow(a, s[0]);
      PolymodBelow(b, s[0]);
      RunInjective(Polymod(a, s[0]), Polymod(b, s[0]), s[1..]);
      PolymodSameSymbol(a, b, s[0]);
    }
  }

  lemma PolymodSameSymbol(a: Word, b: Word, v: Word)
    requires IsState(a) && IsState(b) && Polymod(a, v) == Polymod(b, v)
    ensures a == b
  {
    hide Xor, Polymod, IsState;
    PolymodLinear(a, b, v, v);
    XorZero(v);
    XorZero(Polymod(a, v));
    XorBelow(a, b);
    PolymodKernel(Xor(a, b));
    XorNonZero(a, b);
  }

  /** Up to eight symbols fill the state without wrapping: only zeros lead back to zero. */
  lemma {:induction false} ShortRunNonZero(n: nat, c: Word, s: seq<Word>)
    requires n + |s| <= 8 && Below(c, Reach(n)) && Symbols(s)
    requires Run(c, s) == ZERO
    ensures c == ZERO && s == Repeated(|s|)
    decreases |s|
  {
    hide Reach, Below, Polymod, IsSymbol;
    if s != [] {
      AppendSymbol(n, c, s[0]);
      ShortRunNonZero(n + 1, Polymod(c, s[0]), s[1..]);
      assert s == [s[0]] + s[1..];
    }
  }

  lemma Constants()
    ensures Below(ZERO, Reach(0)) && IsState(ZERO) && IsState(ONE) && Symbols(Repeated(8))
  {
  }

  /** At most eight symbols after a common state are recovered from the state they lead to. */
  lemma ShortRunInjective(c: Word, s: seq<Word>, t: seq<Word>)
    requires |s| == |t| <= 8 && Symbols(s) && Symbols(t)
    requires Run(c, s) == Run(c, t)
    ensures s == t
  {
    hide Xor, Run, IsSymbol, Below, Reach;
    var d := XorSymbols(s, t);
    forall i | 0 <= i < |d| ensures IsSymbol(d[i]) { XorBelow(s[i], t[i]); }
    RunLinear(c, c, s, t);
    XorZero(c);
    XorZero(Run(c, s));
    Constants();
    ShortRunNonZero(0, ZERO, d);
    forall i | 0 <= i < |s| ensures s[i] == t[i] { XorNonZero(s[i], t[i]); }
  }

  // ---------------------------------------------------------------- code words

  lemma RejoinWords(k: bv64, p: bv64, symbol: bv64, r: bv64)
    requires k < 0x100_0000_0000 && p == DropBits(k) && symbol == LowBits(k)
    requires r == ShiftBits(p) ^ symbol
    ensures p < 0x8_0000_0000 && r == k
  {
  }

  /** A word below 2^40 is its upper 35 bits with its last symbol appended. */
  lemma Rejoin(w: Word)
    requires IsState(w)
    ensures Polymod(DropFive(w), LowFive(w)) == w
  {
    hide Xor, ShiftBits, Polymod, DropBits, LowBits;
    var p, symbol := DropFive(w), LowFive(w);
    var r := Xor(Shifted(p), symbol);
    AppendIs(p, symbol);
    RejoinWords(w.bits, p.bits, symbol.bits, r.bits);
    PolymodNoWrap(p, symbol);
  }

  lemma ReachShrinks(n: nat, k: bv64)
    requires n < 8 && k < Reach(n + 1)
    ensures DropBits(k) < Reach(n)
  {
  }

  lemma DropBelow(n: nat, c: Word)
    requires n < 8 && Below(c, Reach(n + 1))
    ensures Below(DropFive(c), Reach(n))
  {
    hide Reach, DropBits;
    ReachShrinks(n, c.bits);
  }

  lemma {:induction false} ShiftRightBelow(c: Word, n: nat)
    requires IsState(c) && n <= 8
    ensures Below(ShiftRight(c, n), Reach(8 - n))
  {
    hide Reach, Below, DropFive, IsState;
    if n == 0 {
      ReachIsState(8, c);
    } else {
      ShiftRightBelow(c, n - 1);
      DropBelow(8 - n, ShiftRight(c, n - 1));
    }
  }

  lemma ReachIsState(n: nat, c: Word)
    requires n <= 8
    ensures Below(c, Reach(n)) ==> IsState(c) && (n == 0 ==> c == ZERO)
    ensures IsState(c) ==> Below(c, Reach(8))
  {
  }

  lemma RunUnpackFrom(c: Word, i: nat)
    requires i <= 8 && IsState(c)
    ensures Run(ZERO, Unpack(c)[..i]) == ShiftRight(c, 8 - i)
  {
    hide Polymod, LowFive, DropFive, IsState, IsSymbol, Below, Reach;
    ShiftRightBelow(c, 8 - i);
    ReachIsState(i, ShiftRight(c, 8 - i));
    if i > 0 {
      RunUnpackFrom(c, i - 1);
      Rejoin(ShiftRight(c, 8 - i));
      assert ShiftRight(c, 9 - i) == DropFive(ShiftRight(c, 8 - i));
      assert Unpack(c)[..i] == Unpack(c)[..i - 1] + [FiveBits(c, i - 1)];
      RunSnoc(ZERO, Unpack(c)[..i - 1], FiveBits(c, i - 1));
    }
  }

  /** A 40-bit word is the state its own eight symbols lead to from zero. */
  lemma RunUnpack(c: Word)
    requires IsState(c)
    ensures Run(ZERO, Unpack(c)) == c
  {
    hide Polymod, Run, FiveBits;
    RunUnpackFrom(c, 8);
    assert Unpack(c)[..8] == Unpack(c);
  }

  lemma ResidueIsState(ps: seq<int>)
    requires Indices(ps)
    ensures IsState(Run(ONE, Expand(ps))) && IsState(Residue(ps))
  {
    hide Xor, Polymod, Run, Expand, IsState, IsSymbol;
    Constants();
    RunBelow(ONE, Expand(ps));
    RunBelow(Run(ONE, Expand(ps)), Repeated(8));
    XorBelow(Run(Run(ONE, Expand(ps)), Repeated(8)), ONE);
  }

  /** A code word is a symbol string that takes polymod from 1 to 1. */
  predicate CodeWord(symbols: seq<Word>) { Run(ONE, symbols) == ONE }

  /** The computed checksum completes the descriptor to a code word, and no other eight symbols do. */
  lemma CodeWordIffChecksum(ps: seq<int>, t: seq<Word>)
    requires Indices(ps) && |t| == 8 && Symbols(t)
    ensures CodeWord(Expand(ps) + t) <==> t == Unpack(Residue(ps))
  {
    hide Xor, Polymod, Run, Expand, IsState, IsSymbol, FiveBits;
    var state, k := Run(ONE, Expand(ps)), Residue(ps);
    var zeros, symbols := Repeated(8), Unpack(k);
    ResidueIsState(ps);
    RunAppend(ONE, Expand(ps), symbols);
    RunAppend(ONE, Expand(ps), t);
    RunLinear(state, ZERO, zeros, symbols);
    XorZero(state);
    forall i | 0 <= i < 8 ensures XorSymbols(zeros, symbols)[i] == symbols[i] { XorZero(symbols[i]); }
    assert XorSymbols(zeros, symbols) == symbols;
    RunUnpack(k);
    var z := Run(state, zeros);
    XorAssociates(z, z, ONE);
    XorZero(z);
    XorZero(ONE);
    assert Run(state, symbols) == ONE;
    if Run(state, t) == ONE {
      ShortRunInjective(state, t, symbols);
    }
  }

  // ---------------------------------------------------------------- error detection

  lemma {:induction false} ClassInjective(a: seq<int>, b: seq<int>)
    requires Indices(a) && Indices(b) && |a| == |b| <= 3
    requires Class(a) == Class(b)
    ensures forall i :: 0 <= i < |a| ==> a[i] / 32 == b[i] / 32
  {
    if a != [] {
      var n := |a| - 1;
      var x, y := Class(a[..n]), Class(b[..n]);
      assert Class(a) == x * 3 + a[n] / 32 && Class(b) == y * 3 + b[n] / 32;
      assert 0 <= a[n] / 32 < 3 && 0 <= b[n] / 32 < 3;
      ClassInjective(a[..n], b[..n]);
      forall i | 0 <= i < n ensures a[i] / 32 == b[i] / 32 {
        assert a[..n][i] / 32 == b[..n][i] / 32;
      }
    }
  }

  /** Low parts and class together determine a group. */
  lemma GroupInjective(a: seq<int>, b: seq<int>)
    requires Indices(a) && Indices(b) && 0 < |a| == |b| <= 3
    requires Group(a) == Group(b)
    ensures a == b
  {
    hide Class, Symbol;
    assert Group(a)[|a|] == Symbol(Class(a)) && Group(b)[|a|] == Symbol(Class(b));
    ClassInjective(a, b);
    forall i | 0 <= i < |a| ensures a[i] == b[i] {
      assert Group(a)[i] == Low(a[i]) && Group(b)[i] == Low(b[i]);
      assert a[i] % 32 == b[i] % 32;
      assert a[i] == 32 * (a[i] / 32) + a[i] % 32 && b[i] == 32 * (b[i] / 32) + b[i] % 32;
    }
  }

  /** A window of at most two groups expands to at most eight symbols, injectively. */
  lemma WindowInjective(a: seq<int>, b: seq<int>)
    requires Indices(a) && Indices(b) && |a| == |b| <= 6
    ensures |Expand(a)| == |Expand(b)| <= 8
    ensures Expand(a) == Expand(b) ==> a == b
  {
    hide Group;
    if |a| > 3 {
      assert Expand(a[3..]) == Group(a[3..]) && Expand(b[3..]) == Group(b[3..]);
      if Expand(a) == Expand(b) {
        assert Expand(a)[..4] == Group(a[..3]) && Expand(b)[..4] == Group(b[..3]);
        assert Expand(a)[4..] == Group(a[3..]) && Expand(b)[4..] == Group(b[3..]);
        GroupInjective(a[..3], b[..3]);
        GroupInjective(a[3..], b[3..]);
        assert a == a[..3] + a[3..] && b == b[..3] + b[3..];
      }
    } else if a != [] && Expand(a) == Expand(b) {
      GroupInjective(a, b);
    }
  }

  /** Expansion splits at every group boundary. */
  lemma {:induction false} ExpandSplit(a: seq<int>, b: seq<int>)
    requires Indices(a) && Indices(b) && |a| % 3 == 0
    ensures Indices(a + b) && Expand(a + b) == Expand(a) + Expand(b)
  {
    hide Group, Expand;
    if a == [] {
      assert a + b == b;
      assert Expand(a) == [] by { NothingRead(ONE); }
      assert [] + Expand(b) == Expand(b);
    } else if b == [] {
      assert a + b == a;
      assert Expand(b) == [] by { NothingRead(ONE); }
      assert Expand(a) + [] == Expand(a);
    } else {
      var all := a + b;
      assert all[..3] == a[..3] && all[3..] == a[3..] + b;
      ExpandSplit(a[3..], b);
      ExpandGroup(all);
      ExpandGroup(a);
      assert Group(a[..3]) + (Expand(a[3..]) + Expand(b)) == Group(a[..3]) + Expand(a[3..]) + Expand(b);
    }
  }

  lemma ExpandGroup(ps: seq<int>)
    requires Indices(ps) && |ps| >= 3
    ensures Expand(ps) == Group(ps[..3]) + Expand(ps[3..])
  {
    hide Group;
    if |ps| == 3 {
      assert ps[..3] == ps && ps[3..] == [];
      assert Group(ps) + [] == Group(ps);
    }
  }

  lemma WindowChangesState(c: Word, a: seq<int>, b: seq<int>, rest: seq<Word>)
    requires IsState(c) && Indices(a) && Indices(b) && |a| == |b| <= 6 && a != b && Symbols(rest)
    ensures Run(Run(c, Expand(a)), rest) != Run(Run(c, Expand(b)), rest)
  {
    hide Run, Expand, IsState, IsSymbol;
    WindowInjective(a, b);
    RunBelow(c, Expand(a));
    RunBelow(c, Expand(b));
    if Run(Run(c, Expand(a)), rest) == Run(Run(c, Expand(b)), rest) {
      RunInjective(Run(c, Expand(a)), Run(c, Expand(b)), rest);
      ShortRunInjective(c, Expand(a), Expand(b));
    }
  }

  lemma {:induction false} RunWindow(before: seq<int>, window: seq<int>, after: seq<int>)
    requires Indices(before) && Indices(window) && Indices(after)
    requires |before| % 3 == 0 && (after != [] ==> |window| % 3 == 0)
    ensures Indices(before + window + after)
    ensures Run(ONE, Expand(before + window + after))
         == Run(Run(Run(ONE, Expand(before)), Expand(window)), Expand(after))
  {
    hide Run, Polymod, Expand;
    var head := before + window;
    ExpandSplit(before, window);
    RunAppend(ONE, Expand(before), Expand(window));
    if after == [] {
      assert head + after == head;
      NothingRead(Run(ONE, Expand(head)));
    } else {
      ExpandSplit(head, after);
      RunAppend(ONE, Expand(head), Expand(after));
    }
  }

  /** Two position strings that differ only inside one window of two adjacent groups. */
  lemma BurstChangesResidue(before: seq<int>, a: seq<int>, b: seq<int>, after: seq<int>)
    requires Indices(before) && Indices(a) && Indices(b) && Indices(after)
    requires |before| % 3 == 0 && |a| == |b| <= 6 && a != b && (after != [] ==> |a| == 6)
    ensures Indices(before + a + after) && Indices(before + b + after)
    ensures Residue(before + a + after) != Residue(before + b + after)
  {
    hide Xor, Run, Polymod, Expand, IsState, IsSymbol;
    var pa, pb := before + a + after, before + b + after;
    RunWindow(before, a, after);
    RunWindow(before, b, after);
    var c := Run(ONE, Expand(before));
    ResidueIsState(before);
    Constants();
    var rest := Expand(after) + Repeated(8);
    RunAppend(Run(c, Expand(a)), Expand(after), Repeated(8));
    RunAppend(Run(c, Expand(b)), Expand(after), Repeated(8));
    WindowChangesState(c, a, b, rest);
    var za, zb := Run(Run(ONE, Expand(pa)), Repeated(8)), Run(Run(ONE, Expand(pb)), Repeated(8));
    assert za != zb;
    XorAssociates(za, ONE, ONE);
    XorAssociates(zb, ONE, ONE);
    XorZero(ONE);
    XorZero(za);
    XorZero(zb);
  }

  lemma CharacterInjective(a: Word, b: Word)
    requires IsSymbol(a) && IsSymbol(b) && Character(a) == Character(b)
    ensures a == b
  {
    SmallIndex(a.bits, b.bits);
    SmallIndex(b.bits, a.bits);
    CharsetDistinct(a.bits as int, b.bits as int);
  }

  lemma CharsetDistinct(i: nat, j: nat)
    requires i < 32 && j < 32 && CHECKSUM_CHARSET[i] == CHECKSUM_CHARSET[j]
    ensures i == j
  {
  }

  /** The eight characters determine the 40-bit word. */
  lemma TextInjective(a: Word, b: Word)
    requires IsState(a) && IsState(b) && Text(a) == Text(b)
    ensures a == b
  {
    hide Run, Character, FiveBits, IsState, IsSymbol;
    forall i | 0 <= i < 8 ensures FiveBits(a, i) == FiveBits(b, i) {
      assert Text(a)[i] == Text(b)[i];
      CharacterInjective(FiveBits(a, i), FiveBits(b, i));
    }
    assert Unpack(a) == Unpack(b);
    RunUnpack(a);
    RunUnpack(b);
  }

  lemma PositionsInjective(x: string, y: string)
    requires Valid(x) && Valid(y) && |x| == |y| && Positions(x) == Positions(y)
    ensures x == y
  {
    hide Position;
    forall i | 0 <= i < |x| ensures x[i] == y[i] {
      assert Positions(x)[i] == Positions(y)[i];
      PositionInjective(x[i], y[i]);
    }
  }

  lemma FirstDifference(p: seq<int>, q: seq<int>) returns (i: nat)
    requires |p| == |q| && p != q
    ensures i < |p| && p[i] != q[i]
  {
    i :| 0 <= i < |p| && p[i] != q[i];
  }

  lemma SplitAt(px: seq<int>, lo: nat, hi: nat)
    requires Indices(px) && lo <= hi <= |px|
    ensures Indices(px[..lo]) && Indices(px[lo..hi]) && Indices(px[hi..])
    ensures px == px[..lo] + px[lo..hi] + px[hi..]
  {
  }

  lemma BurstInPositions(px: seq<int>, py: seq<int>, g: nat)
    requires Indices(px) && Indices(py) && |px| == |py| && px != py
    requires forall i :: 0 <= i < |px| && !(3 * g <= i < 3 * g + 6) ==> px[i] == py[i]
    ensures Residue(px) != Residue(py)
  {
    hide Residue, Indices;
    var i := FirstDifference(px, py);
    var n := |px|;
    var lo, hi := 3 * g, if 3 * g + 6 <= n then 3 * g + 6 else n;
    SplitAt(px, lo, hi);
    SplitAt(py, lo, hi);
    assert px[..lo] == py[..lo] && px[hi..] == py[hi..];
    assert px[lo..hi][i - lo] != py[lo..hi][i - lo];
    BurstChangesResidue(px[..lo], px[lo..hi], py[lo..hi], px[hi..]);
  }

  /** Burst detection at any length: descriptors of equal length that differ, but only among the six
      characters of the adjacent groups g and g + 1, always have different checksums. */
  lemma BurstDetected(x: string, y: string, g: nat)
    requires Valid(x) && Valid(y) && |x| == |y| && x != y
    requires forall i :: 0 <= i < |x| && !(3 * g <= i < 3 * g + 6) ==> x[i] == y[i]
    ensures Checksum(x).Success? && Checksum(y).Success? && Checksum(x).value != Checksum(y).value
  {
    hide Position, Text, Residue, IsState;
    var px, py := Positions(x), Positions(y);
    if px == py { PositionsInjective(x, y); }
    BurstInPositions(px, py, g);
    ResidueIsState(px);
    ResidueIsState(py);
    if Text(Residue(px)) == Text(Residue(py)) {
      TextInjective(Residue(px), Residue(py));
    }
  }

  /** For every descriptor over the charset, the text returned spells eight symbols that make the
      expanded descriptor a code word; reading it back symbol by symbol gives exactly those. */
  lemma ChecksumSpellsCodeWord(desc: string, t: seq<Word>)
    requires Valid(desc) && |t| == 8 && Symbols(t)
    ensures CodeWord(Expand(Positions(desc)) + t)
            <==> (Checksum(desc).Success? && forall i :: 0 <= i < 8 ==> Checksum(desc).value[i] == Character(t[i]))
  {
    hide Run, Position, Residue, Character, FiveBits, IsSymbol;
    var ps := Positions(desc);
    var k := Residue(ps);
    CodeWordIffChecksum(ps, t);
    if forall i :: 0 <= i < 8 ==> Text(k)[i] == Character(t[i]) {
      forall i | 0 <= i < 8 ensures t[i] == FiveBits(k, i) {
        CharacterInjective(t[i], FiveBits(k, i));
      }
      assert t == Unpack(k);
    }
  }
}
