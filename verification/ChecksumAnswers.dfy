/** Known answers of the descriptor checksum, worked out step by step, and what fixes the register: five basis steps. */
module ChecksumAnswers {
  import opened Wrappers
  import opened ChecksumState
  import opened DescriptorChecksum

  // ---------------------------------------------------------------- the register

  /** The five bits that are shifted out feed back as these words; with linearity and the plain shift below 2^35 this
      determines every step. */
  lemma BasisSteps()
    ensures Polymod(Word(0x8_0000_0000), ZERO) == Word(0xf5dee51989)
    ensures Polymod(Word(0x10_0000_0000), ZERO) == Word(0xa9fdca3312)
    ensures Polymod(Word(0x20_0000_0000), ZERO) == Word(0x1bab10e32d)
    ensures Polymod(Word(0x40_0000_0000), ZERO) == Word(0x3706b1677a)
    ensures Polymod(Word(0x80_0000_0000), ZERO) == Word(0x644d626ffd)
  {
    StepIs(0x8_0000_0000, 0);
    StepIs(0x10_0000_0000, 0);
    StepIs(0x20_0000_0000, 0);
    StepIs(0x40_0000_0000, 0);
    StepIs(0x80_0000_0000, 0);
  }

  /** A step written out on one machine word. */
  function Step(c: bv64, v: bv64): bv64 { Feedback(0, ((c & 0x7ffffffff) << 5) ^ v, c >> 35) }

  function Feedback(k: nat, r: bv64, top: bv64): bv64
    decreases 5 - k
  {
    if k >= 5 then r else Feedback(k + 1, if BitSet(top, k) then r ^ Word40(k) else r, top)
  }

  function Word40(k: nat): bv64 {
    if k == 0 then 0xf5dee51989
    else if k == 1 then 0xa9fdca3312
    else if k == 2 then 0x1bab10e32d
    else if k == 3 then 0x3706b1677a
    else 0x644d626ffd
  }

  lemma StepIs(c: bv64, v: bv64)
    ensures Polymod(Word(c), Word(v)) == Word(Step(c, v))
  {
    hide Taps, Feedback;
    FeedbackIs(0, ((c & 0x7ffffffff) << 5) ^ v, c >> 35);
  }

  lemma {:induction false} FeedbackIs(k: nat, r: bv64, top: bv64)
    ensures Taps(k, Word(r), Word(top)) == Word(Feedback(k, r, top))
    decreases 5 - k
  {
    hide BitSet, Generator, Word40, Tap, Bit;
    if k < 5 {
      OneTap(k, r, top);
      FeedbackIs(k + 1, if BitSet(top, k) then r ^ Word40(k) else r, top);
    }
  }

  lemma OneTap(k: nat, r: bv64, top: bv64)
    requires k < 5
    ensures Tap(Word(r), Bit(Word(top), k), Generator(k)) == Word(if BitSet(top, k) then r ^ Word40(k) else r)
  {
    hide BitSet;
    assert Generator(k) == Word(Word40(k));
  }

  // ---------------------------------------------------------------- the two character tables

  /** The place of a character, range by range; -1 outside the charset. */
  function PlaceOf(c: char): int {
    if '0' <= c <= '9' then (c - '0') as int
    else if 'a' <= c <= 'h' then (c - 'a') as int + 18
    else if 'I' <= c <= 'Z' then (c - 'I') as int + 32
    else if 'i' <= c <= 'z' then (c - 'i') as int + 64
    else if 'A' <= c <= 'H' then (c - 'A') as int + 82
    else if c == '(' then 10 else if c == ')' then 11 else if c == '[' then 12 else if c == ']' then 13
    else if c == ',' then 14 else if c == '\'' then 15 else if c == '/' then 16 else if c == '*' then 17
    else if c == '@' then 26 else if c == ':' then 27 else if c == '$' then 28 else if c == '%' then 29
    else if c == '{' then 30 else if c == '}' then 31
    else if c == '&' then 50 else if c == '+' then 51 else if c == '-' then 52 else if c == '.' then 53
    else if c == ';' then 54 else if c == '<' then 55 else if c == '=' then 56 else if c == '>' then 57
    else if c == '?' then 58 else if c == '!' then 59 else if c == '^' then 60 else if c == '_' then 61
    else if c == '|' then 62 else if c == '~' then 63
    else if c == '`' then 90 else if c == '#' then 91 else if c == '"' then 92 else if c == '\\' then 93
    else if c == ' ' then 94
    else -1
  }

  const BLOCK_0 := "0123456789()[],'"
  const BLOCK_1 := "/*abcdefgh@:$%{}"
  const BLOCK_2 := "IJKLMNOPQRSTUVWX"
  const BLOCK_3 := "YZ&+-.;<=>?!^_|~"
  const BLOCK_4 := "ijklmnopqrstuvwx"
  const BLOCK_5 := "yzABCDEFGH`#\"\\ "

  /** The charset in blocks of sixteen. */
  lemma LowBlocks(i: nat)
    requires i < 32
    ensures INPUT_CHARSET[i] == if i < 16 then BLOCK_0[i] else BLOCK_1[i - 16]
  {
  }

  lemma MiddleBlocks(i: nat)
    requires 32 <= i < 64
    ensures INPUT_CHARSET[i] == if i < 48 then BLOCK_2[i - 32] else BLOCK_3[i - 48]
  {
  }

  lemma HighBlock(i: nat)
    requires 64 <= i < 80
    ensures INPUT_CHARSET[i] == BLOCK_4[i - 64]
  {
  }

  lemma LastBlock(i: nat)
    requires 80 <= i < 95
    ensures INPUT_CHARSET[i] == BLOCK_5[i - 80]
  {
  }

  lemma Block0Places(i: nat, c: char)
    requires i < 16
    ensures PlaceOf(BLOCK_0[i]) == 0 + i
    ensures 0 <= PlaceOf(c) < 16 ==> BLOCK_0[PlaceOf(c) - 0] == c
  {
  }

  lemma Block1Places(i: nat, c: char)
    requires i < 16
    ensures PlaceOf(BLOCK_1[i]) == 16 + i
    ensures 16 <= PlaceOf(c) < 32 ==> BLOCK_1[PlaceOf(c) - 16] == c
  {
  }

  lemma Block2Places(i: nat, c: char)
    requires i < 16
    ensures PlaceOf(BLOCK_2[i]) == 32 + i
    ensures 32 <= PlaceOf(c) < 48 ==> BLOCK_2[PlaceOf(c) - 32] == c
  {
  }

  lemma Block3Places(i: nat, c: char)
    requires i < 16
    ensures PlaceOf(BLOCK_3[i]) == 48 + i
    ensures 48 <= PlaceOf(c) < 64 ==> BLOCK_3[PlaceOf(c) - 48] == c
  {
  }

  lemma Block4Places(i: nat, c: char)
    requires i < 16
    ensures PlaceOf(BLOCK_4[i]) == 64 + i
    ensures 64 <= PlaceOf(c) < 80 ==> BLOCK_4[PlaceOf(c) - 64] == c
  {
  }

  lemma Block5Places(i: nat, c: char)
    requires i < 15
    ensures PlaceOf(BLOCK_5[i]) == 80 + i
    ensures 80 <= PlaceOf(c) < 95 ==> BLOCK_5[PlaceOf(c) - 80] == c
  {
  }

  lemma InTable(i: nat, c: char)
    requires i < 95
    ensures PlaceOf(INPUT_CHARSET[i]) == i && (PlaceOf(c) == i ==> INPUT_CHARSET[i] == c)
  {
    hide PlaceOf;
    if i < 32 {
      LowBlocks(i);
      if i < 16 { Block0Places(i, c); } else { Block1Places(i - 16, c); }
    } else if i < 64 {
      MiddleBlocks(i);
      if i < 48 { Block2Places(i - 32, c); } else { Block3Places(i - 48, c); }
    } else if i < 80 {
      HighBlock(i);
      Block4Places(i - 64, c);
    } else {
      LastBlock(i);
      Block5Places(i - 80, c);
    }
  }

  /** Searching the charset finds each of its characters at its place, and no other character. */
  lemma PositionIsPlace(c: char)
    ensures Position(c) == PlaceOf(c)
  {
    hide PlaceOf;
    PlaceBounds(c);
    var i, p := Position(c), PlaceOf(c);
    if i >= 0 {
      InTable(i, c);
    }
    if p >= 0 {
      InTable(p, c);
      assert INPUT_CHARSET[p] in INPUT_CHARSET;
    }
  }

  lemma PlaceBounds(c: char)
    ensures -1 <= PlaceOf(c) < 95
  {
  }

  // ---------------------------------------------------------------- feeding characters

  lemma SymbolAt(n: int, v: bv64)
    requires 0 <= n < 32 && v < 32 && v as int == n
    ensures Symbol(n) == Word(v)
  {
    SmallIndex(v, Symbol(n).bits);
  }

  /** Feeding these characters, a multiple of three, takes the register from c to r. */
  ghost predicate Feeds(c: bv64, text: string, r: bv64) {
    Valid(text) && |text| % 3 == 0 && Run(Word(c), Expand(Positions(text))) == Word(r)
  }

  /** The symbols of a character: what it feeds at once, and its part of the symbol fed after the third one. */
  predicate Splits(ch: char, low: bv64, high: int) {
    0 <= PlaceOf(ch) < 95 && low < 32 && low as int == PlaceOf(ch) % 32 && high == PlaceOf(ch) / 32
  }

  lemma LowSymbol(ch: char, low: bv64, high: int)
    requires Splits(ch, low, high)
    ensures 0 <= PlaceOf(ch) < 95 && PlaceOf(ch) / 32 == high && Symbol(PlaceOf(ch) % 32) == Word(low)
  {
    hide PlaceOf;
    SymbolAt(PlaceOf(ch) % 32, low);
  }

  /** Three characters: their low parts, then their high parts in one symbol. */
  lemma FeedThree(c: bv64, x: char, y: char, z: char, lows: (bv64, bv64, bv64), highs: (int, int, int), last: bv64)
    requires Splits(x, lows.0, highs.0) && Splits(y, lows.1, highs.1) && Splits(z, lows.2, highs.2)
    requires last < 32 && last as int == highs.0 * 9 + highs.1 * 3 + highs.2
    ensures Feeds(c, [x, y, z], Step(Step(Step(Step(c, lows.0), lows.1), lows.2), last))
  {
    hide Step, PlaceOf, Polymod, Position, Expand, Run;
    var p, q, r := PlaceOf(x), PlaceOf(y), PlaceOf(z);
    PositionIsPlace(x);
    PositionIsPlace(y);
    PositionIsPlace(z);
    assert Valid([x, y, z]) && Positions([x, y, z]) == [p, q, r];
    LowSymbol(x, lows.0, highs.0);
    LowSymbol(y, lows.1, highs.1);
    LowSymbol(z, lows.2, highs.2);
    hide Splits;
    SymbolAt(highs.0 * 9 + highs.1 * 3 + highs.2, last);
    RunGroup(c, p, q, r, lows, last);
  }

  lemma RunGroup(c: bv64, p: int, q: int, r: int, lows: (bv64, bv64, bv64), last: bv64)
    requires 0 <= p < 95 && 0 <= q < 95 && 0 <= r < 95
    requires Symbol(p % 32) == Word(lows.0) && Symbol(q % 32) == Word(lows.1) && Symbol(r % 32) == Word(lows.2)
    requires 0 <= p / 32 * 9 + q / 32 * 3 + r / 32 < 32
    requires Symbol(p / 32 * 9 + q / 32 * 3 + r / 32) == Word(last)
    ensures Run(Word(c), Expand([p, q, r])) == Word(Step(Step(Step(Step(c, lows.0), lows.1), lows.2), last))
  {
    hide Step, Polymod, Symbol, Expand, Run;
    GroupOfThree(p, q, r);
    RunFour(Word(c), Word(lows.0), Word(lows.1), Word(lows.2), Word(last));
    var c1 := Step(c, lows.0);
    var c2 := Step(c1, lows.1);
    StepIs(c, lows.0);
    StepIs(c1, lows.1);
    StepIs(c2, lows.2);
    StepIs(Step(c2, lows.2), last);
  }

  lemma GroupOfThree(p: int, q: int, r: int)
    requires 0 <= p < 95 && 0 <= q < 95 && 0 <= r < 95
    ensures 0 <= p / 32 * 9 + q / 32 * 3 + r / 32 < 32
    ensures Expand([p, q, r])
         == [Symbol(p % 32), Symbol(q % 32), Symbol(r % 32), Symbol(p / 32 * 9 + q / 32 * 3 + r / 32)]
  {
    hide Symbol, Class;
    ClassOfThree(p, q, r);
    assert Group([p, q, r])[..3] == [Symbol(p % 32), Symbol(q % 32), Symbol(r % 32)];
  }

  lemma ClassOfThree(p: int, q: int, r: int)
    requires 0 <= p < 95 && 0 <= q < 95 && 0 <= r < 95
    ensures Class([p, q, r]) == p / 32 * 9 + q / 32 * 3 + r / 32
  {
    ClassSnoc([p, q], r);
    ClassSnoc([p], q);
    ClassSnoc([], p);
    assert [p, q] + [r] == [p, q, r] && [p] + [q] == [p, q] && [] + [p] == [p];
  }

  lemma RunFour(c: Word, s: Word, t: Word, u: Word, v: Word)
    ensures Run(c, [s, t, u, v]) == Polymod(Polymod(Polymod(Polymod(c, s), t), u), v)
  {
    hide Polymod;
    RunAppend(c, [s, t, u], [v]);
    RunAppend(c, [s, t], [u]);
    RunAppend(c, [s], [t]);
    assert [s, t, u, v] == [s, t, u] + [v] && [s, t, u] == [s, t] + [u] && [s, t] == [s] + [t];
    forall d, w ensures Run(d, [w]) == Polymod(d, w) {
      assert [w][1..] == [];
    }
  }

  lemma FeedsMore(a: bv64, s: string, b: bv64, t: string, r: bv64)
    requires Feeds(a, s, b) && Feeds(b, t, r)
    ensures Feeds(a, s + t, r)
  {
    hide Polymod, Run, Expand, Position;
    assert Positions(s + t) == Positions(s) + Positions(t);
    ExpandSplit(Positions(s), Positions(t));
    RunAppend(Word(a), Expand(Positions(s)), Expand(Positions(t)));
  }

  function Through(c: bv64, t: seq<bv64>): bv64 {
    if t == [] then c else Step(Through(c, t[..|t| - 1]), t[|t| - 1])
  }

  function Words(t: seq<bv64>): (w: seq<Word>)
    ensures |w| == |t| && forall i :: 0 <= i < |t| ==> w[i] == Word(t[i])
  {
    seq(|t|, i requires 0 <= i < |t| => Word(t[i]))
  }

  lemma {:induction false} RunThrough(c: bv64, t: seq<bv64>)
    ensures Run(Word(c), Words(t)) == Word(Through(c, t))
  {
    hide Step, Polymod;
    if t != [] {
      var n := |t| - 1;
      RunThrough(c, t[..n]);
      assert Words(t) == Words(t[..n]) + [Word(t[n])];
      RunSnoc(Word(c), Words(t[..n]), Word(t[n]));
      StepIs(Through(c, t[..n]), t[n]);
    }
  }

  /** A descriptor of one character more than whole groups has the checksum whose symbols lead the register back
      to 1. */
  lemma Answer(c: bv64, front: string, ch: char, low: bv64, high: bv64, t: seq<bv64>)
    requires Feeds(1, front, c) && high < 32 && Splits(ch, low, high as int)
    requires |t| == 8 && (forall i :: 0 <= i < 8 ==> t[i] < 32) && Through(Step(Step(c, low), high), t) == 1
    ensures Checksum(front + [ch]).Success? && |Checksum(front + [ch]).value| == 8
    ensures forall i :: 0 <= i < 8 ==> Checksum(front + [ch]).value[i] == Character(Word(t[i]))
  {
    hide Step, Polymod, Run, Expand, Position, PlaceOf, Symbol, Through, Character, CodeWord;
    PositionIsPlace(ch);
    var p, desc := PlaceOf(ch), front + [ch];
    assert Valid(desc) && Positions(desc) == Positions(front) + [p];
    ExpandSplit(Positions(front), [p]);
    SymbolAt(p % 32, low);
    SymbolAt(p / 32, high);
    GroupOfOne(p);
    var state := Step(Step(c, low), high);
    RunTwo(Word(c), Word(low), Word(high));
    StepIs(c, low);
    StepIs(Step(c, low), high);
    RunAppend(ONE, Expand(Positions(front)), Expand([p]));
    RunThrough(state, t);
    RunAppend(ONE, Expand(Positions(desc)), Words(t));
    ChecksumSpellsCodeWord(desc, Words(t));
    CodeWordIs(Expand(Positions(desc)) + Words(t));
  }

  lemma CodeWordIs(s: seq<Word>)
    ensures CodeWord(s) <==> Run(Word(1), s) == Word(1)
  {
  }

  lemma GroupOfOne(p: int)
    requires 0 <= p < 95
    ensures Expand([p]) == [Symbol(p % 32), Symbol(p / 32)]
  {
    hide Symbol;
    assert Class([]) == 0 && [p][..0] == [];
    assert Class([p]) == p / 32;
  }

  lemma RunTwo(c: Word, s: Word, t: Word)
    ensures Run(c, [s, t]) == Polymod(Polymod(c, s), t)
  {
    hide Polymod;
    assert [s, t] == [s] + [t];
    RunSnoc(c, [s], t);
    RunSnoc(c, [], s);
    assert [] + [s] == [s];
  }

  // ---------------------------------------------------------------- known answers

  /** The four symbols of three characters. */
  predicate SymbolsOf(text: string, at: nat, g: (bv64, bv64, bv64, bv64))
    requires at + 3 <= |text|
  {
    var p, q, r := PlaceOf(text[at]), PlaceOf(text[at + 1]), PlaceOf(text[at + 2]);
    && 0 <= p < 95 && 0 <= q < 95 && 0 <= r < 95 && g.0 < 32 && g.1 < 32 && g.2 < 32 && g.3 < 32
    && g.0 as int == p % 32 && g.1 as int == q % 32 && g.2 as int == r % 32
    && g.3 as int == p / 32 * 9 + q / 32 * 3 + r / 32
  }

  function Four(c: bv64, g: (bv64, bv64, bv64, bv64)): bv64 { Step(Step(Step(Step(c, g.0), g.1), g.2), g.3) }

  lemma FeedThreeAt(c: bv64, text: string, at: nat, g: (bv64, bv64, bv64, bv64))
    requires at + 3 <= |text| && SymbolsOf(text, at, g)
    ensures Feeds(c, text[at..at + 3], Four(c, g))
  {
    hide Feeds, Step, PlaceOf;
    var x, y, z := text[at], text[at + 1], text[at + 2];
    assert text[at..at + 3] == [x, y, z];
    FeedThree(c, x, y, z, (g.0, g.1, g.2), (PlaceOf(x) / 32, PlaceOf(y) / 32, PlaceOf(z) / 32), g.3);
  }

  lemma FeedSix(c: bv64, text: string, g: (bv64, bv64, bv64, bv64), h: (bv64, bv64, bv64, bv64))
    requires |text| == 6 && SymbolsOf(text, 0, g) && SymbolsOf(text, 3, h)
    ensures Feeds(c, text, Four(Four(c, g), h))
  {
    hide Feeds, Four, SymbolsOf;
    var c1 := Four(c, g);
    FeedThreeAt(c, text, 0, g);
    FeedThreeAt(c1, text, 3, h);
    FeedsMore(c, text[0..3], c1, text[3..6], Four(c1, h));
    assert text == text[0..3] + text[3..6];
  }

  lemma FourIs(c: bv64, g: (bv64, bv64, bv64, bv64), r1: bv64, r2: bv64, r3: bv64, r4: bv64)
    requires Step(c, g.0) == r1 && Step(r1, g.1) == r2 && Step(r2, g.2) == r3 && Step(r3, g.3) == r4
    ensures Four(c, g) == r4
  {
  }

  /** Four characters of a checksum, and their symbols. */
  predicate Spells(text: string, at: nat, g: (bv64, bv64, bv64, bv64))
    requires at + 4 <= |text|
  {
    && g.0 < 32 && g.1 < 32 && g.2 < 32 && g.3 < 32
    && text[at] == Character(Word(g.0)) && text[at + 1] == Character(Word(g.1))
    && text[at + 2] == Character(Word(g.2)) && text[at + 3] == Character(Word(g.3))
  }

  lemma ThroughSnoc(c: bv64, t: seq<bv64>, v: bv64)
    ensures Through(c, t + [v]) == Step(Through(c, t), v)
  {
    assert (t + [v])[..|t|] == t;
  }

  lemma ThroughFour(c: bv64, t: seq<bv64>, g: (bv64, bv64, bv64, bv64))
    ensures Through(c, t + [g.0, g.1, g.2, g.3]) == Four(Through(c, t), g)
  {
    hide Step, Through;
    ThroughSnoc(c, t, g.0);
    ThroughSnoc(c, t + [g.0], g.1);
    ThroughSnoc(c, t + [g.0] + [g.1], g.2);
    ThroughSnoc(c, t + [g.0] + [g.1] + [g.2], g.3);
    assert t + [g.0, g.1, g.2, g.3] == t + [g.0] + [g.1] + [g.2] + [g.3];
  }

  lemma ThroughEight(c: bv64, g: (bv64, bv64, bv64, bv64), h: (bv64, bv64, bv64, bv64))
    ensures Through(c, [g.0, g.1, g.2, g.3] + [h.0, h.1, h.2, h.3]) == Four(Four(c, g), h)
  {
    hide Step, Four;
    assert Through(c, []) == c;
    hide Through;
    ThroughFour(c, [], g);
    ThroughFour(c, [g.0, g.1, g.2, g.3], h);
    assert [] + [g.0, g.1, g.2, g.3] == [g.0, g.1, g.2, g.3];
  }

  lemma KnownAnswer(c: bv64, front: string, ch: char, last: (bv64, bv64), g: (bv64, bv64, bv64, bv64),
                    h: (bv64, bv64, bv64, bv64), answer: string)
    requires Feeds(1, front, c) && last.1 < 32 && Splits(ch, last.0, last.1 as int)
    requires |answer| == 8 && Spells(answer, 0, g) && Spells(answer, 4, h)
    requires Four(Four(Step(Step(c, last.0), last.1), g), h) == 1
    ensures Checksum(front + [ch]) == Success(answer)
  {
    hide Feeds, Splits, Step, Four, Character, Checksum, Spells, Through;
    var state, t := Step(Step(c, last.0), last.1), [g.0, g.1, g.2, g.3] + [h.0, h.1, h.2, h.3];
    ThroughEight(state, g, h);
    SpellsAll(answer, g, h);
    Answer(c, front, ch, last.0, last.1, t);
    assert Checksum(front + [ch]).value == answer;
  }

  lemma SpellsAll(answer: string, g: (bv64, bv64, bv64, bv64), h: (bv64, bv64, bv64, bv64))
    requires |answer| == 8 && Spells(answer, 0, g) && Spells(answer, 4, h)
    ensures var t := [g.0, g.1, g.2, g.3] + [h.0, h.1, h.2, h.3];
            forall i :: 0 <= i < 8 ==> t[i] < 32 && answer[i] == Character(Word(t[i]))
  {
    hide Character;
    var t := [g.0, g.1, g.2, g.3] + [h.0, h.1, h.2, h.3];
    assert t[0] == g.0 && t[1] == g.1 && t[2] == g.2 && t[3] == g.3;
    assert t[4] == h.0 && t[5] == h.1 && t[6] == h.2 && t[7] == h.3;
    forall i | 0 <= i < 8 ensures t[i] < 32 && answer[i] == Character(Word(t[i])) {
      if i < 4 { SpellsOne(answer, 0, g, i); } else { SpellsOne(answer, 4, h, i - 4); }
    }
  }

  lemma SpellsOne(text: string, at: nat, g: (bv64, bv64, bv64, bv64), i: nat)
    requires at + 4 <= |text| && Spells(text, at, g) && i < 4
    ensures var v := if i == 0 then g.0 else if i == 1 then g.1 else if i == 2 then g.2 else g.3;
            v < 32 && text[at + i] == Character(Word(v))
  {
    hide Character;
  }

  lemma CharacterAt(v: bv64, i: nat)
    requires i < 32 && v < 32 && v as int == i
    ensures Character(Word(v)) == CHECKSUM_CHARSET[i]
  {
  }

  lemma FeedsRaw()
    ensures Feeds(0x1, "raw(de", 0xb943a04f49)
  {
    FourIs(0x1, (9, 18, 14, 20), 0x29, 0x532, 0xa64e, 0x14c9d4);
    FourIs(0x14c9d4, (10, 21, 22, 0), 0x2993a8a, 0x53275155, 0xa64ea2ab6, 0xb943a04f49);
    FeedSix(0x1, "raw(de", (9, 18, 14, 20), (10, 21, 22, 0));
  }

  lemma FeedsBeef()
    ensures Feeds(0xb943a04f49, "adbeef", 0x5dca20199b)
  {
    FourIs(0xb943a04f49, (18, 21, 19, 0), 0xbb1544f79, 0x83f46cf6bc, 0x1ac0fcb86e, 0x43cb8275b);
    FourIs(0x43cb8275b, (22, 22, 23, 0), 0x879704eb76, 0x96adff012b, 0x180f487998, 0x5dca20199b);
    FeedSix(0xb943a04f49, "adbeef", (18, 21, 19, 0), (22, 22, 23, 0));
  }

  /** The example of BIP 380, section "Test Vectors". */
  lemma RawAnswer()
    ensures Checksum("raw(de" + "adbeef" + ")") == Success("89f8spxm")
  {
    hide Feeds, Spells, Splits, Step, Four, Checksum;
    FeedsRaw();
    FeedsBeef();
    FeedsMore(1, "raw(de", 0xb943a04f49, "adbeef", 0x5dca20199b);
    EndsRawAnswer();
    SpelledRawAnswer();
    KnownAnswer(0x5dca20199b, "raw(de" + "adbeef", ')', (11, 0), (7, 5, 9, 7), (16, 1, 6, 27), "89f8spxm");
    assert [')'] == ")";
  }

  lemma EndsRawAnswer()
    ensures Splits(')', 11, 0) && Four(Four(Step(Step(0x5dca20199b, 11), 0), (7, 5, 9, 7)), (16, 1, 6, 27)) == 1
  {
  }

  lemma SpelledRawAnswer()
    ensures Spells("89f8spxm", 0, (7, 5, 9, 7)) && Spells("89f8spxm", 4, (16, 1, 6, 27))
  {
    hide Character;
    CharacterAt(7, 7);
    CharacterAt(5, 5);
    CharacterAt(9, 9);
    CharacterAt(7, 7);
    CharacterAt(16, 16);
    CharacterAt(1, 1);
    CharacterAt(6, 6);
    CharacterAt(27, 27);
  }

  // ---------------------------------------------------------------- the answers of Litecoin Core

  const PART_0 := "wpkh(t"
  const PART_1 := "pubDDH"
  const PART_2 := "1ndozC"
  const PART_3 := "cuGXjV"
  const PART_4 := "aXnB4N"
  const PART_5 := "HUWbKf"
  const PART_6 := "MTYfxH"
  const PART_7 := "3wuU1G"
  const PART_8 := "FvCXtE"
  const PART_9 := "ZZqsMY"
  const PART_10 := "6NxBdg"
  const PART_11 := "daebEx"
  const PART_12 := "gDAVic"
  const PART_13 := "ckGNJD"
  const PART_14 := "U8wVfR"
  const PART_15 := "UWWMao"
  const PART_16 := "v5jX4z"
  const PART_17 := "PaDorq"
  const PART_18 := "e75Qwj"

  /** The common beginning of two descriptors for an extended public key, piece by piece. */
  const FRONT_1 := PART_0 + PART_1
  const FRONT_2 := FRONT_1 + PART_2
  const FRONT_3 := FRONT_2 + PART_3
  const FRONT_4 := FRONT_3 + PART_4
  const FRONT_5 := FRONT_4 + PART_5
  const FRONT_6 := FRONT_5 + PART_6
  const FRONT_7 := FRONT_6 + PART_7
  const FRONT_8 := FRONT_7 + PART_8
  const FRONT_9 := FRONT_8 + PART_9
  const FRONT_10 := FRONT_9 + PART_10
  const FRONT_11 := FRONT_10 + PART_11
  const FRONT_12 := FRONT_11 + PART_12
  const FRONT_13 := FRONT_12 + PART_13
  const FRONT_14 := FRONT_13 + PART_14
  const FRONT_15 := FRONT_14 + PART_15
  const FRONT_16 := FRONT_15 + PART_16
  const FRONT_17 := FRONT_16 + PART_17
  const FRONT_18 := FRONT_17 + PART_18

  lemma FeedsPart0()
    ensures Feeds(0x1, PART_0, 0x841b49b0eb)
  {
    FourIs(0x1, (14, 7, 2, 26), 0x2e, 0x5c7, 0xb8e2, 0x171c5a);
    FourIs(0x171c5a, (25, 10, 11, 2), 0x2e38b59, 0x5c716b2a, 0xb8e2d654b, 0x841b49b0eb);
    FeedSix(0x1, PART_0, (14, 7, 2, 26), (25, 10, 11, 2));
  }

  lemma FeedsPart1()
    ensures Feeds(0x841b49b0eb, PART_1, 0x203615b3ef)
  {
    FourIs(0x841b49b0eb, (7, 12, 19, 24), 0xe72454729a, 0xac6a4db8e6, 0x77120898a, 0xee24113158);
    FourIs(0xee24113158, (21, 21, 25, 26), 0x79bc00d936, 0x470e958819, 0xd6d4006443, 0x203615b3ef);
    FeedSix(0x841b49b0eb, PART_1, (7, 12, 19, 24), (21, 21, 25, 26));
  }

  lemma FeedsPart2()
    ensures Feeds(0x203615b3ef, PART_2, 0x6e38468255)
  {
    FourIs(0x203615b3ef, (1, 5, 21, 6), 0x1d69a69ecc, 0xf117fcf31e, 0xc3e297bb6d, 0x2f19246521);
    FourIs(0x2f19246521, (6, 17, 20, 26), 0xd51795e82, 0x5ff1cec9d8, 0x951c4776f5, 0x6e38468255);
    FeedSix(0x203615b3ef, PART_2, (1, 5, 21, 6), (6, 17, 20, 26));
  }

  lemma FeedsPart3()
    ensures Feeds(0x6e38468255, PART_3, 0x35014ae51e)
  {
    FourIs(0x6e38468255, (20, 12, 24, 8), 0x1e7b94d76a, 0x9351b5c7d7, 0xa78610a617, 0x8f24664e38);
    FourIs(0x8f24664e38, (15, 1, 13, 16), 0x751f4eb17b, 0x26b9bd9824, 0xcc9ca3e7a0, 0x35014ae51e);
    FeedSix(0x6e38468255, PART_3, (20, 12, 24, 8), (15, 1, 13, 16));
  }

  lemma FeedsPart4()
    ensures Feeds(0x35014ae51e, PART_4, 0xf75a000c0d)
  {
    FourIs(0x35014ae51e, (18, 15, 5, 5), 0x127f8673ed, 0xe60d044ebd, 0x89404a3c0f, 0xb99ac0f791);
    FourIs(0xb99ac0f791, (19, 4, 5, 19), 0x109d435478, 0xba55a0bc16, 0x69714a248e, 0xf75a000c0d);
    FeedSix(0x35014ae51e, PART_4, (18, 15, 5, 5), (19, 4, 5, 19));
  }

  lemma FeedsPart5()
    ensures Feeds(0xf75a000c0d, PART_5, 0x3fe339f0fa)
  {
    FourIs(0xf75a000c0d, (25, 12, 14, 22), 0xa5d085901, 0xbe7fee39a5, 0xec389a92e5, 0x3a2d74ae95);
    FourIs(0x3a2d74ae95, (19, 2, 23, 3), 0x226aa1b05, 0x44d54360a2, 0xadaedd732d, 0x3fe339f0fa);
    FeedSix(0xf75a000c0d, PART_5, (25, 12, 14, 22), (19, 2, 23, 3));
  }

  lemma FeedsPart6()
    ensures Feeds(0x3fe339f0fa, PART_6, 0xe72d56b17a)
  {
    FourIs(0x3fe339f0fa, (4, 11, 16, 13), 0xbbef01d6f2, 0x5e25677800, 0xaf89714df1, 0x7b16be2b74);
    FourIs(0x7b16be2b74, (23, 15, 25, 8), 0x12594bc05b, 0xe2d4b2387d, 0x127684e413, 0xe72d56b17a);
    FeedSix(0x3fe339f0fa, PART_6, (4, 11, 16, 13), (23, 15, 25, 8));
  }

  lemma FeedsPart7()
    ensures Feeds(0xe72d56b17a, PART_7, 0x167032e4ff)
  {
    FourIs(0xe72d56b17a, (3, 14, 12, 8), 0xad4a15c4e9, 0x237a2f0877, 0x74eef1edc1, 0x188e560f6d);
    FourIs(0x188e560f6d, (12, 1, 24, 11), 0x4de9eec737, 0x7fe58c9812, 0x8c3f1dac94, 0x167032e4ff);
    FeedSix(0xe72d56b17a, PART_7, (3, 14, 12, 8), (12, 1, 24, 11));
  }

  lemma FeedsPart8()
    ensures Feeds(0x167032e4ff, PART_8, 0x1c1109b58a)
  {
    FourIs(0x167032e4ff, (23, 13, 20, 26), 0x67fb96ace5, 0xd3df7418fa, 0x81589a24c1, 0x4f5e26f7c7);
    FourIs(0x4f5e26f7c7, (15, 11, 22, 17), 0x291c8a861c, 0xcde4a5392f, 0x1a019134f8, 0x1c1109b58a);
    FeedSix(0x167032e4ff, PART_8, (23, 13, 20, 26), (15, 11, 22, 17));
  }

  lemma FeedsPart9()
    ensures Feeds(0x1c1109b58a, PART_9, 0xba40f86844)
  {
    FourIs(0x1c1109b58a, (17, 17, 8, 14), 0xde02199bca, 0xcf2bcf5b4d, 0x43ecdd78a6, 0x4a9d1e73b4);
    FourIs(0x4a9d1e73b4, (10, 4, 16, 22), 0x917b9a0879, 0xe2c3e953cb, 0x109de992da, 0xba40f86844);
    FeedSix(0x1c1109b58a, PART_9, (17, 17, 8, 14), (10, 4, 16, 22));
  }

  lemma FeedsPart10()
    ensures Feeds(0xba40f86844, PART_10, 0xd12ef1a57f)
  {
    FourIs(0xba40f86844, (6, 5, 15, 5), 0x6bda50aecd, 0xa23951447b, 0x38cc5a03bf, 0x5e037fbe53);
    FourIs(0x5e037fbe53, (19, 21, 24, 18), 0xab4a698792, 0xe375a7670c, 0x26542f0a32, 0xd12ef1a57f);
    FeedSix(0xba40f86844, PART_10, (6, 5, 15, 5), (19, 21, 24, 18));
  }

  lemma FeedsPart11()
    ensures Feeds(0xd12ef1a57f, PART_11, 0xfca7d50a10)
  {
    FourIs(0xd12ef1a57f, (21, 18, 22, 0), 0xdf682d9460, 0xe26d4eae0e, 0x549162a7c, 0xa922c54f80);
    FourIs(0xa922c54f80, (19, 22, 15, 8), 0xae603e654a, 0x463f5b3c0f, 0xf0edd6e695, 0xfca7d50a10);
    FeedSix(0xd12ef1a57f, PART_11, (21, 18, 22, 0), (19, 22, 15, 8));
  }

  lemma FeedsPart12()
    ensures Feeds(0xfca7d50a10, PART_12, 0x54c03da31b)
  {
    FourIs(0xfca7d50a10, (24, 21, 18, 8), 0x80394d8329, 0x6364d20ac8, 0x4037e0dd45, 0x31faaacfd2);
    FourIs(0x31faaacfd2, (13, 0, 20, 15), 0x8d03832a72, 0x31e3e23834, 0x8e2a9dd6ab, 0x54c03da31b);
    FeedSix(0xfca7d50a10, PART_12, (24, 21, 18, 8), (13, 0, 20, 15));
  }

  lemma FeedsPart13()
    ensures Feeds(0x54c03da31b, PART_13, 0x882cff07da)
  {
    FourIs(0x54c03da31b, (20, 2, 24, 8), 0x6fccf371c, 0xdf99e6e382, 0xfc54205244, 0x9e47e689b9);
    FourIs(0x9e47e689b9, (5, 1, 21, 14), 0xf0929c7243, 0xf34e8790d9, 0x88cdfbc38d, 0x882cff07da);
    FeedSix(0x54c03da31b, PART_13, (20, 2, 24, 8), (5, 1, 21, 14));
  }

  lemma FeedsPart14()
    ensures Feeds(0x882cff07da, PART_14, 0x9fae7a135c)
  {
    FourIs(0x882cff07da, (12, 8, 14, 11), 0x940c678d38, 0x4c3c59fbe7, 0x45536b021d, 0x9d6bd124d1);
    FourIs(0x9d6bd124d1, (13, 23, 9, 10), 0x951469df4b, 0x6f3d93b598, 0x3ec1322ed7, 0x9fae7a135c);
    FeedSix(0x882cff07da, PART_14, (12, 8, 14, 11), (13, 23, 9, 10));
  }

  lemma FeedsPart15()
    ensures Feeds(0x9fae7a135c, PART_15, 0x7160534a49)
  {
    FourIs(0x9fae7a135c, (12, 14, 14, 13), 0xcda10f2eea, 0x12b4d3cc40, 0xff67b3bb1c, 0xf8359ba2bc);
    FourIs(0xf8359ba2bc, (4, 18, 6, 11), 0x12709896b5, 0xe7eed8e5a0, 0xb53bdf5fac, 0x7160534a49);
    FeedSix(0x9fae7a135c, PART_15, (12, 14, 14, 13), (4, 18, 6, 11));
  }

  lemma FeedsPart16()
    ensures Feeds(0x7160534a49, PART_16, 0x750b2ec0b8)
  {
    FourIs(0x7160534a49, (13, 5, 1, 20), 0xa95a02fe68, 0xa178c8585c, 0x50ff798751, 0x81144bbe5c);
    FourIs(0x81144bbe5c, (15, 4, 17, 11), 0x46c415a472, 0xef8405e93e, 0x4dbe9bd5f2, 0x750b2ec0b8);
    FeedSix(0x7160534a49, PART_16, (13, 5, 1, 20), (15, 4, 17, 11));
  }

  lemma FeedsPart17()
    ensures Feeds(0x750b2ec0b8, PART_17, 0xa2f9a915a8)
  {
    FourIs(0x750b2ec0b8, (7, 18, 21, 11), 0x2435b3a042, 0x9d1d64eb7f, 0x9bc2d02a93, 0x403448170d);
    FourIs(0x403448170d, (6, 9, 8, 26), 0x318fb386dc, 0x83a0aa0bb6, 0x1058231935, 0xa2f9a915a8);
    FeedSix(0x750b2ec0b8, PART_17, (7, 18, 21, 11), (6, 9, 8, 26));
  }

  lemma FeedsPart18()
    ensures Feeds(0xa2f9a915a8, PART_18, 0x164cba68d7)
  {
    FourIs(0xa2f9a915a8, (22, 7, 5, 0), 0x20d35039c6, 0x1c117dbea, 0x3822fb7d45, 0x43d7506116);
    FourIs(0x43d7506116, (8, 14, 1, 17), 0x4decbd45b2, 0x7f4ffcc8bd, 0x997117b96d, 0x164cba68d7);
    FeedSix(0xa2f9a915a8, PART_18, (22, 7, 5, 0), (8, 14, 1, 17));
  }

  lemma FeedsFront()
    ensures Feeds(0x1, FRONT_18, 0x164cba68d7)
  {
    hide Feeds;
    FeedsPart0();
    FeedsPart1();
    FeedsMore(1, PART_0, 0x841b49b0eb, PART_1, 0x203615b3ef);
    FeedsPart2();
    FeedsMore(1, FRONT_1, 0x203615b3ef, PART_2, 0x6e38468255);
    FeedsPart3();
    FeedsMore(1, FRONT_2, 0x6e38468255, PART_3, 0x35014ae51e);
    FeedsPart4();
    FeedsMore(1, FRONT_3, 0x35014ae51e, PART_4, 0xf75a000c0d);
    FeedsPart5();
    FeedsMore(1, FRONT_4, 0xf75a000c0d, PART_5, 0x3fe339f0fa);
    FeedsPart6();
    FeedsMore(1, FRONT_5, 0x3fe339f0fa, PART_6, 0xe72d56b17a);
    FeedsPart7();
    FeedsMore(1, FRONT_6, 0xe72d56b17a, PART_7, 0x167032e4ff);
    FeedsPart8();
    FeedsMore(1, FRONT_7, 0x167032e4ff, PART_8, 0x1c1109b58a);
    FeedsPart9();
    FeedsMore(1, FRONT_8, 0x1c1109b58a, PART_9, 0xba40f86844);
    FeedsPart10();
    FeedsMore(1, FRONT_9, 0xba40f86844, PART_10, 0xd12ef1a57f);
    FeedsPart11();
    FeedsMore(1, FRONT_10, 0xd12ef1a57f, PART_11, 0xfca7d50a10);
    FeedsPart12();
    FeedsMore(1, FRONT_11, 0xfca7d50a10, PART_12, 0x54c03da31b);
    FeedsPart13();
    FeedsMore(1, FRONT_12, 0x54c03da31b, PART_13, 0x882cff07da);
    FeedsPart14();
    FeedsMore(1, FRONT_13, 0x882cff07da, PART_14, 0x9fae7a135c);
    FeedsPart15();
    FeedsMore(1, FRONT_14, 0x9fae7a135c, PART_15, 0x7160534a49);
    FeedsPart16();
    FeedsMore(1, FRONT_15, 0x7160534a49, PART_16, 0x750b2ec0b8);
    FeedsPart17();
    FeedsMore(1, FRONT_16, 0x750b2ec0b8, PART_17, 0xa2f9a915a8);
    FeedsPart18();
    FeedsMore(1, FRONT_17, 0xa2f9a915a8, PART_18, 0x164cba68d7);
  }

  lemma FeedsReceivingEnd()
    ensures Feeds(0x164cba68d7, "AC/0/*", 0x89d7cef71f)
  {
    FourIs(0x164cba68d7, (18, 20, 16, 24), 0x606a8729e0, 0x21fd44b843, 0x240387eb5d, 0x9bdbed8895);
    FourIs(0x9bdbed8895, (0, 16, 17, 0), 0x4313fc57c6, 0x55793b9faa, 0x31dc08a139, 0x89d7cef71f);
    FeedSix(0x164cba68d7, "AC/0/*", (18, 20, 16, 24), (0, 16, 17, 0));
  }

  /** Checksums Litecoin Core gives: the receiving addresses of an extended public key... */
  lemma ReceivingAnswer()
    ensures Checksum(FRONT_18 + "AC/0/*" + ")") == Success("v39n29tr")
  {
    hide Feeds, Spells, Splits, Step, Four, Checksum;
    FeedsFront();
    FeedsReceivingEnd();
    FeedsMore(1, FRONT_18, 0x164cba68d7, "AC/0/*", 0x89d7cef71f);
    EndsReceivingAnswer();
    SpelledReceivingAnswer();
    KnownAnswer(0x89d7cef71f, FRONT_18 + "AC/0/*", ')', (11, 0), (12, 17, 5, 19), (10, 5, 11, 3), "v39n29tr");
    assert [')'] == ")";
  }

  lemma EndsReceivingAnswer()
    ensures Splits(')', 11, 0) && Four(Four(Step(Step(0x89d7cef71f, 11), 0), (12, 17, 5, 19)), (10, 5, 11, 3)) == 1
  {
  }

  lemma SpelledReceivingAnswer()
    ensures Spells("v39n29tr", 0, (12, 17, 5, 19)) && Spells("v39n29tr", 4, (10, 5, 11, 3))
  {
    hide Character;
    CharacterAt(12, 12);
    CharacterAt(17, 17);
    CharacterAt(5, 5);
    CharacterAt(19, 19);
    CharacterAt(10, 10);
    CharacterAt(5, 5);
    CharacterAt(11, 11);
    CharacterAt(3, 3);
  }

  lemma FeedsChangeEnd()
    ensures Feeds(0x164cba68d7, "AC/1/*", 0x89d7ce771f)
  {
    FourIs(0x164cba68d7, (18, 20, 16, 24), 0x606a8729e0, 0x21fd44b843, 0x240387eb5d, 0x9bdbed8895);
    FourIs(0x9bdbed8895, (1, 16, 17, 0), 0x4313fc57c7, 0x55793b9f8a, 0x31dc08a539, 0x89d7ce771f);
    FeedSix(0x164cba68d7, "AC/1/*", (18, 20, 16, 24), (1, 16, 17, 0));
  }

  /** ...and its change addresses. */
  lemma ChangeAnswer()
    ensures Checksum(FRONT_18 + "AC/1/*" + ")") == Success("a9qjhsmm")
  {
    hide Feeds, Spells, Splits, Step, Four, Checksum;
    FeedsFront();
    FeedsChangeEnd();
    FeedsMore(1, FRONT_18, 0x164cba68d7, "AC/1/*", 0x89d7ce771f);
    EndsChangeAnswer();
    SpelledChangeAnswer();
    KnownAnswer(0x89d7ce771f, FRONT_18 + "AC/1/*", ')', (11, 0), (29, 5, 0, 18), (23, 16, 27, 27), "a9qjhsmm");
    assert [')'] == ")";
  }

  lemma EndsChangeAnswer()
    ensures Splits(')', 11, 0) && Four(Four(Step(Step(0x89d7ce771f, 11), 0), (29, 5, 0, 18)), (23, 16, 27, 27)) == 1
  {
  }

  lemma SpelledChangeAnswer()
    ensures Spells("a9qjhsmm", 0, (29, 5, 0, 18)) && Spells("a9qjhsmm", 4, (23, 16, 27, 27))
  {
    hide Character;
    CharacterAt(29, 29);
    CharacterAt(5, 5);
    CharacterAt(0, 0);
    CharacterAt(18, 18);
    CharacterAt(23, 23);
    CharacterAt(16, 16);
    CharacterAt(27, 27);
    CharacterAt(27, 27);
  }
}
