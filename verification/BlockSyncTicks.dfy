/** Ticks in numbers: what a tick asks for and what it leaves in the table, case by case. */
module BlockSyncTicks {
  import opened Numerals
  import opened Wrappers
  import opened BlockSync
  import opened BlockSyncRuns

  /** `tip` is the greatest height of the table, 0 if it is empty. */
  ghost predicate TopOf(t: Table, tip: nat) {
    if t == map[] then tip == 0 else tip in t && forall h :: h in t ==> h <= tip
  }

  /** The block at height 1 is gone, or is not the one in the table; a missing row counts as the zero hash. */
  predicate OtherFirst(t: Table, first: FirstBlock) {
    match first
    case NotOnDisk => true
    case Found(hash) => hash != if 1 in t then t[1] else Hash(0)
    case _ => false
  }

  /** Nothing of the table survives when the first block is another one or the node's chain is shorter. */
  predicate Dropped(t: Table, tip: nat, a: Answers) {
    OtherFirst(t, a.first) || (a.state.Some? && tip > a.state.value.height)
  }

  /** The first height a successful tick asks for: from 1 on after a wipe; from 19 below the tip on if the node has
      another block at its height, where 19 itself means 0 and less means nothing; from above the tip on otherwise. */
  function From(t: Table, tip: nat, a: Answers): nat
    requires a.state.Some?
  {
    var s := a.state.value;
    if Dropped(t, tip, a) then 1
    else if t != map[] && tip in t && tip == s.height && t[tip] != s.hash then
      if tip < 19 then tip + 1 else tip - 19
    else tip + 1
  }

  lemma AfterWipesIs(t: Table, tip: nat, a: Answers)
    requires TopOf(t, tip)
    ensures AfterWipes(t, a) == if Dropped(t, tip, a) then map[] else t
  {
    TipIs(t, tip);
    EmptyTable();
  }

  lemma StartIs(t: Table, tip: nat, a: Answers)
    requires TopOf(t, tip) && a.state.Some? && Sane(a)
    requires a.first.Found? || a.first.NotOnDisk?
    ensures var start, from, height := Start(t, a), From(t, tip, a), a.state.value.height;
            start == from || (start > height && from > height)
  {
    hide Tip;
    AfterWipesIs(t, tip, a);
    TipIs(t, tip);
    EmptyTable();
  }

  /** A tick that succeeds, in full: it has asked for every height from its start to the node's height, in order and
      once; those rows hold the blocks the node has given; the rows below are the old ones, unless they were wiped;
      and there are no others. */
  lemma SuccessfulTick(t: Table, tip: nat, a: Answers, c: Config)
    requires TopOf(t, tip) && (a.state.Some? ==> a.state.value.height + 30 < 0x1_0000_0000)
    requires Tick(t, a, c).outcome == Done
    ensures a.state.Some? && (a.first.Found? || a.first.NotOnDisk?)
    ensures var step, from, height := Tick(t, a, c), From(t, tip, a), a.state.value.height;
            && step.requested == (if from > height then [] else seq(height + 1 - from, i => from + i))
            && (forall h: nat :: h in step.table <==> (h in t && !Dropped(t, tip, a)) || from <= h <= height)
            && (forall h: nat :: from <= h <= height ==> a.block(h) == Some(step.table[h]))
            && (forall h: nat :: h in t && !Dropped(t, tip, a) && !(from <= h <= height) ==> step.table[h] == t[h])
  {
    hide Tip, Start, Batches, Overwrite, AllFetched, Dropped, From, AfterWipes, Written;
    TickScans(t, a, c);
    assert Kept(t, a) == AfterWipes(t, a);
    AfterWipesIs(t, tip, a);
    StartIs(t, tip, a);
    var k, s, start := Kept(t, a), a.state.value, Start(t, a);
    var n := Written(start, s.height, a, c.syncToHeight);
    BatchesTable(k, start, s.height, a, c.syncToHeight);
    BatchesRequest(k, start, s.height, a, c.syncToHeight);
    WrittenWithin(start, s.height, a, c.syncToHeight);
    OverwriteAt(k, a.block, start, start + n);
    RangeIs(start, s.height + 1);
    FetchedRange(a.block, start, start + n);
  }

  lemma FetchedRange(block: nat -> Option<Hash>, lo: nat, hi: nat)
    requires AllFetched(block, lo, hi)
    ensures forall h: nat :: lo <= h < hi ==> block(h).Some?
  {
  }

  // ---------------------------------------------------------------- another first block

  /** When block 1 is another one than the table's, or is no longer on disk, a successful tick asks for exactly the
      heights 1 to the node's, and afterwards the table holds exactly those, each as the chain has it. */
  lemma OtherFirstBlock(t: Table, a: Answers, c: Config, chain: nat -> Hash)
    requires a.state.Some? ==> a.state.value.height + 30 < 0x1_0000_0000
    requires a.first.NotOnDisk? || (a.first.Found? && 1 in t && t[1] != a.first.hash)
    requires Serves(a, chain) && Tick(t, a, c).outcome == Done
    ensures a.state.Some?
    ensures var step, height := Tick(t, a, c), a.state.value.height;
            && (forall h: nat :: h in step.requested <==> 1 <= h <= height)
            && step.table == map h: nat | 1 <= h <= height :: chain(h)
  {
    hide Tick;
    var tip := Tip(t);
    assert TopOf(t, tip) by { TipHolds(t); }
    SuccessfulTick(t, tip, a, c);
    var step, height := Tick(t, a, c), a.state.value.height;
    assert From(t, tip, a) == 1;
    forall h: nat ensures h in step.requested <==> 1 <= h <= height {
      if 1 <= h <= height {
        assert step.requested[h - 1] == h;
      }
    }
    forall h: nat | 1 <= h <= height ensures step.table[h] == chain(h) {
      assert FromChain(a, chain, h);
    }
  }

  /** However such a tick ends, no old row is left: every row holds the block this tick was given for its height. */
  lemma NoOldRowLeft(t: Table, a: Answers, c: Config)
    requires a.state.Some? ==> a.state.value.height + 30 < 0x1_0000_0000
    requires a.first.NotOnDisk? || (a.first.Found? && 1 in t && t[1] != a.first.hash)
    ensures forall h: nat :: h in Tick(t, a, c).table ==> h >= 1 && a.block(h) == Some(Tick(t, a, c).table[h])
  {
    hide Tip, Start, Batches, Overwrite, AllFetched, Written;
    TickScans(t, a, c);
    TipHolds(t);
    AfterWipesIs(t, Tip(t), a);
    assert Kept(t, a) == map[];
    if Scans(a, c) {
      StartIs(t, Tip(t), a);
      var s, start := a.state.value, Start(t, a);
      var n := Written(start, s.height, a, c.syncToHeight);
      BatchesTable(map[], start, s.height, a, c.syncToHeight);
      WrittenWithin(start, s.height, a, c.syncToHeight);
      OverwriteAt(map[], a.block, start, start + n);
      FetchedRange(a.block, start, start + n);
    }
  }

  // ---------------------------------------------------------------- ticks that scan nothing

  /** Ticks that do not get as far as scanning ask for nothing: they keep the table while block 1 is out of reach, and
      otherwise have wiped it if it had to be wiped. */
  lemma QuietTicks(t: Table, tip: nat, a: Answers, c: Config)
    requires TopOf(t, tip)
    ensures var step, kept := Tick(t, a, c), if Dropped(t, tip, a) then map[] else t;
            && (a.first.OutOfRange? || a.first.Unavailable? ==> step == Step(t, Waiting, []))
            && (a.first.OtherError? ==> step == Step(t, Failed, []))
            && (a.first.Found? || a.first.NotOnDisk? ==>
                  && (a.state.None? ==> step == Step(kept, Failed, []))
                  && (a.state.Some? && a.state.value.inIBD && c.fullChainNetwork ==> step == Step(kept, Skipped, [])))
  {
    hide Tip, Batches;
    AfterWipesIs(t, tip, a);
  }

  // ---------------------------------------------------------------- scans that stop early

  /** A scan that meets a block it cannot fetch keeps the whole batches of thirty before it and nothing else, and asks
      for no height beyond that batch. */
  lemma {:induction false} FailedScan(t: Table, start: nat, current: nat, a: Answers, x: nat)
    requires start <= x <= current && a.block(x).None? && forall h: nat :: start <= h < x ==> a.block(h).Some?
    requires forall h: nat :: a.commits(h)
    ensures var step, keep := Batches(t, start, current, a, 0), start + (x - start) / 30 * 30;
            && step.outcome == Failed
            && step.table == Overwrite(t, a.block, start, keep)
            && step.requested == Range(start, Min(keep + 30, current + 1))
    decreases current - start
  {
    hide Overwrite, AllFetched, Range, Batches;
    BatchesStep(t, start, current, a, 0);
    var stop := BatchStop(start, current, 0);
    assert stop == Min(start + 30, current + 1);
    if x < start + 30 {
      assert (x - start) / 30 * 30 == 0;
      assert !AllFetched(a.block, start, stop) by { FetchesAll(a.block, start, stop); }
      OverwriteNothing(t, a.block, start, start);
    } else {
      assert AllFetched(a.block, start, stop) by { FetchesAll(a.block, start, stop); }
      var next := start + 30;
      var t' := Overwrite(t, a.block, start, next);
      FailedScan(t', next, current, a, x);
      var keep := next + (x - next) / 30 * 30;
      assert keep == start + (x - start) / 30 * 30;
      OverwriteJoin(t, a.block, start, next, keep);
      RangesJoin(start, next, Min(keep + 30, current + 1));
    }
  }

  lemma FetchesAll(block: nat -> Option<Hash>, lo: nat, hi: nat)
    ensures AllFetched(block, lo, hi) <==> forall h: nat :: lo <= h < hi ==> block(h).Some?
  {
  }

  lemma RangesJoin(lo: nat, mid: nat, hi: nat)
    requires lo <= mid <= hi
    ensures Range(lo, mid) + Range(mid, hi) == Range(lo, hi)
  {
  }

  /** With a sync goal in range, a scan that can fetch everything writes the heights up to the goal, asks for no other
      and reports the goal; starting above the goal it asks for nothing. */
  lemma {:induction false} GoalScan(t: Table, start: nat, current: nat, a: Answers, goal: nat)
    requires 0 < goal <= current && start <= current
    requires (forall h: nat :: start <= h <= goal ==> a.block(h).Some?) && forall h: nat :: a.commits(h)
    ensures Batches(t, start, current, a, goal)
         == Step(Overwrite(t, a.block, start, goal + 1), GoalReached, Range(start, goal + 1))
    decreases current - start
  {
    hide Overwrite, AllFetched, Range, Batches;
    BatchesStep(t, start, current, a, goal);
    var stop := BatchStop(start, current, goal);
    assert stop == Min(Min(start + 30, current + 1), goal + 1);
    assert AllFetched(a.block, start, stop) by { FetchesAll(a.block, start, stop); }
    if stop <= goal {
      var t' := Overwrite(t, a.block, start, stop);
      GoalScan(t', start + 30, current, a, goal);
      OverwriteJoin(t, a.block, start, stop, goal + 1);
      RangesJoin(start, stop, goal + 1);
    }
  }
}
