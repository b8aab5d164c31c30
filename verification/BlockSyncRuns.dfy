/** What whole ticks, and runs of them, guarantee about the processed heights and their hashes. */
module BlockSyncRuns {
  import opened Numerals
  import opened Wrappers
  import opened BlockSync

  /** No height between 1 and the tip is missing. */
  ghost predicate Gapless(t: Table) { forall h: nat :: 1 <= h <= Tip(t) ==> h in t }

  /** The processed heights are exactly 1 to the tip. */
  ghost predicate OneToTip(t: Table) { Gapless(t) && 0 !in t }

  /** Node heights are far below the range of uint32. */
  predicate Sane(a: Answers) { a.state.Some? ==> a.state.value.height + BATCH_SIZE < UINT32 }

  predicate FromChain(a: Answers, chain: nat -> Hash, h: nat) { a.block(h).Some? ==> a.block(h).value == chain(h) }

  /** Every block the node hands out during the tick lies on this chain. */
  ghost predicate Serves(a: Answers, chain: nat -> Hash) { forall h: nat :: FromChain(a, chain, h) }

  // ---------------------------------------------------------------- the batch loop

  lemma {:induction false} OverwriteJoin(t: Table, block: nat -> Option<Hash>, lo: nat, mid: nat, hi: nat)
    requires lo <= mid <= hi
    ensures Overwrite(Overwrite(t, block, lo, mid), block, mid, hi) == Overwrite(t, block, lo, hi)
    decreases hi - mid
  {
    if mid < hi {
      OverwriteJoin(t, block, lo, mid, hi - 1);
    }
  }

  predicate FirstBatchLands(start: nat, current: nat, a: Answers, goal: nat) {
    var stop := BatchStop(start, current, goal);
    start < stop && AllFetched(a.block, start, stop) && a.commits(start)
  }

  /** How many heights the batches from `start` write. */
  function Written(start: nat, current: nat, a: Answers, goal: nat): nat
    decreases current + 1 - start
  {
    var stop := BatchStop(start, current, goal);
    if start > current || !FirstBatchLands(start, current, a, goal) then 0
    else if goal > 0 && stop > goal then stop - start
    else stop - start + Written(start + BATCH_SIZE, current, a, goal)
  }

  lemma FullBatch(start: nat, current: nat, a: Answers, goal: nat)
    requires start <= current
    ensures var stop := BatchStop(start, current, goal);
            && stop <= current + 1 && stop <= start + BATCH_SIZE
            && (goal == 0 || stop <= goal ==> start < stop && (stop == start + BATCH_SIZE || stop == current + 1))
  {
  }

  /** The batches write one gapless range of heights. */
  lemma {:induction false} BatchesTable(t: Table, start: nat, current: nat, a: Answers, goal: nat)
    ensures Batches(t, start, current, a, goal).table
      == Overwrite(t, a.block, start, start + Written(start, current, a, goal))
    decreases current + 1 - start
  {
    hide Overwrite, AllFetched, Range, Batches;
    BatchesStep(t, start, current, a, goal);
    var stop := BatchStop(start, current, goal);
    OverwriteNothing(t, a.block, start, start);
    if start <= current {
      FullBatch(start, current, a, goal);
      if FirstBatchLands(start, current, a, goal) && !(goal > 0 && stop > goal) {
        var next := start + BATCH_SIZE;
        BatchesTable(Overwrite(t, a.block, start, stop), next, current, a, goal);
        if stop == next {
          OverwriteJoin(t, a.block, start, stop, stop + Written(next, current, a, goal));
        } else {
          OverwriteNothing(Overwrite(t, a.block, start, stop), a.block, next, next);
        }
      } else if stop <= start {
        OverwriteNothing(t, a.block, start, stop);
      }
    }
  }

  lemma OverwriteNothing(t: Table, block: nat -> Option<Hash>, lo: nat, hi: nat)
    requires hi <= lo
    ensures Overwrite(t, block, lo, hi) == t
  {
  }

  lemma {:induction false} WrittenWithin(start: nat, current: nat, a: Answers, goal: nat)
    ensures var n := Written(start, current, a, goal);
            (n == 0 || start + n <= current + 1) && AllFetched(a.block, start, start + n)
    decreases current + 1 - start
  {
    hide BatchStop;
    if start <= current {
      FullBatch(start, current, a, goal);
      var stop := BatchStop(start, current, goal);
      if FirstBatchLands(start, current, a, goal) && !(goal > 0 && stop > goal) {
        WrittenWithin(start + BATCH_SIZE, current, a, goal);
        assert stop == start + BATCH_SIZE || Written(start + BATCH_SIZE, current, a, goal) == 0;
        assert Written(start, current, a, goal) == stop - start + Written(start + BATCH_SIZE, current, a, goal);
      }
    }
  }

  /** A scan that finishes has asked for every height of its range exactly once, in order, and has written them all;
      one that stops early has asked for a prefix of the range, and for no height twice. */
  lemma {:induction false} BatchesRequest(t: Table, start: nat, current: nat, a: Answers, goal: nat)
    ensures var r := Batches(t, start, current, a, goal);
            && r.requested == Range(start, start + |r.requested|)
            && (r.requested == [] || start + |r.requested| <= current + 1)
            && (r.outcome == Done ==> (r.requested == Range(start, current + 1)
                                       && Written(start, current, a, goal) == |r.requested|))
    decreases current + 1 - start
  {
    hide Overwrite, AllFetched, Batches;
    BatchesStep(t, start, current, a, goal);
    if start <= current {
      var stop := BatchStop(start, current, goal);
      var t' := Overwrite(t, a.block, start, stop);
      FullBatch(start, current, a, goal);
      if AllFetched(a.block, start, stop) && (start < stop ==> a.commits(start)) && !(goal > 0 && stop > goal) {
        var rest := Batches(t', start + BATCH_SIZE, current, a, goal);
        BatchesRequest(t', start + BATCH_SIZE, current, a, goal);
        assert Range(start, stop) + Range(stop, stop + |rest.requested|) == Range(start, stop + |rest.requested|);
      }
    }
  }

  // ---------------------------------------------------------------- the processed heights

  lemma TipIs(t: Table, h: nat)
    requires IsTip(t, h)
    ensures Tip(t) == h
  {
  }

  /** Writing a range that starts no later than just above the tip leaves no gap. */
  lemma OverwriteGapless(t: Table, block: nat -> Option<Hash>, lo: nat, n: nat)
    requires Gapless(t) && (n > 0 ==> lo <= Tip(t) + 1)
    ensures var r := Overwrite(t, block, lo, lo + n);
            Gapless(r) && Tip(r) == (if n > 0 && lo + n - 1 > Tip(t) then lo + n - 1 else Tip(t))
  {
    hide Overwrite, Tip;
    var r := Overwrite(t, block, lo, lo + n);
    OverwriteAt(t, block, lo, lo + n);
    if n == 0 {
      OverwriteNothing(t, block, lo, lo);
    } else {
      var top := if lo + n - 1 > Tip(t) then lo + n - 1 else Tip(t);
      assert IsTip(t, Tip(t)) by { TipHolds(t); }
      assert IsTip(r, top) by {
        assert lo in r;
      }
      TipIs(r, top);
    }
  }

  lemma TipHolds(t: Table)
    ensures IsTip(t, Tip(t))
  {
  }

  lemma EmptyTable()
    ensures Tip(map[]) == 0 && Gapless(map[])
  {
    TipIs(map[], 0);
  }

  /** The table a tick scans on: after the wipes, or untouched when the first block could not be checked. */
  ghost function Kept(t: Table, a: Answers): Table {
    if a.first.OutOfRange? || a.first.Unavailable? || a.first.OtherError? then t else AfterWipes(t, a)
  }

  lemma KeptGapless(t: Table, a: Answers)
    requires Gapless(t)
    ensures var k := Kept(t, a);
            Gapless(k) && (k == t || k == map[])
  {
    EmptyTable();
  }

  /** The tick gets as far as scanning for blocks. */
  predicate Scans(a: Answers, c: Config) {
    && (a.first.Found? || a.first.NotOnDisk?) && a.state.Some?
    && !(a.state.value.inIBD && c.fullChainNetwork)
  }

  ghost function Start(t: Table, a: Answers): nat
    requires a.state.Some?
  {
    (ResumeAfter(Kept(t, a), a.state.value) + 1) % UINT32
  }

  lemma TickScans(t: Table, a: Answers, c: Config)
    ensures Scans(a, c) ==> Tick(t, a, c) == Batches(Kept(t, a), Start(t, a), a.state.value.height, a, c.syncToHeight)
    ensures !Scans(a, c) ==> Tick(t, a, c).table == Kept(t, a)
    ensures !Scans(a, c) ==> Tick(t, a, c).outcome != Done && Tick(t, a, c).requested == []
    ensures Kept(t, a) == t || Kept(t, a) == map[]
  {
    hide Batches, Tip, ResumeAfter;
  }

  /** Where scanning starts: just above the tip, twenty below it after a replaced tip, at 0 when the tip is 19, and
      out of reach when it is lower than that. */
  lemma StartCases(t: Table, a: Answers)
    requires a.state.Some? && Sane(a) && (a.first.Found? || a.first.NotOnDisk?)
    ensures var k, s, start := Kept(t, a), a.state.value, Start(t, a);
            && Tip(k) <= s.height
            && (!TipReplaced(k, s) ==> start == Tip(k) + 1)
            && (TipReplaced(k, s) ==> Tip(k) == s.height)
            && (TipReplaced(k, s) ==> start == (s.height - 19) % UINT32)
            && (TipReplaced(k, s) && s.height >= 20 ==> start == s.height - 19)
            && (TipReplaced(k, s) && s.height < 19 ==> start > s.height)
            && (start == 0 <==> TipReplaced(k, s) && s.height == 19)
            && (start <= Tip(k) + 1 || start > s.height)
  {
    hide Tip;
    assert Tip(map[]) == 0 by { EmptyTable(); }
  }

  /** No tick ever leaves a gap: with failed batches, wipes, rewinds and sync goals, the processed heights from 1 up
      are always 1 to the tip. */
  lemma TickKeepsGapless(t: Table, a: Answers, c: Config)
    requires Gapless(t) && Sane(a)
    ensures Gapless(Tick(t, a, c).table)
  {
    hide Tick, Gapless, Start, Kept;
    TickScans(t, a, c);
    KeptGapless(t, a);
    if Scans(a, c) {
      StartCases(t, a);
      var k, s, start := Kept(t, a), a.state.value, Start(t, a);
      BatchesTable(k, start, s.height, a, c.syncToHeight);
      WrittenWithin(start, s.height, a, c.syncToHeight);
      OverwriteGapless(k, a.block, start, Written(start, s.height, a, c.syncToHeight));
    }
  }

  /** A replaced tip at height 19 rewinds to height 0, which the first batch then writes. */
  ghost predicate RewindsToZero(t: Table, a: Answers, c: Config) {
    && Scans(a, c) && TipReplaced(Kept(t, a), a.state.value) && a.state.value.height == 19
    && FirstBatchLands(0, 19, a, c.syncToHeight)
  }

  /** Height 0 is in the table after a tick exactly when it survived the wipes or the tick rewound to it. */
  lemma ZeroAppearsIff(t: Table, a: Answers, c: Config)
    requires Gapless(t) && Sane(a)
    ensures 0 in Tick(t, a, c).table <==> 0 in Kept(t, a) || RewindsToZero(t, a, c)
  {
    hide Tick, Gapless, Start, Kept, TipReplaced;
    TickScans(t, a, c);
    if Scans(a, c) {
      StartCases(t, a);
      var k, s, start := Kept(t, a), a.state.value, Start(t, a);
      var n := Written(start, s.height, a, c.syncToHeight);
      BatchesTable(k, start, s.height, a, c.syncToHeight);
      OverwriteAt(k, a.block, start, start + n);
      assert n > 0 <==> start <= s.height && FirstBatchLands(start, s.height, a, c.syncToHeight);
    }
  }

  /** Every tick that returns without error after scanning ends with the tip at the node's height. */
  lemma SuccessReachesTip(t: Table, a: Answers, c: Config)
    requires Gapless(t) && Sane(a) && Tick(t, a, c).outcome == Done
    ensures Tip(Tick(t, a, c).table) == a.state.value.height
  {
    hide Tick, Gapless, Start, Kept;
    TickScans(t, a, c);
    KeptGapless(t, a);
    StartCases(t, a);
    var k, s, start := Kept(t, a), a.state.value, Start(t, a);
    BatchesTable(k, start, s.height, a, c.syncToHeight);
    BatchesRequest(k, start, s.height, a, c.syncToHeight);
    OverwriteGapless(k, a.block, start, Written(start, s.height, a, c.syncToHeight));
  }

  /** Within a tick no height is asked for twice, and a successful tick asks for all heights of its range. */
  lemma AsksOnce(t: Table, a: Answers, c: Config)
    requires Sane(a)
    ensures var r := Tick(t, a, c);
            && (forall i, j :: 0 <= i < j < |r.requested| ==> r.requested[i] < r.requested[j] <= a.state.value.height)
            && (r.outcome == Done ==> forall h: nat :: h in r.requested <==> Start(t, a) <= h <= a.state.value.height)
  {
    hide Tick, Start, Kept;
    TickScans(t, a, c);
    if Scans(a, c) {
      var k, s, start := Kept(t, a), a.state.value, Start(t, a);
      BatchesRequest(k, start, s.height, a, c.syncToHeight);
      var asked := Batches(k, start, s.height, a, c.syncToHeight).requested;
      RangeIs(start, start + |asked|);
      RangeIs(start, s.height + 1);
    }
  }

  lemma RangeIs(lo: nat, hi: nat)
    ensures |Range(lo, hi)| == if lo <= hi then hi - lo else 0
    ensures forall i :: 0 <= i < |Range(lo, hi)| ==> Range(lo, hi)[i] == lo + i
    ensures forall h: nat :: h in Range(lo, hi) <==> lo <= h < hi
  {
    var r := Range(lo, hi);
    forall h: nat | lo <= h < hi ensures h in r {
      assert r[h - lo] == h;
    }
  }

  // ---------------------------------------------------------------- the hashes after a reorganisation

  /** The rows from height lo up to, but not including, hi are those of the chain. */
  ghost predicate Agrees(t: Table, chain: nat -> Hash, lo: nat, hi: nat) {
    forall h: nat :: lo <= h < hi ==> h in t && t[h] == chain(h)
  }

  /** Rows written from the chain are on it, and the others stay. */
  lemma WritesChain(t: Table, a: Answers, chain: nat -> Hash, lo: nat, hi: nat)
    requires Serves(a, chain) && AllFetched(a.block, lo, hi)
    ensures var r := Overwrite(t, a.block, lo, hi);
            && (forall h: nat :: h in r <==> h in t || lo <= h < hi)
            && (forall h: nat :: lo <= h < hi ==> r[h] == chain(h))
            && (forall h: nat :: h in t && !(lo <= h < hi) ==> r[h] == t[h])
  {
    hide Overwrite;
    OverwriteAt(t, a.block, lo, hi);
    var r := Overwrite(t, a.block, lo, hi);
    forall h: nat | lo <= h < hi ensures r[h] == chain(h) {
      assert FromChain(a, chain, h) && a.block(h).Some?;
    }
  }

  /** A successful tick repairs everything from its start up: afterwards the table agrees with the chain exactly when
      the rows below the start, which it keeps, already did. */
  lemma RepairIff(t: Table, a: Answers, c: Config, chain: nat -> Hash)
    requires Gapless(t) && Sane(a) && Serves(a, chain) && Tick(t, a, c).outcome == Done
    ensures Agrees(Tick(t, a, c).table, chain, 1, a.state.value.height + 1)
       <==> Agrees(Kept(t, a), chain, 1, Min(Start(t, a), a.state.value.height + 1))
  {
    hide Tick, Gapless, Start, Kept, Tip, TipReplaced, Overwrite, Batches, Range, Serves, AllFetched;
    TickScans(t, a, c);
    KeptGapless(t, a);
    StartCases(t, a);
    var k, s, start := Kept(t, a), a.state.value, Start(t, a);
    var n := Written(start, s.height, a, c.syncToHeight);
    BatchesTable(k, start, s.height, a, c.syncToHeight);
    BatchesRequest(k, start, s.height, a, c.syncToHeight);
    RangeIs(start, s.height + 1);
    WrittenWithin(start, s.height, a, c.syncToHeight);
    WritesChain(k, a, chain, start, start + n);
    var r := Tick(t, a, c).table;
    assert Gapless(k);
    forall h: nat | 1 <= h < s.height + 1 && start <= h ensures h in r && r[h] == chain(h) {
    }
    forall h: nat | 1 <= h < s.height + 1 && h < start ensures h in k && h in r && r[h] == k[h] {
      InGapless(k, h);
    }
  }

  lemma InGapless(t: Table, h: nat)
    requires Gapless(t) && 1 <= h <= Tip(t)
    ensures h in t
  {
    hide Tip;
  }

  /** The three reorganisations a tick repairs: a chain that only grew; one replaced at the same height, 20 or more,
      above a common block at most 20 below it; and one with another first block. */
  lemma ReorgRepaired(t: Table, a: Answers, c: Config, chain: nat -> Hash)
    requires Gapless(t) && Sane(a) && Serves(a, chain) && Tick(t, a, c).outcome == Done
    requires || Agrees(t, chain, 1, Tip(t) + 1)
             || (&& Tip(t) == a.state.value.height >= 20 && Tip(t) in t && t[Tip(t)] != a.state.value.hash
                 && Agrees(t, chain, 1, Tip(t) - 19))
             || a.first != Found(if 1 in t then t[1] else Hash(0))
    ensures Agrees(Tick(t, a, c).table, chain, 1, a.state.value.height + 1)
  {
    hide Tick, Start, Tip;
    RepairIff(t, a, c, chain);
    TickScans(t, a, c);
    StartCases(t, a);
    EmptyTable();
  }

  /** A replaced tip below height 19 is not repaired: the subtraction wraps and nothing is fetched. */
  lemma LowReorgStays(t: Table, a: Answers, c: Config)
    requires Sane(a) && Scans(a, c) && TipReplaced(Kept(t, a), a.state.value) && a.state.value.height < 19
    ensures Tick(t, a, c) == Step(Kept(t, a), Done, [])
  {
    hide Tip;
    TickScans(t, a, c);
    StartCases(t, a);
  }

  /** When the node's chain is longer than the table, nothing is rewound: the old rows stay, and the table agrees with
      the chain afterwards exactly when they already did. */
  lemma LongerChainKeeps(t: Table, a: Answers, c: Config, chain: nat -> Hash)
    requires Gapless(t) && Sane(a) && Serves(a, chain) && Tick(t, a, c).outcome == Done
    requires a.first == Found(if 1 in t then t[1] else Hash(0)) && Tip(t) < a.state.value.height
    ensures forall h: nat :: 1 <= h <= Tip(t) ==> h in t && h in Tick(t, a, c).table && Tick(t, a, c).table[h] == t[h]
    ensures Agrees(Tick(t, a, c).table, chain, 1, a.state.value.height + 1) <==> Agrees(t, chain, 1, Tip(t) + 1)
  {
    hide Tick, Start, Tip, Overwrite, Batches, Serves, AllFetched;
    RepairIff(t, a, c, chain);
    TickScans(t, a, c);
    StartCases(t, a);
    var s, start := a.state.value, Start(t, a);
    var n := Written(start, s.height, a, c.syncToHeight);
    BatchesTable(t, start, s.height, a, c.syncToHeight);
    WrittenWithin(start, s.height, a, c.syncToHeight);
    WritesChain(t, a, chain, start, start + n);
  }

  // ---------------------------------------------------------------- runs

  datatype Event = Event(answers: Answers, config: Config)

  /** The table after a run of ticks; the configuration may change between them. */
  ghost function Run(t: Table, events: seq<Event>): Table {
    if events == [] then t
    else
      var last := events[|events| - 1];
      Tick(Run(t, events[..|events| - 1]), last.answers, last.config).table
  }

  lemma {:induction false} RunGapless(events: seq<Event>)
    requires forall i :: 0 <= i < |events| ==> Sane(events[i].answers)
    ensures Gapless(Run(map[], events))
  {
    if events == [] {
      EmptyTable();
    } else {
      var front, last := events[..|events| - 1], events[|events| - 1];
      RunGapless(front);
      TickKeepsGapless(Run(map[], front), last.answers, last.config);
    }
  }

  ghost predicate EverRewindsToZero(events: seq<Event>) {
    exists i :: 0 <= i < |events| && RewindsToZero(Run(map[], events[..i]), events[i].answers, events[i].config)
  }

  /** One more tick of a run: what height 0 does. */
  lemma ZeroStep(events: seq<Event>, i: nat)
    requires i < |events| && forall j :: 0 <= j < |events| ==> Sane(events[j].answers)
    ensures var before, after := Run(map[], events[..i]), Run(map[], events[..i + 1]);
            && (0 in after ==> 0 in before || RewindsToZero(before, events[i].answers, events[i].config))
            && (RewindsToZero(before, events[i].answers, events[i].config) ==> 0 in after)
  {
    hide RewindsToZero, Tick, Gapless;
    assert events[..i + 1][..i] == events[..i];
    RunGapless(events[..i]);
    KeptGapless(Run(map[], events[..i]), events[i].answers);
    ZeroAppearsIff(Run(map[], events[..i]), events[i].answers, events[i].config);
  }

  lemma {:induction false} ZeroNever(events: seq<Event>, n: nat)
    requires n <= |events| && forall i :: 0 <= i < |events| ==> Sane(events[i].answers)
    requires !EverRewindsToZero(events)
    ensures 0 !in Run(map[], events[..n])
  {
    hide RewindsToZero, Tick, Gapless;
    if n > 0 {
      ZeroNever(events, n - 1);
      ZeroStep(events, n - 1);
    }
  }

  /** The processed heights are 1 to the tip throughout a run exactly when no tick of it rewinds a chain of height
      19. */
  lemma OneToTipThroughoutIff(events: seq<Event>)
    requires forall i :: 0 <= i < |events| ==> Sane(events[i].answers)
    ensures (forall n: nat :: n <= |events| ==> OneToTip(Run(map[], events[..n]))) <==> !EverRewindsToZero(events)
  {
    hide RewindsToZero, Tick, Gapless, Run;
    forall n: nat | n <= |events| ensures Gapless(Run(map[], events[..n])) {
      RunGapless(events[..n]);
    }
    if EverRewindsToZero(events) {
      var i :| 0 <= i < |events| && RewindsToZero(Run(map[], events[..i]), events[i].answers, events[i].config);
      ZeroStep(events, i);
      assert !OneToTip(Run(map[], events[..i + 1]));
    } else {
      forall n: nat | n <= |events| ensures 0 !in Run(map[], events[..n]) {
        ZeroNever(events, n);
      }
    }
  }

  // ---------------------------------------------------------------- runs that reach the failing inputs

  /** A tick on a chain whose blocks up to height h - 1 have hash 1 and whose tip has the given hash. */
  function TipTick(h: nat, tip: Hash): Event {
    var block := (k: nat) => Some(if k < h then Hash(1) else tip);
    Event(Answers(Found(Hash(1)), Some(ChainState(h, tip, false)), block, _ => true), Config(false, 0))
  }

  /** The first scan of such a chain processes heights 1 to h. */
  lemma FirstScan(h: nat)
    requires 1 < h < 20
    ensures var e := TipTick(h, Hash(1));
            var t := Run(map[], [e]);
            && Tip(t) == h && 0 !in t && forall k: nat :: 1 <= k <= h ==> k in t && t[k] == Hash(1)
  {
    hide Tip, Overwrite, Batches;
    var e := TipTick(h, Hash(1));
    var a := e.answers;
    assert [e][..0] == [];
    assert Run(map[], [e][..0]) == map[];
    EmptyTable();
    TickScans(map[], a, e.config);
    assert Start(map[], a) == 1;
    OneBatch(map[], 1, h, a);
    OverwriteAt(map[], a.block, 1, h + 1);
    TipIs(Overwrite(map[], a.block, 1, h + 1), h);
  }

  lemma OneBatch(t: Table, start: nat, h: nat, a: Answers)
    requires start <= h < start + BATCH_SIZE && AllFetched(a.block, start, h + 1) && a.commits(start)
    ensures Batches(t, start, h, a, 0) == Step(Overwrite(t, a.block, start, h + 1), Done, Range(start, h + 1))
  {
    hide Overwrite, AllFetched, Range;
    assert BatchStop(start, h, 0) == h + 1;
    BatchesStep(t, start, h, a, 0);
    var t' := Overwrite(t, a.block, start, h + 1);
    BatchesStep(t', start + BATCH_SIZE, h, a, 0);
    assert Range(start, h + 1) + [] == Range(start, h + 1);
  }

  /** Two ticks reach the replaced tip at every height from 2 to 19: heights 1 to h are processed, then the block at
      height h comes with another hash. At height 19 the rewind processes height 0; below it the second tick succeeds
      and leaves the replaced row as it was. */
  lemma ReplacedTip(h: nat)
    requires 1 < h < 20
    ensures var events := [TipTick(h, Hash(1)), TipTick(h, Hash(2))];
            && Sane(events[0].answers) && Sane(events[1].answers)
            && (h == 19 ==> EverRewindsToZero(events) && 0 in Run(map[], events))
            && (h < 19 ==>
                  var t := Run(map[], [events[0]]);
                  && Tick(t, events[1].answers, events[1].config) == Step(t, Done, [])
                  && h in t && t[h] != events[1].answers.state.value.hash)
  {
    hide Tip, Tick, Gapless;
    var first, second := TipTick(h, Hash(1)), TipTick(h, Hash(2));
    var events := [first, second];
    FirstScan(h);
    assert events[..1] == [first];
    var t := Run(map[], [first]);
    var a := second.answers;
    assert Kept(t, a) == t;
    assert TipReplaced(t, a.state.value);
    if h == 19 {
      assert FirstBatchLands(0, 19, a, 0);
      assert RewindsToZero(Run(map[], events[..1]), events[1].answers, events[1].config);
      RunGapless([first]);
      ZeroAppearsIff(t, a, second.config);
    } else {
      LowReorgStays(t, a, second.config);
    }
  }

  /** A tick on a chain of height h + 1 that replaces the block at height h as well. */
  function LongerTick(h: nat): Event {
    var block := (k: nat) => Some(if k < h then Hash(1) else Hash(2));
    Event(Answers(Found(Hash(1)), Some(ChainState(h + 1, Hash(2), false)), block, _ => true), Config(false, 0))
  }

  /** Two ticks reach such a chain: heights 1 to h are processed, then the block at height h comes with another hash
      and one more on top. The second tick succeeds, and the replaced row stays below the new tip. */
  lemma ReplacedBelowTip(h: nat)
    requires 1 < h < 20
    ensures var first, second := TipTick(h, Hash(1)), LongerTick(h);
            var step := Tick(Run(map[], [first]), second.answers, second.config);
            && Sane(first.answers) && Sane(second.answers)
            && step.outcome == Done && Tip(step.table) == h + 1
            && h in step.table && Some(step.table[h]) != second.answers.block(h)
  {
    hide Tip, Tick, Gapless, Overwrite, Batches;
    var first, second := TipTick(h, Hash(1)), LongerTick(h);
    FirstScan(h);
    RunGapless([first]);
    var t, a := Run(map[], [first]), second.answers;
    assert Kept(t, a) == t && Start(t, a) == h + 1;
    TickScans(t, a, second.config);
    OneBatch(t, h + 1, h + 1, a);
    SuccessReachesTip(t, a, second.config);
    LongerChainKeeps(t, a, second.config, (k: nat) => if k < h then Hash(1) else Hash(2));
  }

  // ---------------------------------------------------------------- runs on one chain

  ghost predicate OnChain(t: Table, chain: nat -> Hash) { forall h: nat :: h in t ==> t[h] == chain(h) }

  lemma TickOnChain(t: Table, a: Answers, c: Config, chain: nat -> Hash)
    requires OnChain(t, chain) && Serves(a, chain)
    ensures OnChain(Tick(t, a, c).table, chain)
  {
    hide Tick, Start, Kept, Tip, Serves, AllFetched, Overwrite, Batches, Written;
    TickScans(t, a, c);
    if Scans(a, c) {
      var k, s, start := Kept(t, a), a.state.value, Start(t, a);
      var n := Written(start, s.height, a, c.syncToHeight);
      BatchesTable(k, start, s.height, a, c.syncToHeight);
      WrittenWithin(start, s.height, a, c.syncToHeight);
      WritesChain(k, a, chain, start, start + n);
    }
  }

  lemma {:induction false} RunOnChain(events: seq<Event>, chain: nat -> Hash)
    requires forall i :: 0 <= i < |events| ==> Serves(events[i].answers, chain)
    ensures OnChain(Run(map[], events), chain)
  {
    hide Tick;
    if events != [] {
      var front, last := events[..|events| - 1], events[|events| - 1];
      RunOnChain(front, chain);
      TickOnChain(Run(map[], front), last.answers, last.config, chain);
    }
  }

  /** The block parser is told of the tip of this chain. */
  predicate Reports(a: Answers, chain: nat -> Hash) {
    a.state.Some? ==> a.state.value.hash == chain(a.state.value.height)
  }

  /** On one chain no tip is ever replaced, so that nothing rewinds. */
  lemma NeverRewinds(events: seq<Event>, chain: nat -> Hash)
    requires forall i :: 0 <= i < |events| ==> Serves(events[i].answers, chain) && Reports(events[i].answers, chain)
    ensures !EverRewindsToZero(events)
  {
    hide Tick, Serves, Tip, Run;
    forall i | 0 <= i < |events|
      ensures !RewindsToZero(Run(map[], events[..i]), events[i].answers, events[i].config)
    {
      var t, a := Run(map[], events[..i]), events[i].answers;
      RunOnChain(events[..i], chain);
      TickScans(t, a, events[i].config);
      TipHolds(Kept(t, a));
    }
  }

  /** However often batches failed, the table was wiped or a sync goal stopped the scan: once a tick of a run against
      one growing chain succeeds, the table is the one a single uninterrupted scan produces. */
  lemma RunEqualsOneScan(events: seq<Event>, chain: nat -> Hash)
    requires events != [] && forall i :: 0 <= i < |events| ==>
               Sane(events[i].answers) && Serves(events[i].answers, chain) && Reports(events[i].answers, chain)
    requires var before, last := Run(map[], events[..|events| - 1]), events[|events| - 1];
             Tick(before, last.answers, last.config).outcome == Done
    ensures Run(map[], events) == map h: nat | 1 <= h <= events[|events| - 1].answers.state.value.height :: chain(h)
  {
    hide Tick, Serves, Reports, Tip, EverRewindsToZero, Gapless;
    var before, last := Run(map[], events[..|events| - 1]), events[|events| - 1];
    RunGapless(events[..|events| - 1]);
    RunGapless(events);
    SuccessReachesTip(before, last.answers, last.config);
    RunOnChain(events, chain);
    NeverRewinds(events, chain);
    assert events[..|events|] == events;
    ZeroNever(events, |events|);
    TipHolds(Run(map[], events));
    assert last.answers.state.Some? by { TickScans(before, last.answers, last.config); }
  }
}
