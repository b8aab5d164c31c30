/** One tick of the block parser over its table of processed blocks, and whole runs of ticks. */
module BlockSync {
  import opened Numerals
  import opened Wrappers

  const BATCH_SIZE := 30
  const REWIND := 20

  datatype Hash = Hash(digest: nat)

  /** The all-zero hash of a row that is not there. */
  const ZERO_HASH := Hash(0)

  /** processed_blocks, by height. */
  type Table = map<nat, Hash>

  datatype FirstBlock = Found(hash: Hash) | NotOnDisk | OutOfRange | Unavailable | OtherError

  datatype ChainState = ChainState(height: nat, hash: Hash, inIBD: bool)

  /** What the node and the database answer during one tick: the block at height 1, the chain state (None when the
      call fails), the hash of the block at each height (None when fetching or inspecting it fails), and whether
      the transaction inserting the batch that starts at a height commits. */
  datatype Answers = Answers(first: FirstBlock, state: Option<ChainState>, block: nat -> Option<Hash>,
                             commits: nat -> bool)

  datatype Config = Config(fullChainNetwork: bool, syncToHeight: nat)

  /** Done, Waiting and Skipped are the ticks that return no error. */
  datatype Outcome = Done | Waiting | Skipped | GoalReached | Failed

  datatype Step = Step(table: Table, outcome: Outcome, requested: seq<nat>)

  function Min(a: int, b: int): int { if a <= b then a else b }

  // ---------------------------------------------------------------- the table

  lemma {:induction false} Greatest(s: set<nat>) returns (h: nat)
    requires s != {}
    ensures h in s && forall k :: k in s ==> k <= h
    decreases |s|
  {
    var first :| first in s;
    h := first;
    if s != {first} {
      var g := Greatest(s - {first});
      h := if g > first then g else first;
      assert forall k :: k in s ==> k == first || k in s - {first};
    }
  }

  ghost predicate IsTip(t: Table, h: nat) {
    if t == map[] then h == 0 else h in t && forall k :: k in t ==> k <= h
  }

  /** The greatest processed height, 0 for an empty table. */
  ghost function Tip(t: Table): (h: nat)
    ensures IsTip(t, h)
  {
    assert exists h: nat :: IsTip(t, h) by {
      if t != map[] {
        var g := Greatest(t.Keys);
        assert IsTip(t, g);
      } else {
        assert IsTip(t, 0);
      }
    }
    var h: nat :| IsTip(t, h);
    h
  }

  function Saved(t: Table, h: nat): Hash { if h in t then t[h] else ZERO_HASH }

  /** The table with the blocks of heights lo up to, but not including, hi written over it. */
  function Overwrite(t: Table, block: nat -> Option<Hash>, lo: nat, hi: nat): Table
    decreases hi - lo
  {
    if hi <= lo then t
    else Overwrite(t, block, lo, hi - 1)[hi - 1 := if block(hi - 1).Some? then block(hi - 1).value else ZERO_HASH]
  }

  function Range(lo: nat, hi: nat): seq<nat> { if hi <= lo then [] else seq(hi - lo, i requires 0 <= i => lo + i) }

  // ---------------------------------------------------------------- what a tick does to the table

  predicate AllFetched(block: nat -> Option<Hash>, lo: nat, hi: nat) {
    forall h: nat :: lo <= h < hi ==> block(h).Some?
  }

  function BatchStop(start: nat, current: nat, goal: nat): nat {
    var end := Min(start + BATCH_SIZE - 1, current);
    (if goal > 0 then Min(end, goal) else end) + 1
  }

  /** The batches from `start` up to the current height. */
  function Batches(t: Table, start: nat, current: nat, a: Answers, goal: nat): Step
    decreases current + 1 - start
  {
    if start > current then Step(t, Done, [])
    else
      var stop := BatchStop(start, current, goal);
      var asked := Range(start, stop);
      if !AllFetched(a.block, start, stop) || (start < stop && !a.commits(start)) then Step(t, Failed, asked)
      else
        var t' := Overwrite(t, a.block, start, stop);
        if goal > 0 && stop > goal then Step(t', GoalReached, asked)
        else
          var rest := Batches(t', start + BATCH_SIZE, current, a, goal);
          Step(rest.table, rest.outcome, asked + rest.requested)
  }

  predicate ChainSwitched(t: Table, first: FirstBlock) {
    first.NotOnDisk? || (first.Found? && first.hash != Saved(t, 1))
  }

  /** A table whose tip sits at the current height under another hash. */
  ghost predicate TipReplaced(t: Table, s: ChainState) {
    Tip(t) == s.height && (if t == map[] then ZERO_HASH else t[Tip(t)]) != s.hash
  }

  /** The height after which scanning resumes; the subtraction is that of uint32. */
  ghost function ResumeAfter(t: Table, s: ChainState): nat {
    if TipReplaced(t, s) then (Tip(t) - REWIND) % UINT32 else Tip(t)
  }

  /** The table after the wipes a tick starts with. */
  ghost function AfterWipes(t: Table, a: Answers): Table {
    var t' := if ChainSwitched(t, a.first) then map[] else t;
    if a.state.Some? && Tip(t') > a.state.value.height then map[] else t'
  }

  ghost function Tick(t: Table, a: Answers, c: Config): Step {
    if a.first.OutOfRange? || a.first.Unavailable? then Step(t, Waiting, [])
    else if a.first.OtherError? then Step(t, Failed, [])
    else
      var kept := AfterWipes(t, a);
      if a.state.None? then Step(kept, Failed, [])
      else
        var s := a.state.value;
        if s.inIBD && c.fullChainNetwork then Step(kept, Skipped, [])
        else Batches(kept, (ResumeAfter(kept, s) + 1) % UINT32, s.height, a, c.syncToHeight)
  }

  // ---------------------------------------------------------------- the parser

  predicate Has(results: seq<(nat, Hash)>, h: nat) {
    exists i :: 0 <= i < |results| && results[i].0 == h
  }

  /** Fetched blocks arrive in any order: the contract only fixes which ones. */
  ghost predicate Fetches(results: seq<(nat, Hash)>, block: nat -> Option<Hash>, lo: nat, hi: nat) {
    && (forall i :: 0 <= i < |results| ==> lo <= results[i].0 < hi && block(results[i].0) == Some(results[i].1))
    && (forall h: nat :: lo <= h < hi ==> Has(results, h))
  }

  class Parser {
    const config: Config
    var processed: Table
    /** Heights handed to the worker pool, in order. */
    ghost var requested: seq<nat>

    constructor (config: Config)
      ensures this.config == config && processed == map[] && requested == []
    {
      this.config := config;
      processed := map[];
      requested := [];
    }

    method GetProcessedTip() returns (tip: Option<(nat, Hash)>)
      ensures tip.None? <==> processed == map[]
      ensures tip.Some? ==> tip.value.0 == Tip(processed) && tip.value.0 in processed
      ensures tip.Some? ==> tip.value.1 == processed[tip.value.0]
    {
      var keys := processed.Keys;
      if keys == {} {
        assert processed == map[];
        return None;
      }
      var h :| h in keys;
      keys := keys - {h};
      while keys != {}
        invariant h in processed && keys <= processed.Keys
        invariant forall k :: k in processed && k !in keys ==> k <= h
        decreases |keys|
      {
        var k :| k in keys;
        keys := keys - {k};
        h := if k > h then k else h;
      }
      return Some((h, processed[h]));
    }

    method WipeProcessedBlocks()
      modifies this`processed
      ensures processed == map[]
    {
      processed := map[];
    }

    /** Upserts the rows of one transaction. */
    method MarkBlocksProcessed(rows: seq<(nat, Hash)>, ghost block: nat -> Option<Hash>, ghost lo: nat, ghost hi: nat)
      requires Fetches(rows, block, lo, hi)
      modifies this`processed
      ensures processed == Overwrite(old(processed), block, lo, hi)
    {
      for i := 0 to |rows|
        invariant forall h: nat :: h in processed <==> h in old(processed) || Has(rows[..i], h)
        invariant forall h: nat :: h in processed && Has(rows[..i], h) ==> block(h) == Some(processed[h])
        invariant forall h: nat :: h in processed && !Has(rows[..i], h) ==>
          h in old(processed) && processed[h] == old(processed)[h]
      {
        forall h: nat ensures Has(rows[..i + 1], h) <==> Has(rows[..i], h) || h == rows[i].0 {
          HasMore(rows, i, h);
        }
        processed := processed[rows[i].0 := rows[i].1];
      }
      OverwriteAt(old(processed), block, lo, hi);
      assert rows[..|rows|] == rows;
      ghost var want := Overwrite(old(processed), block, lo, hi);
      assert forall h: nat :: Has(rows, h) ==> lo <= h < hi;
      assert processed.Keys == want.Keys;
      assert processed == want;
    }

    /** The block fetches of one batch; None when one of them fails. */
    method FetchBatch(lo: nat, hi: nat, block: nat -> Option<Hash>) returns (results: Option<seq<(nat, Hash)>>)
      modifies this`requested
      ensures requested == old(requested) + Range(lo, hi)
      ensures results.Some? <==> AllFetched(block, lo, hi)
      ensures results.Some? ==> Fetches(results.value, block, lo, hi)
    {
      var found: seq<(nat, Hash)> := [];
      var failed := false;
      var height := lo;
      while height < hi
        invariant lo <= height && (height <= hi || height == lo)
        invariant requested == old(requested) + Range(lo, height)
        invariant failed <==> !AllFetched(block, lo, height)
        invariant !failed ==> Fetches(found, block, lo, height)
      {
        requested := requested + [height];
        assert Range(lo, height + 1) == Range(lo, height) + [height];
        match block(height) {
          case None => failed := true;
          case Some(hash) =>
            ghost var before := found;
            found := found + [(height, hash)];
            if !failed {
              FetchesMore(before, block, lo, height, hash);
            }
        }
        height := height + 1;
      }
      assert Range(lo, height) == Range(lo, hi);
      return if failed then None else Some(found);
    }

    /** Wipes the table when the first block is gone or is not the saved one; Some gives a reason to stop the tick. */
    method EnsureSyncIsHealthy(first: FirstBlock) returns (stop: Option<Outcome>)
      modifies this`processed
      ensures stop == if first.OutOfRange? || first.Unavailable? then Some(Waiting)
        else if first.OtherError? then Some(Failed) else None
      ensures processed == if stop.None? && ChainSwitched(old(processed), first) then map[] else old(processed)
      ensures first.NotOnDisk? ==> processed == map[]
      ensures first.Found? && 1 in old(processed) && old(processed)[1] != first.hash ==> processed == map[]
      ensures first.Found? && 1 in old(processed) && old(processed)[1] == first.hash ==> processed == old(processed)
    {
      match first {
        case OutOfRange | Unavailable => return Some(Waiting);
        case OtherError => return Some(Failed);
        case NotOnDisk => WipeProcessedBlocks();
        case Found(hash) =>
          if hash != Saved(processed, 1) {
            WipeProcessedBlocks();
          }
      }
      return None;
    }

    method HandleBlockTick(a: Answers) returns (outcome: Outcome)
      requires a.state.Some? ==> a.state.value.height + BATCH_SIZE < UINT32
      modifies this
      ensures var step := Tick(old(processed), a, config);
              processed == step.table && outcome == step.outcome && requested == old(requested) + step.requested
    {
      hide Batches, Overwrite;
      var stop := EnsureSyncIsHealthy(a.first);
      if stop.Some? {
        return stop.value;
      }
      var tip := GetProcessedTip();
      var lastHeight, lastHash := 0, ZERO_HASH;
      if tip.Some? {
        lastHeight, lastHash := tip.value.0, tip.value.1;
      }
      if a.state.None? {
        return Failed;
      }
      var s := a.state.value;
      if lastHeight > s.height {
        WipeProcessedBlocks();
        lastHeight, lastHash := 0, ZERO_HASH;
      }
      assert processed == AfterWipes(old(processed), a) && lastHeight == Tip(processed);
      if s.inIBD && config.fullChainNetwork {
        return Skipped;
      }
      if lastHeight == s.height && lastHash != s.hash {
        lastHeight := (lastHeight - REWIND) % UINT32;
      }
      outcome := ScanFrom((lastHeight + 1) % UINT32, s.height, a);
    }

    /** The batch loop. */
    method ScanFrom(first: nat, current: nat, a: Answers) returns (outcome: Outcome)
      requires current + BATCH_SIZE < UINT32
      modifies this
      ensures var step := Batches(old(processed), first, current, a, config.syncToHeight);
              processed == step.table && outcome == step.outcome && requested == old(requested) + step.requested
    {
      hide Batches, Overwrite, AllFetched, Fetches, Range;
      var goal := config.syncToHeight;
      ghost var whole := Batches(processed, first, current, a, goal);
      ghost var asked := requested;
      var batchStart := first;
      while batchStart <= current
        invariant var rest := Batches(processed, batchStart, current, a, goal);
                  && whole.table == rest.table && whole.outcome == rest.outcome
                  && asked + whole.requested == requested + rest.requested
        decreases current + 1 - batchStart
      {
        var batchEnd := Min(batchStart + BATCH_SIZE - 1, current);
        if goal > 0 {
          batchEnd := Min(batchEnd, goal);
        }
        BatchesStep(processed, batchStart, current, a, goal);
        assert batchEnd + 1 == BatchStop(batchStart, current, goal);
        ghost var before := requested;
        var results := FetchBatch(batchStart, batchEnd + 1, a.block);
        if results.None? {
          return Failed;
        }
        if results.value != [] && !a.commits(batchStart) {
          FetchesSomething(results.value, a.block, batchStart, batchEnd + 1);
          return Failed;
        }
        FetchesSomething(results.value, a.block, batchStart, batchEnd + 1);
        MarkBlocksProcessed(results.value, a.block, batchStart, batchEnd + 1);
        if goal > 0 && batchEnd >= goal {
          return GoalReached;
        }
        ghost var rest := Batches(processed, batchStart + BATCH_SIZE, current, a, goal);
        assert before + (Range(batchStart, batchEnd + 1) + rest.requested)
            == before + Range(batchStart, batchEnd + 1) + rest.requested;
        batchStart := (batchStart + BATCH_SIZE) % UINT32;
      }
      BatchesStep(processed, batchStart, current, a, goal);
      return Done;
    }
  }

  lemma BatchesStep(t: Table, start: nat, current: nat, a: Answers, goal: nat)
    ensures Batches(t, start, current, a, goal)
         == (var stop := BatchStop(start, current, goal);
             if start > current then Step(t, Done, [])
             else if !AllFetched(a.block, start, stop) || (start < stop && !a.commits(start)) then
               Step(t, Failed, Range(start, stop))
             else if goal > 0 && stop > goal then
               Step(Overwrite(t, a.block, start, stop), GoalReached, Range(start, stop))
             else
               var rest := Batches(Overwrite(t, a.block, start, stop), start + BATCH_SIZE, current, a, goal);
               Step(rest.table, rest.outcome, Range(start, stop) + rest.requested))
  {
    hide Overwrite, AllFetched, Range, BatchStop;
  }

  lemma HasMore(rows: seq<(nat, Hash)>, i: nat, h: nat)
    requires i < |rows|
    ensures Has(rows[..i + 1], h) <==> Has(rows[..i], h) || h == rows[i].0
  {
    var more, less := rows[..i + 1], rows[..i];
    if Has(less, h) {
      var j :| 0 <= j < |less| && less[j].0 == h;
      assert more[j].0 == h;
    }
    if h == rows[i].0 {
      assert more[i].0 == h;
    }
    if Has(more, h) && h != rows[i].0 {
      var j :| 0 <= j < |more| && more[j].0 == h;
      assert less[j].0 == h;
    }
  }

  lemma FetchesMore(results: seq<(nat, Hash)>, block: nat -> Option<Hash>, lo: nat, h: nat, hash: Hash)
    requires lo <= h && Fetches(results, block, lo, h) && block(h) == Some(hash)
    ensures Fetches(results + [(h, hash)], block, lo, h + 1)
  {
    var more := results + [(h, hash)];
    forall k: nat | lo <= k < h + 1 ensures Has(more, k) {
      HasMore(more, |results|, k);
      assert more[..|results|] == results && more[..|results| + 1] == more;
    }
  }

  lemma FetchesSomething(results: seq<(nat, Hash)>, block: nat -> Option<Hash>, lo: nat, hi: nat)
    requires Fetches(results, block, lo, hi)
    ensures results == [] <==> hi <= lo
  {
    if lo < hi {
      assert Has(results, lo);
    }
    if results != [] {
      assert lo <= results[0].0 < hi;
    }
  }

  lemma {:induction false} OverwriteAt(t: Table, block: nat -> Option<Hash>, lo: nat, hi: nat)
    ensures forall h: nat :: h in Overwrite(t, block, lo, hi) <==> h in t || lo <= h < hi
    ensures forall h: nat :: lo <= h < hi && block(h).Some? ==> Overwrite(t, block, lo, hi)[h] == block(h).value
    ensures forall h: nat :: h in t && !(lo <= h < hi) ==> Overwrite(t, block, lo, hi)[h] == t[h]
    decreases hi - lo
  {
    if lo < hi {
      OverwriteAt(t, block, lo, hi - 1);
    }
  }
}
