/** Whole runs of cached listings against one growing chain, compared with a single full scan: the last row of every
    bundle, and the rows themselves. */
module WithdrawalRuns {
  import opened Wrappers
  import opened WithdrawalEvents
  import opened WithdrawalCache

  /** A chain as the validator sees it, and whether its peg data include the block the request starts from. */
  datatype Chain = Chain(hash: nat -> string, item: nat -> Item, activation: nat, inclusive: bool)

  function Items(c: Chain, lo: nat, hi: nat): seq<Item>
    decreases hi - lo
  {
    if hi <= lo then [] else Items(c, lo, hi - 1) + [c.item(hi - 1)]
  }

  /** The peg data between two blocks. */
  function Delivered(c: Chain, lo: nat, hi: nat): seq<Item> { Items(c, if c.inclusive then lo else lo + 1, hi + 1) }

  /** The entries a full scan up to this height reads. */
  function Stream(c: Chain, h: nat): seq<Entry> { Entries(Delivered(c, c.activation, h)) }

  ghost predicate Answered(c: Chain, a: Answers, lo: nat, hi: nat) {
    a.pegData(c.hash(lo), c.hash(hi)).Some? ==> a.pegData(c.hash(lo), c.hash(hi)).value == Delivered(c, lo, hi)
  }

  /** The validator fails or answers from this chain. */
  ghost predicate Honest(a: Answers, c: Chain) {
    && (a.tip.Some? ==> a.tip.value.hash == c.hash(a.tip.value.height))
    && (a.activation.Some? ==> a.activation.value == c.activation)
    && (a.activationHash.Some? ==> a.activationHash.value == c.hash(c.activation))
    && (forall lo: nat, hi: nat :: lo <= hi ==> Answered(c, a, lo, hi))
  }

  ghost predicate DistinctHashes(c: Chain) { forall x: nat, y: nat :: c.hash(x) == c.hash(y) ==> x == y }

  /** No settled bundle ends up pending, however far the chain is read. */
  ghost predicate NeverReopens(c: Chain) { forall h: nat :: !EndsReopened(Stream(c, h)) }

  /** The last row of every bundle has the state a full scan up to the cached block gives it. */
  ghost predicate Sound(v: Option<View>, c: Chain) {
    v.Some? ==>
      && v.value.activationHeight == c.activation <= v.value.lastBlockHeight
      && v.value.lastBlockHash == c.hash(v.value.lastBlockHeight)
      && SameCores(Scan(v.value.rows), Scan(Stream(c, v.value.lastBlockHeight)))
  }

  lemma {:induction false} ItemsJoin(c: Chain, lo: nat, mid: nat, hi: nat)
    requires lo <= mid <= hi
    ensures Items(c, lo, hi) == Items(c, lo, mid) + Items(c, mid, hi)
    decreases hi - mid
  {
    if mid < hi {
      ItemsJoin(c, lo, mid, hi - 1);
    }
  }

  lemma {:induction false} EntriesJoin(a: seq<Item>, b: seq<Item>)
    ensures Entries(a + b) == Entries(a) + Entries(b)
  {
    hide Entries, BlockEntries;
    EntriesStep(b);
    if b == [] {
      assert a + b == a && Entries(b) == [] by { assert b[..0] == b; }
      assert Entries(a) + [] == Entries(a);
    } else {
      var front, last := b[..|b| - 1], b[|b| - 1];
      EntriesJoin(a, front);
      EntriesStep(a + b);
      assert (a + b)[..|a + b| - 1] == a + front && (a + b)[|a + b| - 1] == last;
      var more := if last.Block? then BlockEntries(last.height, last.events) else [];
      assert Entries(a) + Entries(front) + more == Entries(a) + (Entries(front) + more);
    }
  }

  /** A full scan to h reads a scan to h0 and then the blocks above it. */
  lemma StreamGrows(c: Chain, h0: nat, h: nat)
    requires c.activation <= h0 <= h
    ensures Stream(c, h) == Stream(c, h0) + Entries(Items(c, h0 + 1, h + 1))
  {
    hide Items, Entries;
    var lo := if c.inclusive then c.activation else c.activation + 1;
    ItemsJoin(c, lo, h0 + 1, h + 1);
    EntriesJoin(Items(c, lo, h0 + 1), Items(c, h0 + 1, h + 1));
  }

  /** What an incremental fetch reads: the boundary block's entries once more, if the validator includes it, and the
      blocks above it. */
  lemma FetchReads(c: Chain, h0: nat, h: nat) returns (n: nat)
    requires c.activation <= h0 <= h
    ensures n <= |Stream(c, h0)|
    ensures Entries(Delivered(c, h0, h)) == Stream(c, h0)[n..] + Entries(Items(c, h0 + 1, h + 1))
  {
    hide Items, Entries;
    if c.inclusive {
      ItemsJoin(c, h0, h0 + 1, h + 1);
      EntriesJoin(Items(c, h0, h0 + 1), Items(c, h0 + 1, h + 1));
      ItemsJoin(c, c.activation, h0, h0 + 1);
      EntriesJoin(Items(c, c.activation, h0), Items(c, h0, h0 + 1));
      n := |Entries(Items(c, c.activation, h0))|;
    } else {
      n := |Stream(c, h0)|;
    }
  }

  /** An incremental fetch merged into sound rows gives every bundle the state of a full scan; into no rows at all it
      gives the rows of the full scan. */
  lemma IncrementalIsFull(c: Chain, existing: seq<Entry>, h0: nat, h: nat, rows: seq<Entry>)
    requires NeverReopens(c) && c.activation <= h0 <= h && SameCores(Scan(existing), Scan(Stream(c, h0)))
    requires MergedRows(existing, Entries(Delivered(c, h0, h)), rows)
    ensures SameCores(Scan(rows), Scan(Stream(c, h)))
    ensures existing == [] ==> rows == Stream(c, h)
  {
    hide Stream, Delivered, Entries, Scan, Fold, Items, EndsReopened, SameCores, OneRowPerId;
    var before, more := Stream(c, h0), Entries(Items(c, h0 + 1, h + 1));
    var n := FetchReads(c, h0, h);
    StreamGrows(c, h0, h);
    EmptyScan(existing);
    EmptyScan(before);
    SameCoresIs(Scan(existing), Scan(before), Scan(before));
    if existing == [] {
      assert before[n..] + more == more && before + more == more;
      SameCoresIs(Scan(more), Scan(more), Scan(more));
    } else {
      FoldIsFull(Scan(existing), before, n, more, c, h);
    }
  }

  lemma FoldIsFull(known: map<string, Entry>, before: seq<Entry>, n: nat, more: seq<Entry>, c: Chain, h: nat)
    requires NeverReopens(c) && n <= |before| && Stream(c, h) == before + more
    requires SameCores(known, Scan(before)) && !EndsReopened(before)
    ensures SameCores(Fold(known, before[n..] + more), Scan(before + more))
  {
    hide Stream, Scan, Fold, EndsReopened, SameCores;
    StreamPlain(c, h);
    PlainParts(before, more);
    RedeliveryChangesNothing(known, before, n);
    FoldAppend(known, before[n..], more);
    FoldSameCores(Fold(known, before[n..]), known, more);
    FoldSameCores(known, Scan(before), more);
    SplitAgrees(before, more);
    SameCoresIs(Fold(known, before[n..] + more), Fold(known, more), Fold(Scan(before), more));
    SameCoresIs(Fold(known, before[n..] + more), Fold(Scan(before), more), Scan(before + more));
  }

  lemma StreamPlain(c: Chain, h: nat)
    ensures Stream(c, h) == Entries(Delivered(c, c.activation, h)) && Plain(Stream(c, h))
  {
    EntriesPlain(Delivered(c, c.activation, h));
  }

  /** Having the same cores is an equivalence, and only the empty map has those of the empty map. */
  lemma SameCoresIs(a: map<string, Entry>, b: map<string, Entry>, c: map<string, Entry>)
    ensures SameCores(a, a)
    ensures SameCores(a, b) && SameCores(b, c) ==> SameCores(a, c)
    ensures SameCores(a, b) ==> (a == map[] <==> b == map[])
  {
    assert a == map[] <==> a.Keys == {};
    assert b == map[] <==> b.Keys == {};
  }

  /** Whether the last fetch so far was merged into rows, given whether it was before this call. */
  function MergedAfter(merged: bool, v: Option<View>, a: Answers): bool {
    match Decide(v, a)
    case Merge(existing, _) => existing != []
    case _ => merged
  }

  /** Merged rows are one for each bundle, others those of a full scan as they come. */
  ghost predicate RowShape(v: Option<View>, c: Chain, merged: bool) {
    v.Some? ==> if merged then OneRowPerId(v.value.rows) else v.value.rows == Stream(c, v.value.lastBlockHeight)
  }

  /** One call keeps the cache sound, and a successful one brings it to the tip. */
  lemma ListKeepsSound(v: Option<View>, a: Answers, w: Option<View>, ok: bool, c: Chain, merged: bool)
    requires Honest(a, c) && DistinctHashes(c) && NeverReopens(c)
    requires Sound(v, c) && RowShape(v, c, merged) && Lists(v, a, w, ok)
    requires v.Some? && a.tip.Some? ==> v.value.lastBlockHeight <= a.tip.value.height
    ensures Sound(w, c) && RowShape(w, c, MergedAfter(merged, v, a))
    ensures ok ==> w.Some? && a.tip.Some? && w.value.lastBlockHeight == a.tip.value.height
    ensures ok || w == v
  {
    hide Stream, Delivered, Entries, Scan, NeverReopens, SameCores, OneRowPerId, MergedRows;
    if Decide(v, a).Merge? {
      var h := a.tip.value.height;
      if v.Some? && v.value.activationHeight == a.activation.value && v.value.lastBlockHeight > 0 {
        var h0 := v.value.lastBlockHeight;
        assert Answered(c, a, h0, h);
        IncrementalIsFull(c, v.value.rows, h0, h, w.value.rows);
        MergedShape(v.value.rows, Entries(Delivered(c, h0, h)), w.value.rows);
      } else {
        assert Answered(c, a, c.activation, h);
        MergedShape([], Entries(Delivered(c, c.activation, h)), w.value.rows);
        StreamPlain(c, h);
        SameCoresIs(Scan(w.value.rows), Scan(w.value.rows), Scan(w.value.rows));
      }
    }
  }

  lemma MergedShape(existing: seq<Entry>, added: seq<Entry>, rows: seq<Entry>)
    requires MergedRows(existing, added, rows)
    ensures if existing == [] then rows == added else OneRowPerId(rows)
  {
  }

  /** A run of calls: the cache before, between and after them, and whether each call succeeded. */
  ghost predicate IsRun(views: seq<Option<View>>, calls: seq<Answers>, oks: seq<bool>) {
    && |views| == |calls| + 1 && |oks| == |calls| && views[0] == None
    && forall i :: 0 <= i < |calls| ==> Lists(views[i], calls[i], views[i + 1], oks[i])
  }

  /** The chain only grows between the calls. */
  ghost predicate Advances(calls: seq<Answers>) {
    forall i, j :: 0 <= i < j < |calls| && calls[i].tip.Some? && calls[j].tip.Some?
                   ==> calls[i].tip.value.height <= calls[j].tip.value.height
  }

  /** The cached height is the tip of one of the first n calls. */
  ghost predicate SeenTip(v: Option<View>, calls: seq<Answers>, n: nat)
    requires n <= |calls|
  {
    v.Some? ==> exists i :: 0 <= i < n && calls[i].tip.Some? && calls[i].tip.value.height == v.value.lastBlockHeight
  }

  /** Whether the last fetch of the first n calls was merged into rows: an incremental one into a cache that had any. */
  function Merged(views: seq<Option<View>>, calls: seq<Answers>, n: nat): bool
    requires n <= |calls| < |views|
  {
    n > 0 && MergedAfter(Merged(views, calls, n - 1), views[n - 1], calls[n - 1])
  }

  lemma {:induction false} RunSound(views: seq<Option<View>>, calls: seq<Answers>, oks: seq<bool>, c: Chain, n: nat)
    requires IsRun(views, calls, oks) && n <= |calls| && DistinctHashes(c) && NeverReopens(c) && Advances(calls)
    requires forall i :: 0 <= i < |calls| ==> Honest(calls[i], c)
    ensures Sound(views[n], c) && RowShape(views[n], c, Merged(views, calls, n)) && SeenTip(views[n], calls, n)
  {
    assert Sound(None, c) && RowShape(None, c, false);
    hide Lists, Sound, RowShape, Honest, NeverReopens, DistinctHashes, MergedAfter;
    if n > 0 {
      RunSound(views, calls, oks, c, n - 1);
      CallSound(views, calls, oks, c, n - 1);
    }
  }

  lemma CallSound(views: seq<Option<View>>, calls: seq<Answers>, oks: seq<bool>, c: Chain, n: nat)
    requires IsRun(views, calls, oks) && n < |calls| && DistinctHashes(c) && NeverReopens(c) && Advances(calls)
    requires Honest(calls[n], c) && Sound(views[n], c) && RowShape(views[n], c, Merged(views, calls, n))
    requires SeenTip(views[n], calls, n)
    ensures Sound(views[n + 1], c) && RowShape(views[n + 1], c, Merged(views, calls, n + 1))
    ensures SeenTip(views[n + 1], calls, n + 1)
    ensures oks[n] ==> views[n + 1].Some? && calls[n].tip.Some?
                       && views[n + 1].value.lastBlockHeight == calls[n].tip.value.height
  {
    hide Lists, Sound, RowShape, Honest, NeverReopens, DistinctHashes, MergedAfter;
    ListKeepsSound(views[n], calls[n], views[n + 1], oks[n], c, Merged(views, calls, n));
  }

  /** Whatever calls came before, failed ones included: after a successful listing the last row of every bundle has the
      status, sequence number and transaction of its last entry in one full scan to the tip. The rows are one for each
      bundle if the last fetch was merged into rows, and those of the scan as they come otherwise; so they show what
      the scan's rows show, each as often, exactly when it was not or the scan has one entry for each bundle. */
  lemma ListingIsFullScan(views: seq<Option<View>>, calls: seq<Answers>, oks: seq<bool>, c: Chain, n: nat)
    requires IsRun(views, calls, oks) && n < |calls| && DistinctHashes(c) && NeverReopens(c) && Advances(calls)
    requires forall i :: 0 <= i < |calls| ==> Honest(calls[i], c)
    requires oks[n]
    ensures views[n + 1].Some? && calls[n].tip.Some?
    ensures var rows, stream := views[n + 1].value.rows, Stream(c, calls[n].tip.value.height);
            var merged := Merged(views, calls, n + 1);
            && SameCores(Scan(rows), Scan(stream))
            && (if merged then OneRowPerId(rows) else rows == stream)
            && (multiset(Seen(rows)) == multiset(Seen(stream)) <==> !merged || OneRowPerId(stream))
  {
    hide Lists, Honest, NeverReopens, DistinctHashes, Stream, Scan, SameCores, OneRowPerId, Seen, MergedAfter;
    RunSound(views, calls, oks, c, n);
    CallSound(views, calls, oks, c, n);
    var rows, stream := views[n + 1].value.rows, Stream(c, calls[n].tip.value.height);
    if Merged(views, calls, n + 1) {
      RowsAgreeIff(rows, stream);
    }
  }
}
