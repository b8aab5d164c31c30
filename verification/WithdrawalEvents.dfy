/** Peg events, the bundle lists read off them, and when reading them piece by piece gives the same picture as
    reading them at once. */
module WithdrawalEvents {
  import opened Wrappers

  datatype Status = Pending | Succeeded | Failed

  datatype Kind = SucceededEvent(sequence: Option<nat>, transaction: Option<string>) | FailedEvent | SubmittedEvent
    | UnknownEvent

  datatype Event = Withdrawal(m6id: string, kind: Kind) | OtherEvent

  /** One item of the peg data; items without block or header information are skipped. */
  datatype Item = Incomplete | Block(height: nat, events: seq<Event>)

  /** State of a bundle, apart from its height. */
  datatype Core = Core(status: Status, sequence: nat, transaction: string)

  datatype Entry = Entry(m6id: string, height: nat, core: Core)

  function GetOr<T>(o: Option<T>, default: T): T { if o.Some? then o.value else default }

  function CoreOf(k: Kind): Core {
    match k
    case SucceededEvent(s, t) => Core(Succeeded, GetOr(s, 0), GetOr(t, ""))
    case FailedEvent => Core(Failed, 0, "")
    case SubmittedEvent => Core(Pending, 0, "")
    case UnknownEvent => Core(Pending, 0, "")
  }

  /** The entries of the withdrawal events of one block. */
  function BlockEntries(height: nat, events: seq<Event>): seq<Entry> {
    if events == [] then []
    else
      var last := events[|events| - 1];
      BlockEntries(height, events[..|events| - 1])
      + (if last.Withdrawal? then [Entry(last.m6id, height, CoreOf(last.kind))] else [])
  }

  function Entries(items: seq<Item>): seq<Entry> {
    if items == [] then []
    else
      var last := items[|items| - 1];
      Entries(items[..|items| - 1]) + (if last.Block? then BlockEntries(last.height, last.events) else [])
  }

  /** The last entry of each bundle. */
  function Scan(s: seq<Entry>): map<string, Entry> {
    if s == [] then map[] else Scan(s[..|s| - 1])[s[|s| - 1].m6id := s[|s| - 1]]
  }

  /** What one new entry does to the bundles already known. */
  function Absorb(known: map<string, Entry>, e: Entry): map<string, Entry> {
    if e.m6id !in known then known[e.m6id := e]
    else if e.core.status == Pending then known
    else known[e.m6id := known[e.m6id].(core := e.core)]
  }

  function Fold(known: map<string, Entry>, s: seq<Entry>): map<string, Entry> {
    if s == [] then known else Absorb(Fold(known, s[..|s| - 1]), s[|s| - 1])
  }

  predicate OneRowPerId(rows: seq<Entry>) {
    forall i, j :: 0 <= i < j < |rows| ==> rows[i].m6id != rows[j].m6id
  }

  /** The list after merging a fetch into a cached one: an empty cache takes the fetched rows as they are, repeated ids
      included; otherwise every bundle has one row, in an order that is left open. */
  ghost predicate MergedRows(existing: seq<Entry>, added: seq<Entry>, rows: seq<Entry>) {
    if existing == [] then rows == added
    else Scan(rows) == Fold(Scan(existing), added) && OneRowPerId(rows)
  }

  /** The same bundles in the same state; heights may differ. */
  ghost predicate SameCores(a: map<string, Entry>, b: map<string, Entry>) {
    a.Keys == b.Keys && forall id :: id in a ==> a[id].core == b[id].core
  }

  /** Entries come from events, so that a pending one carries no sequence number and no transaction. */
  predicate Plain(s: seq<Entry>) {
    forall i :: 0 <= i < |s| && s[i].core.status == Pending ==> s[i].core == Core(Pending, 0, "")
  }

  lemma {:induction false} BlockEntriesPlain(height: nat, events: seq<Event>)
    ensures Plain(BlockEntries(height, events))
  {
    if events != [] {
      BlockEntriesPlain(height, events[..|events| - 1]);
    }
  }

  /** Every list read off peg data is plain. */
  lemma {:induction false} EntriesPlain(items: seq<Item>)
    ensures Plain(Entries(items))
  {
    if items != [] {
      var last := items[|items| - 1];
      EntriesPlain(items[..|items| - 1]);
      if last.Block? {
        BlockEntriesPlain(last.height, last.events);
      }
    }
  }

  /** Entry j reports a bundle as pending that an earlier entry i has already settled. */
  predicate Reopens(s: seq<Entry>, i: nat, j: nat)
    requires i < j < |s|
  {
    s[i].m6id == s[j].m6id && s[i].core.status != Pending && s[j].core.status == Pending
  }

  /** Some bundle was settled, yet its last entry is pending. */
  ghost predicate EndsReopened(s: seq<Entry>) {
    exists i: nat, j: nat :: i < j < |s| && Reopens(s, i, j) && IsLast(s, j)
  }

  predicate IsLast(s: seq<Entry>, j: nat)
    requires j < |s|
  {
    forall k :: j < k < |s| ==> s[k].m6id != s[j].m6id
  }

  // ---------------------------------------------------------------- scanning

  lemma {:induction false} ScanAt(s: seq<Entry>, j: nat)
    requires j < |s| && IsLast(s, j)
    ensures s[j].m6id in Scan(s) && Scan(s)[s[j].m6id] == s[j]
  {
    var n := |s| - 1;
    if j < n {
      assert forall k :: j < k < n ==> s[..n][k] == s[k];
      ScanAt(s[..n], j);
      assert s[n].m6id != s[j].m6id;
    }
  }

  lemma {:induction false} LastOf(s: seq<Entry>, id: string) returns (j: nat)
    requires id in Scan(s)
    ensures j < |s| && s[j].m6id == id && IsLast(s, j) && Scan(s)[id] == s[j]
  {
    var n := |s| - 1;
    if s[n].m6id == id {
      j := n;
    } else {
      j := LastOf(s[..n], id);
      forall k | j < k < |s| ensures s[k].m6id != id {
        if k < n {
          assert s[..n][k].m6id != s[..n][j].m6id;
        }
      }
    }
  }

  lemma {:induction false} ScanKeys(s: seq<Entry>)
    ensures forall id :: id in Scan(s) <==> exists i :: 0 <= i < |s| && s[i].m6id == id
  {
    if s != [] {
      var n := |s| - 1;
      ScanKeys(s[..n]);
      forall id ensures id in Scan(s) <==> exists i :: 0 <= i < |s| && s[i].m6id == id {
        if id in Scan(s[..n]) {
          var i :| 0 <= i < n && s[..n][i].m6id == id;
          assert s[i].m6id == id;
        }
        if i :| 0 <= i < |s| && s[i].m6id == id {
          if i < n {
            assert s[..n][i].m6id == id;
          }
        }
      }
    }
  }

  // ---------------------------------------------------------------- merging in pieces

  /** Merging in several rounds is merging in one. */
  lemma {:induction false} FoldAppend(known: map<string, Entry>, a: seq<Entry>, b: seq<Entry>)
    ensures Fold(known, a + b) == Fold(Fold(known, a), b)
  {
    if b == [] {
      assert a + b == a;
    } else {
      var n := |b| - 1;
      FoldAppend(known, a, b[..n]);
      assert (a + b)[..|a + b| - 1] == a + b[..n];
    }
  }

  lemma {:induction false} ScanAppendKeys(a: seq<Entry>, b: seq<Entry>)
    ensures Fold(Scan(a), b).Keys == Scan(a + b).Keys
  {
    if b == [] {
      assert a + b == a;
    } else {
      var n := |b| - 1;
      ScanAppendKeys(a, b[..n]);
      assert (a + b)[..|a + b| - 1] == a + b[..n];
    }
  }

  /** All entries of the bundle are pending. */
  predicate OnlyPending(s: seq<Entry>, id: string) {
    forall i :: 0 <= i < |s| && s[i].m6id == id ==> s[i].core.status == Pending
  }

  lemma {:induction false} PendingScan(a: seq<Entry>, id: string)
    requires Plain(a) && OnlyPending(a, id) && id in Scan(a)
    ensures Scan(a)[id].core == Core(Pending, 0, "")
  {
    var j := LastOf(a, id);
  }

  lemma {:induction false} PendingFold(a: seq<Entry>, b: seq<Entry>, id: string)
    requires Plain(a) && Plain(b) && OnlyPending(a, id) && OnlyPending(b, id) && id in Fold(Scan(a), b)
    ensures Fold(Scan(a), b)[id].core == Core(Pending, 0, "")
  {
    if b == [] {
      PendingScan(a, id);
    } else {
      var n := |b| - 1;
      if id in Fold(Scan(a), b[..n]) {
        PendingFold(a, b[..n], id);
      }
    }
  }

  /** The bundle's last entry is not a pending one behind a settled one. */
  ghost predicate StaysSettled(s: seq<Entry>, id: string) {
    forall i: nat, j: nat :: i < j < |s| && s[j].m6id == id && IsLast(s, j) ==> !Reopens(s, i, j)
  }

  lemma StaysSettledFront(s: seq<Entry>, id: string)
    requires s != [] && StaysSettled(s, id) && s[|s| - 1].m6id != id
    ensures StaysSettled(s[..|s| - 1], id)
  {
    var front := s[..|s| - 1];
    forall i: nat, j: nat | i < j < |front| && front[j].m6id == id && IsLast(front, j) ensures !Reopens(front, i, j) {
      assert IsLast(s, j) by {
        forall k | j < k < |s| ensures s[k].m6id != s[j].m6id {
          if k < |front| {
            assert front[k].m6id != front[j].m6id;
          }
        }
      }
      assert !Reopens(s, i, j);
    }
  }

  /** Unless a settled bundle ends reopened, folding new entries into a scan of the old ones gives it the state that
      scanning everything gives. */
  lemma {:induction false} FoldIsScan(a: seq<Entry>, b: seq<Entry>, id: string)
    requires Plain(a) && Plain(b) && id in Scan(a + b) && StaysSettled(a + b, id)
    ensures id in Fold(Scan(a), b) && Fold(Scan(a), b)[id].core == Scan(a + b)[id].core
  {
    ScanAppendKeys(a, b);
    if b == [] {
      assert a + b == a;
    } else {
      var n := |b| - 1;
      var s := a + b;
      assert s[..|s| - 1] == a + b[..n] && s[|s| - 1] == b[n];
      ScanAppendKeys(a, b[..n]);
      if b[n].m6id != id {
        StaysSettledFront(s, id);
        FoldIsScan(a, b[..n], id);
      } else if b[n].core.status == Pending && id in Fold(Scan(a), b[..n]) {
        OnlyPendingBefore(a, b, id);
        PendingFold(a, b[..n], id);
      }
    }
  }

  lemma OnlyPendingBefore(a: seq<Entry>, b: seq<Entry>, id: string)
    requires b != [] && b[|b| - 1].m6id == id && b[|b| - 1].core.status == Pending && StaysSettled(a + b, id)
    ensures OnlyPending(a, id) && OnlyPending(b[..|b| - 1], id)
  {
    var s := a + b;
    var j := |s| - 1;
    assert IsLast(s, j);
    forall i | 0 <= i < j && s[i].m6id == id ensures s[i].core.status == Pending {
      assert !Reopens(s, i, j);
    }
    forall i | 0 <= i < |a| && a[i].m6id == id ensures a[i].core.status == Pending {
      assert s[i] == a[i];
    }
    forall i | 0 <= i < |b| - 1 && b[i].m6id == id ensures b[i].core.status == Pending {
      assert s[|a| + i] == b[i];
    }
  }

  lemma {:induction false} SettledFold(known: map<string, Entry>, b: seq<Entry>, id: string)
    requires id in known && known[id].core.status != Pending
    ensures id in Fold(known, b) && Fold(known, b)[id].core.status != Pending
  {
    if b != [] {
      SettledFold(known, b[..|b| - 1], id);
    }
  }

  /** Once a settling entry has been folded in, the bundle stays settled. */
  lemma SettlesFold(known: map<string, Entry>, b: seq<Entry>, i: nat)
    requires i < |b| && b[i].core.status != Pending
    ensures b[i].m6id in Fold(known, b) && Fold(known, b)[b[i].m6id].core.status != Pending
  {
    var upTo := b[..i + 1];
    assert upTo[..|upTo| - 1] == b[..i];
    assert b == upTo + b[i + 1..];
    FoldAppend(known, upTo, b[i + 1..]);
    SettledFold(Fold(known, upTo), b[i + 1..], b[i].m6id);
  }

  /** Cut behind its first entry, a stream that settles a bundle leaves it settled. */
  lemma SettledBehindFirst(s: seq<Entry>, i: nat)
    requires i < |s| && s[i].core.status != Pending
    ensures var f := Fold(Scan([s[0]]), s[1..]);
            s[i].m6id in f && f[s[i].m6id].core.status != Pending
  {
    hide *;
    ScanOne(s[0]);
    if i == 0 {
      SettledFold(Scan([s[0]]), s[1..], s[0].m6id);
    } else {
      SettlesFold(Scan([s[0]]), s[1..], i - 1);
    }
  }

  lemma ScanOne(e: Entry)
    ensures Scan([e]) == map[e.m6id := e]
  {
    assert [e][..0] == [];
  }

  lemma EndsReopenedFold(s: seq<Entry>, i: nat, j: nat)
    requires i < j < |s| && Reopens(s, i, j) && IsLast(s, j)
    ensures !SameCores(Fold(Scan(s[..1]), s[1..]), Scan(s))
  {
    hide Scan, Fold, IsLast;
    ScanAt(s, j);
    SettledBehindFirst(s, i);
    assert s[..1] == [s[0]];
    assert Fold(Scan(s[..1]), s[1..])[s[j].m6id].core != Scan(s)[s[j].m6id].core;
  }

  lemma SplitAgrees(a: seq<Entry>, b: seq<Entry>)
    requires Plain(a + b) && !EndsReopened(a + b)
    ensures SameCores(Fold(Scan(a), b), Scan(a + b))
  {
    hide Reopens, IsLast, Plain, Scan, Fold;
    ScanAppendKeys(a, b);
    PlainParts(a, b);
    forall id | id in Scan(a + b) ensures Fold(Scan(a), b)[id].core == Scan(a + b)[id].core {
      FoldIsScan(a, b, id);
    }
  }

  lemma PlainParts(a: seq<Entry>, b: seq<Entry>)
    requires Plain(a + b)
    ensures Plain(a) && Plain(b)
  {
    var s := a + b;
    assert forall i :: 0 <= i < |a| ==> s[i] == a[i];
    assert forall i :: 0 <= i < |b| ==> s[|a| + i] == b[i];
  }

  /** Reading a stream in two pieces gives every bundle the state that reading it at once gives, wherever the stream is
      cut, exactly when no settled bundle has a pending entry as its last one. */
  lemma AnySplitAgreesIff(s: seq<Entry>)
    requires Plain(s)
    ensures (forall n: nat :: 0 < n <= |s| ==> SameCores(Fold(Scan(s[..n]), s[n..]), Scan(s))) <==> !EndsReopened(s)
  {
    hide Reopens, IsLast, SameCores, Plain, Scan, Fold, StaysSettled;
    if EndsReopened(s) {
      var i: nat, j: nat :| i < j < |s| && Reopens(s, i, j) && IsLast(s, j);
      EndsReopenedFold(s, i, j);
    } else {
      forall n: nat | 0 < n <= |s| ensures SameCores(Fold(Scan(s[..n]), s[n..]), Scan(s)) {
        assert s == s[..n] + s[n..];
        SplitAgrees(s[..n], s[n..]);
      }
    }
  }

  /** The position of entry j of a after its tail from n on has been delivered again. */
  function Again(a: seq<Entry>, n: nat, j: nat): nat { if j < n then j else |a| + (j - n) }

  lemma LastAgain(a: seq<Entry>, n: nat, j: nat)
    requires n <= |a| && j < |a| && IsLast(a, j)
    ensures var s := a + a[n..];
            s[Again(a, n, j)] == a[j] && IsLast(s, Again(a, n, j))
  {
    var s := a + a[n..];
    forall k | Again(a, n, j) < k < |s| ensures s[k].m6id != a[j].m6id {
      if k < |a| {
        assert s[k] == a[k];
      } else {
        assert s[k] == a[k - |a| + n];
        assert j < k - |a| + n;
      }
    }
  }

  lemma ScanAgain(a: seq<Entry>, n: nat)
    requires n <= |a|
    ensures Scan(a + a[n..]) == Scan(a)
  {
    hide Scan, IsLast;
    var s := a + a[n..];
    ScanKeys(s);
    ScanKeys(a);
    forall id | id in Scan(a) ensures id in Scan(s) && Scan(s)[id] == Scan(a)[id] {
      var j := LastOf(a, id);
      LastAgain(a, n, j);
      ScanAt(s, Again(a, n, j));
    }
    forall id | id in Scan(s) ensures id in Scan(a) {
      var i :| 0 <= i < |s| && s[i].m6id == id;
      assert a[if i < |a| then i else i - |a| + n].m6id == id;
    }
    assert forall id :: id in Scan(s) <==> id in Scan(a);
  }

  lemma ReopenedAgain(a: seq<Entry>, n: nat)
    requires n <= |a| && EndsReopened(a + a[n..])
    ensures EndsReopened(a)
  {
    var s := a + a[n..];
    var i: nat, j: nat :| i < j < |s| && Reopens(s, i, j) && IsLast(s, j);
    var id := s[j].m6id;
    var i' := if i < |a| then i else i - |a| + n;
    assert a[i'] == s[i];
    ScanKeys(a);
    var last := LastOf(a, id);
    LastAgain(a, n, last);
    assert j == Again(a, n, last);
    assert a[last] == s[j] && i' != last && !(last < i');
    assert Reopens(a, i', last);
  }

  lemma {:induction false} FoldSameCores(x: map<string, Entry>, y: map<string, Entry>, b: seq<Entry>)
    requires SameCores(x, y)
    ensures SameCores(Fold(x, b), Fold(y, b))
  {
    if b != [] {
      FoldSameCores(x, y, b[..|b| - 1]);
    }
  }

  /** Delivering the last entries of a stream once more changes the state of no bundle. */
  lemma RedeliveryChangesNothing(known: map<string, Entry>, a: seq<Entry>, n: nat)
    requires Plain(a) && n <= |a| && !EndsReopened(a) && SameCores(known, Scan(a))
    ensures SameCores(Fold(known, a[n..]), known)
  {
    if EndsReopened(a + a[n..]) {
      ReopenedAgain(a, n);
    }
    forall i | 0 <= i < |a + a[n..]| && (a + a[n..])[i].core.status == Pending
      ensures (a + a[n..])[i].core == Core(Pending, 0, "")
    {
      assert (a + a[n..])[i] == a[if i < |a| then i else i - |a| + n];
    }
    SplitAgrees(a, a[n..]);
    ScanAgain(a, n);
    FoldSameCores(known, Scan(a), a[n..]);
  }

  // ---------------------------------------------------------------- rows

  lemma EmptyScan(s: seq<Entry>)
    ensures Scan(s) == map[] <==> s == []
    ensures s == [] ==> OneRowPerId(s)
  {
    if s != [] {
      assert s[|s| - 1].m6id in Scan(s);
    }
  }

  lemma ScanSnoc(s: seq<Entry>, e: Entry)
    ensures Scan(s + [e]) == Scan(s)[e.m6id := e]
  {
    assert (s + [e])[..|s|] == s;
  }

  /** The list has as many rows as bundles exactly when no bundle has two. */
  lemma {:induction false} ScanSize(s: seq<Entry>)
    ensures |Scan(s)| <= |s|
    ensures |Scan(s)| == |s| <==> OneRowPerId(s)
  {
    hide Scan, OneRowPerId;
    EmptyScan(s);
    if s != [] {
      var front, e := s[..|s| - 1], s[|s| - 1];
      assert s == front + [e];
      ScanSize(front);
      ScanSnoc(front, e);
      InsertSize(Scan(front), e);
      OneMoreRow(front, e);
    }
  }

  lemma InsertSize(m: map<string, Entry>, e: Entry)
    ensures |m[e.m6id := e]| == |m| + if e.m6id in m then 0 else 1
  {
    var k := m[e.m6id := e];
    assert k.Keys == m.Keys + {e.m6id};
    assert |k.Keys| == |k| && |m.Keys| == |m|;
  }

  lemma OneMoreRow(s: seq<Entry>, e: Entry)
    ensures OneRowPerId(s + [e]) <==> OneRowPerId(s) && e.m6id !in Scan(s)
  {
    hide Scan;
    ScanKeys(s);
    var more := s + [e];
    if OneRowPerId(more) {
      forall i, j | 0 <= i < j < |s| ensures s[i].m6id != s[j].m6id {
        assert more[i].m6id != more[j].m6id;
      }
      forall i | 0 <= i < |s| ensures s[i].m6id != e.m6id {
        assert more[i].m6id != more[|s|].m6id;
      }
    }
  }

  /** What a row shows of its bundle. */
  function Seen(s: seq<Entry>): (r: seq<(string, Core)>)
    ensures |r| == |s| && forall i :: 0 <= i < |s| ==> r[i] == (s[i].m6id, s[i].core)
  {
    seq(|s|, i requires 0 <= i < |s| => (s[i].m6id, s[i].core))
  }

  lemma {:induction false} SeenCount(s: seq<Entry>, id: string, core: Core)
    requires OneRowPerId(s)
    ensures multiset(Seen(s))[(id, core)] == if id in Scan(s) && Scan(s)[id].core == core then 1 else 0
  {
    hide Scan, OneRowPerId;
    EmptyScan(s);
    if s != [] {
      var front, e := s[..|s| - 1], s[|s| - 1];
      assert s == front + [e];
      OneMoreRow(front, e);
      SeenCount(front, id, core);
      ScanSnoc(front, e);
      assert Seen(s) == Seen(front) + [(e.m6id, e.core)];
    }
  }

  /** A list with one row per bundle shows the rows of a full scan, each as often, exactly when the scanned stream has
      one entry per bundle. */
  lemma {:induction false} RowsAgreeIff(rows: seq<Entry>, stream: seq<Entry>)
    requires OneRowPerId(rows) && SameCores(Scan(rows), Scan(stream))
    ensures multiset(Seen(rows)) == multiset(Seen(stream)) <==> OneRowPerId(stream)
    ensures |rows| == |stream| <==> OneRowPerId(stream)
  {
    ScanSize(rows);
    ScanSize(stream);
    assert |Scan(rows).Keys| == |Scan(rows)| && |Scan(stream).Keys| == |Scan(stream)|;
    assert |multiset(Seen(rows))| == |rows| && |multiset(Seen(stream))| == |stream|;
    if OneRowPerId(stream) {
      forall p: (string, Core) ensures multiset(Seen(rows))[p] == multiset(Seen(stream))[p] {
        SeenCount(rows, p.0, p.1);
        SeenCount(stream, p.0, p.1);
      }
    }
  }

  /** A bundle reported once and then settled: one full fetch lists two rows, while fetching the settlement behind the
      report leaves one. */
  lemma RowsDependOnHistory(first: Entry, settled: Entry, rows: seq<Entry>)
    requires first.m6id == settled.m6id && settled.core.status != Pending
    ensures MergedRows([], [first, settled], rows) ==> |rows| == 2
    ensures MergedRows([first], [settled], rows) ==> rows == [first.(core := settled.core)]
  {
    hide Scan, Fold;
    ScanOne(first);
    FoldOne(Scan([first]), settled);
    if MergedRows([first], [settled], rows) {
      ScanSize(rows);
      InsertSize(map[], first);
      SingleRow(rows, first.(core := settled.core));
    }
  }

  lemma FoldOne(known: map<string, Entry>, e: Entry)
    ensures Fold(known, [e]) == Absorb(known, e)
  {
    assert [e][..0] == [];
  }

  lemma SingleRow(rows: seq<Entry>, e: Entry)
    requires |rows| == 1 && Scan(rows) == map[e.m6id := e]
    ensures rows == [e]
  {
    ScanOne(rows[0]);
    assert rows == [rows[0]];
    assert rows[0].m6id in Scan(rows);
  }
}
