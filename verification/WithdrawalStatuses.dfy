/** What a listing tells about each bundle, in terms of the events the validator delivered. */
module WithdrawalStatuses {
  import opened Numerals
  import opened Wrappers
  import opened WithdrawalEvents
  import opened WithdrawalCache
  import opened WithdrawalRuns

  // ---------------------------------------------------------------- events

  /** The last withdrawal event of a bundle among these. */
  function LastIn(events: seq<Event>, id: string): Option<Kind> {
    if events == [] then None
    else
      var last := events[|events| - 1];
      if last.Withdrawal? && last.m6id == id then Some(last.kind) else LastIn(events[..|events| - 1], id)
  }

  function LastKind(items: seq<Item>, id: string): Option<Kind> {
    if items == [] then None
    else
      var last := items[|items| - 1];
      if last.Block? && LastIn(last.events, id).Some? then LastIn(last.events, id)
      else LastKind(items[..|items| - 1], id)
  }

  /** The bundle has a withdrawal event of this kind in this block. */
  ghost predicate Reports(item: Item, id: string, kind: Kind) {
    item.Block? && exists e :: 0 <= e < |item.events| && item.events[e] == Withdrawal(id, kind)
  }

  /** No event of the bundle settles it. */
  ghost predicate OnlyReported(items: seq<Item>, id: string) {
    forall b, kind :: 0 <= b < |items| && Reports(items[b], id, kind) ==> kind.SubmittedEvent? || kind.UnknownEvent?
  }

  // ---------------------------------------------------------------- entries of events

  /** The state an event tells of. */
  function Told(kind: Kind): Core {
    match kind
    case SucceededEvent(None, None) => Core(Succeeded, 0, "")
    case SucceededEvent(Some(n), None) => Core(Succeeded, n, "")
    case SucceededEvent(None, Some(tx)) => Core(Succeeded, 0, tx)
    case SucceededEvent(Some(n), Some(tx)) => Core(Succeeded, n, tx)
    case FailedEvent => Core(Failed, 0, "")
    case _ => Core(Pending, 0, "")
  }

  /** The bundle's state in a map is the one its last event tells of, or what it was before without an event. */
  predicate TellsIn(before: map<string, Entry>, after: map<string, Entry>, id: string, kind: Option<Kind>) {
    if kind.Some? then id in after && after[id].core == Told(kind.value)
    else (id in after <==> id in before) && (id in before ==> after[id] == before[id])
  }

  lemma {:induction false} ScanBlock(base: seq<Entry>, height: nat, events: seq<Event>, id: string)
    ensures TellsIn(Scan(base), Scan(base + BlockEntries(height, events)), id, LastIn(events, id))
  {
    hide Scan;
    if events == [] {
      assert base + [] == base;
    } else {
      var n := |events| - 1;
      var front, last := base + BlockEntries(height, events[..n]), events[n];
      ScanBlock(base, height, events[..n], id);
      if last.Withdrawal? {
        var e := Entry(last.m6id, height, CoreOf(last.kind));
        ScanSnoc(front, e);
        assert front + [e] == base + BlockEntries(height, events);
      } else {
        assert BlockEntries(height, events) == BlockEntries(height, events[..n]);
      }
    }
  }

  lemma {:induction false} ScanTells(items: seq<Item>, id: string)
    ensures TellsIn(map[], Scan(Entries(items)), id, LastKind(items, id))
  {
    hide Scan, BlockEntries, LastIn, Told;
    EntriesStep(items);
    EmptyScan(Entries([]));
    if items == [] {
      assert items[..0] == items;
    } else {
      var front, last := items[..|items| - 1], items[|items| - 1];
      ScanTells(front, id);
      if last.Block? {
        ScanBlock(Entries(front), last.height, last.events, id);
      } else {
        assert Entries(front) + [] == Entries(front);
      }
    }
  }

  // ---------------------------------------------------------------- events behind entries

  lemma {:induction false} LastInReports(events: seq<Event>, id: string)
    ensures LastIn(events, id).Some? ==>
              exists e :: 0 <= e < |events| && events[e] == Withdrawal(id, LastIn(events, id).value)
    ensures LastIn(events, id).None? ==> forall e :: 0 <= e < |events| && events[e].Withdrawal? ==> events[e].m6id != id
  {
    if events != [] {
      LastInReports(events[..|events| - 1], id);
    }
  }

  lemma {:induction false} LastKindReports(items: seq<Item>, id: string)
    ensures LastKind(items, id).Some? ==>
              exists b :: 0 <= b < |items| && Reports(items[b], id, LastKind(items, id).value)
    ensures LastKind(items, id).None? ==> forall b, kind :: 0 <= b < |items| ==> !Reports(items[b], id, kind)
  {
    hide LastIn;
    if items != [] {
      var n := |items| - 1;
      LastKindReports(items[..n], id);
      if items[n].Block? {
        LastInReports(items[n].events, id);
      }
      if LastKind(items[..n], id).Some? {
        var b :| 0 <= b < n && Reports(items[..n][b], id, LastKind(items[..n], id).value);
        assert items[..n][b] == items[b];
      }
      forall b, kind | 0 <= b < |items| && LastKind(items, id).None? ensures !Reports(items[b], id, kind) {
        if b < n { assert items[..n][b] == items[b]; }
      }
    }
  }

  lemma {:induction false} EventEntry(height: nat, events: seq<Event>, id: string, kind: Kind) returns (i: nat)
    requires Withdrawal(id, kind) in events
    ensures i < |BlockEntries(height, events)| && BlockEntries(height, events)[i] == Entry(id, height, Told(kind))
  {
    var n := |events| - 1;
    if events[n] == Withdrawal(id, kind) {
      i := |BlockEntries(height, events)| - 1;
    } else {
      assert events == events[..n] + [events[n]];
      i := EventEntry(height, events[..n], id, kind);
    }
  }

  lemma {:induction false} ReportEntry(items: seq<Item>, b: nat, id: string, kind: Kind) returns (i: nat)
    requires b < |items| && Reports(items[b], id, kind)
    ensures i < |Entries(items)| && Entries(items)[i] == Entry(id, items[b].height, Told(kind))
  {
    hide Told, BlockEntries;
    var n := |items| - 1;
    var front, last := items[..n], items[n];
    if b == n {
      i := EventEntry(last.height, last.events, id, kind);
      i := |Entries(front)| + i;
    } else {
      i := ReportEntry(front, b, id, kind);
    }
  }

  /** Without a reopened bundle, a bundle's last event settles nothing exactly when none of its events does. */
  lemma PendingIff(items: seq<Item>, id: string)
    requires !EndsReopened(Entries(items)) && LastKind(items, id).Some?
    ensures Told(LastKind(items, id).value).status == Pending <==> OnlyReported(items, id)
  {
    hide Scan, Entries, LastKind, Reports, IsLast;
    var kind, s := LastKind(items, id).value, Entries(items);
    LastKindReports(items, id);
    ScanTells(items, id);
    var last :| 0 <= last < |items| && Reports(items[last], id, kind);
    assert OnlyReported(items, id) ==> kind.SubmittedEvent? || kind.UnknownEvent?;
    if Told(kind).status == Pending {
      var j := LastOf(s, id);
      forall b, k | 0 <= b < |items| && Reports(items[b], id, k) ensures k.SubmittedEvent? || k.UnknownEvent? {
        var i := ReportEntry(items, b, id, k);
        NotReopened(s, i, j);
      }
    }
  }

  lemma NotReopened(s: seq<Entry>, i: nat, j: nat)
    requires i < |s| && j < |s| && s[i].m6id == s[j].m6id && IsLast(s, j) && !EndsReopened(s)
    requires s[j].core.status == Pending
    ensures s[i].core.status == Pending
  {
    if i != j {
      LastAfter(s, i, j);
      assert !Reopens(s, i, j);
    }
  }

  lemma LastAfter(s: seq<Entry>, i: nat, j: nat)
    requires i < |s| && j < |s| && i != j && s[i].m6id == s[j].m6id && IsLast(s, j)
    ensures i < j
  {
  }

  // ---------------------------------------------------------------- what a listing shows

  /** Row j is the last of its bundle. */
  predicate LastRow(rows: seq<Entry>, id: string, j: nat) {
    j < |rows| && rows[j].m6id == id && forall k :: j < k < |rows| ==> rows[k].m6id != id
  }

  /** After any calls, a successful listing tells of each bundle what the last withdrawal event delivered for it up to
      the tip says: succeeded with its sequence number and transaction, or 0 and no transaction where it has none;
      failed; or pending exactly if none of its events settled it. Bundles without an event are not listed. */
  lemma ListingTellsEvents(views: seq<Option<View>>, calls: seq<Answers>, oks: seq<bool>, c: Chain, n: nat, id: string)
    requires IsRun(views, calls, oks) && n < |calls| && DistinctHashes(c) && NeverReopens(c) && Advances(calls)
    requires forall i :: 0 <= i < |calls| ==> Honest(calls[i], c)
    requires oks[n]
    ensures views[n + 1].Some? && calls[n].tip.Some?
    ensures var rows, items := views[n + 1].value.rows, Delivered(c, c.activation, calls[n].tip.value.height);
            match LastKind(items, id)
            case None => forall j :: 0 <= j < |rows| ==> rows[j].m6id != id
            case Some(kind) =>
              && (exists j: nat :: LastRow(rows, id, j))
              && forall j: nat :: LastRow(rows, id, j) ==>
                   && (kind.SucceededEvent? ==>
                         rows[j].core == Core(Succeeded, if kind.sequence.Some? then kind.sequence.value else 0,
                                              if kind.transaction.Some? then kind.transaction.value else ""))
                   && (kind.FailedEvent? ==> rows[j].core == Core(Failed, 0, ""))
                   && (rows[j].core == Core(Pending, 0, "") <==> OnlyReported(items, id))
  {
    hide Lists, Honest, DistinctHashes, Delivered, Scan, Seen, MergedAfter, OnlyReported, EndsReopened, Entries,
         LastKind, Fold, OneRowPerId;
    ListingIsFullScan(views, calls, oks, c, n);
    var rows, h := views[n + 1].value.rows, calls[n].tip.value.height;
    var items := Delivered(c, c.activation, h);
    StreamPlain(c, h);
    ScanTells(items, id);
    ScanKeys(rows);
    assert !EndsReopened(Stream(c, h));
    match LastKind(items, id) {
      case None =>
      case Some(kind) =>
        PendingIff(items, id);
        var j := LastOf(rows, id);
        assert LastRow(rows, id, j);
        forall j: nat | LastRow(rows, id, j) ensures rows[j].core == Told(kind) {
          ScanAt(rows, j);
        }
    }
  }

  // ---------------------------------------------------------------- heights and ages

  /** A bundle keeps the height it was first listed with, whatever is merged into it. */
  lemma {:induction false} FoldKeepsHeight(known: map<string, Entry>, s: seq<Entry>, id: string)
    ensures id in known ==> id in Fold(known, s) && Fold(known, s)[id].height == known[id].height
    ensures id !in known && id in Fold(known, s) ==>
              exists i :: 0 <= i < |s| && s[i].m6id == id && (forall k :: 0 <= k < i ==> s[k].m6id != id)
                          && Fold(known, s)[id].height == s[i].height
  {
    if s != [] {
      var n := |s| - 1;
      FoldKeepsHeight(known, s[..n], id);
      if id !in known && id in Fold(known, s[..n]) {
        var i :| 0 <= i < n && s[..n][i].m6id == id && (forall k :: 0 <= k < i ==> s[..n][k].m6id != id)
                 && Fold(known, s[..n])[id].height == s[..n][i].height;
        assert forall k :: 0 <= k < i ==> s[..n][k] == s[k];
        assert s[i].m6id == id;
      } else if id !in known && s[n].m6id == id {
        NotFolded(known, s[..n], id);
        assert forall k :: 0 <= k < n ==> s[..n][k] == s[k];
        assert s[n].m6id == id;
      }
    }
  }

  lemma {:induction false} NotFolded(known: map<string, Entry>, s: seq<Entry>, id: string)
    requires id !in Fold(known, s)
    ensures forall k :: 0 <= k < |s| ==> s[k].m6id != id
  {
    if s != [] {
      NotFolded(known, s[..|s| - 1], id);
      assert s == s[..|s| - 1] + [s[|s| - 1]];
    }
  }

  /** A pending bundle is as old as the blocks since its own, and has the rest of 26300 blocks left; a bundle from above
      the height asked for counts from 2^32. Settled bundles have neither. */
  lemma AgeInNumbers(e: Entry, height: nat)
    requires height < 0x1_0000_0000 && e.height < 0x1_0000_0000
    ensures e.core.status != Pending ==> Age(e, height) == Aged(e, 0, 0)
    ensures e.core.status == Pending ==>
              var blocks := if e.height <= height then height - e.height else 0x1_0000_0000 + height - e.height;
              Age(e, height) == Aged(e, blocks, if blocks < 26300 then 26300 - blocks else 0)
  {
  }
}
