/** Turning stored vote preferences into M4 bytes, and what parsing and applying those bytes does. */
module M4Generate {
  import opened Numerals
  import opened Wrappers
  import opened M4Messages
  import opened Scdb
  import opened ScdbRuns
  import LittleEndian
  import Hex

  datatype Preference = PreferAbstain | PreferAlarm | PreferUpvote(hash: Option<string>)

  type Preferences = map<Byte, Preference>

  // ---------------------------------------------------------------- the generated bytes

  function IndexOfHash(rows: Table, hash: string): (i: int)
    ensures -1 <= i < |rows|
    ensures i >= 0 ==> rows[i].hash == hash
    ensures i == -1 <==> forall k :: 0 <= k < |rows| ==> rows[k].hash != hash
  {
    if rows == [] then -1
    else
      var first := IndexOfHash(rows[..|rows| - 1], hash);
      if first != -1 then first else if rows[|rows| - 1].hash == hash then |rows| - 1 else -1
  }

  /** The 16-bit word for a slot; the bundle index is truncated to uint16. */
  function VoteValue(prefs: Preferences, slot: Byte, rows: Table): (v: nat)
    ensures v < 0x10000
  {
    if slot !in prefs then VOTE_ABSTAIN
    else
      match prefs[slot]
      case PreferAbstain => VOTE_ABSTAIN
      case PreferAlarm => VOTE_ALARM
      case PreferUpvote(None) => VOTE_ABSTAIN
      case PreferUpvote(Some(hash)) =>
        var i := IndexOfHash(rows, hash);
        if i == -1 then VOTE_ABSTAIN else i % 0x10000
  }

  function VoteBytes(v: nat): (s: seq<Byte>)
    requires v < 0x10000
    ensures |s| == 2
  {
    [v % 0x100, v / 0x100]
  }

  /** The vector for the slots below n. Slots without pending bundles get no bytes at all. */
  function SlotBytes(bundles: Table, prefs: Preferences, n: nat): seq<Byte>
    requires n <= 256
  {
    if n == 0 then []
    else
      var rows := PendingRows(bundles, n - 1);
      SlotBytes(bundles, prefs, n - 1) + (if rows == [] then [] else VoteBytes(VoteValue(prefs, n - 1, rows)))
  }

  /** The slots below n that have pending bundles, in ascending order. */
  function PendingSlots(bundles: Table, n: nat): (slots: seq<Byte>)
    requires n <= 256
    ensures |slots| <= n
    ensures forall s: Byte :: s in slots <==> s < n && PendingRows(bundles, s) != []
    ensures forall j :: 0 <= j < |slots| ==> j <= slots[j] < n
  {
    if n == 0 then []
    else
      var below := PendingSlots(bundles, n - 1);
      if PendingRows(bundles, n - 1) == [] then below else below + [n - 1]
  }

  function Payload(bundles: Table, prefs: Preferences): seq<Byte> {
    [0x02] + SlotBytes(bundles, prefs, 256)
  }

  /** Pending bundles by sidechain, each group in query order. */
  method GroupBySidechain(bundles: Table) returns (groups: map<Byte, Table>)
    ensures forall s: Byte :: s in groups <==> PendingRows(bundles, s) != []
    ensures forall s: Byte :: s in groups ==> groups[s] == PendingRows(bundles, s)
  {
    groups := map[];
    for i := 0 to |bundles|
      invariant forall s: Byte :: s in groups <==> PendingRows(bundles[..i], s) != []
      invariant forall s: Byte :: s in groups ==> groups[s] == PendingRows(bundles[..i], s)
    {
      var b := bundles[i];
      PendingRowsStep(bundles, i);
      if b.status == Pending {
        var sofar := if b.slot in groups then groups[b.slot] else [];
        groups := groups[b.slot := sofar + [b]];
      }
    }
    assert bundles[..|bundles|] == bundles;
  }

  lemma PendingRowsStep(bundles: Table, i: nat)
    requires i < |bundles|
    ensures forall s: Byte :: PendingRows(bundles[..i + 1], s)
                           == PendingRows(bundles[..i], s) + (if IsPendingIn(bundles[i], s) then [bundles[i]] else [])
  {
    assert bundles[..i + 1][..i] == bundles[..i];
  }

  lemma {:induction false} NoSlotPending(bundles: Table, n: nat)
    requires n <= 256 && forall s: Byte :: PendingRows(bundles, s) == []
    ensures PendingSlots(bundles, n) == []
  {
    if n > 0 {
      NoSlotPending(bundles, n - 1);
    }
  }

  /** bundles is the result of the query `ORDER BY sidechain_slot, first_seen_height`. */
  method GenerateM4Bytes(bundles: Table, prefs: Preferences) returns (hex: string)
    ensures hex == if PendingSlots(bundles, 256) == [] then "" else Hex.EncodeToString(Payload(bundles, prefs))
  {
    hide PendingRows, Hex.EncodeToString, Payload;
    var bundlesBySidechain := GroupBySidechain(bundles);
    if |bundlesBySidechain| == 0 {
      NoSlotPending(bundles, 256) by { assert forall s: Byte :: s !in bundlesBySidechain; }
      return "";
    }
    ghost var s :| s in bundlesBySidechain;
    assert s in PendingSlots(bundles, 256);
    var m4Bytes := VoteVector(bundlesBySidechain, prefs, bundles);
    return Hex.EncodeToString(m4Bytes);
  }

  /** Two bytes for every slot that has a group, in ascending order. */
  method VoteVector(groups: map<Byte, Table>, prefs: Preferences, ghost bundles: Table) returns (m4Bytes: seq<Byte>)
    requires forall s: Byte :: s in groups <==> PendingRows(bundles, s) != []
    requires forall s: Byte :: s in groups ==> groups[s] == PendingRows(bundles, s)
    ensures m4Bytes == Payload(bundles, prefs)
  {
    hide PendingRows, VoteValue;
    m4Bytes := [0x02];
    for slot := 0 to 256
      invariant m4Bytes == [0x02] + SlotBytes(bundles, prefs, slot)
    {
      assert SlotBytes(bundles, prefs, slot + 1) == SlotBytes(bundles, prefs, slot)
        + (if PendingRows(bundles, slot) == [] then []
          else VoteBytes(VoteValue(prefs, slot, PendingRows(bundles, slot))));
      if slot in groups {
        var value := ChooseVote(prefs, slot, groups[slot]);
        m4Bytes := m4Bytes + [value % 0x100, value / 0x100];
      }
    }
  }

  /** The switch over the stored preference, with the search for the preferred bundle. */
  method ChooseVote(prefs: Preferences, slot: Byte, sidechainBundles: Table) returns (value: nat)
    ensures value == VoteValue(prefs, slot, sidechainBundles)
  {
    if slot !in prefs || prefs[slot].PreferAbstain? {
      return 0xFFFF;
    }
    if prefs[slot].PreferAlarm? {
      return 0xFFFE;
    }
    value := 0xFFFF;
    if prefs[slot].hash.Some? {
      var hash := prefs[slot].hash.value;
      for i := 0 to |sidechainBundles|
        invariant value == 0xFFFF && IndexOfHash(sidechainBundles[..i], hash) == -1
      {
        assert sidechainBundles[..i + 1][..i] == sidechainBundles[..i];
        if sidechainBundles[i].hash == hash {
          IndexOfHashPrefix(sidechainBundles, hash, i);
          return i % 0x10000;
        }
      }
      assert sidechainBundles[..|sidechainBundles|] == sidechainBundles;
    }
  }

  lemma {:induction false} IndexOfHashPrefix(rows: Table, hash: string, i: nat)
    requires i < |rows| && IndexOfHash(rows[..i], hash) == -1 && rows[i].hash == hash
    ensures IndexOfHash(rows, hash) == i
  {
    var n := |rows| - 1;
    if i < n {
      assert rows[..n][..i] == rows[..i];
      IndexOfHashPrefix(rows[..n], hash, i);
    }
  }

  // ---------------------------------------------------------------- parsing them back

  /** The vote a preference asks for, given the pending bundles of its slot in listing order. */
  function Intent(prefs: Preferences, slot: Byte, rows: Table): VoteKind {
    if slot !in prefs then Abstain
    else
      match prefs[slot]
      case PreferAbstain => Abstain
      case PreferAlarm => Alarm
      case PreferUpvote(None) => Abstain
      case PreferUpvote(Some(hash)) =>
        if IndexOfHash(rows, hash) == -1 then Abstain else Upvote(IndexOfHash(rows, hash))
  }

  /** The word carries the intended vote unless it is an upvote for a bundle at place 0xFFFE or beyond. */
  lemma ValueCarriesIntent(prefs: Preferences, slot: Byte, rows: Table)
    ensures var intent := Intent(prefs, slot, rows);
            Kind02(VoteValue(prefs, slot, rows)) == intent <==> (intent.Upvote? ==> intent.index < 0xFFFE)
  {
  }

  /** An OP_RETURN output with the M4 header and the given version and vector. */
  function CommitmentScript(payload: seq<Byte>): seq<Byte> {
    [OP_RETURN] + LittleEndian.Bytes(M4_COMMITMENT_HEADER, 4) + payload
  }

  function ExpectedVotes(bundles: Table, prefs: Preferences, n: nat): (votes: seq<Vote>)
    requires n <= 256
    ensures |votes| == |PendingSlots(bundles, n)|
    ensures forall j :: 0 <= j < |votes| ==>
              var slot := PendingSlots(bundles, n)[j];
              votes[j] == Vote(j, Kind02(VoteValue(prefs, slot, PendingRows(bundles, slot))))
  {
    var slots := PendingSlots(bundles, n);
    seq(|slots|, j requires 0 <= j < |slots| =>
                   Vote(j, Kind02(VoteValue(prefs, slots[j], PendingRows(bundles, slots[j])))))
  }

  lemma ExpectedSnoc(bundles: Table, prefs: Preferences, n: nat)
    requires 0 < n <= 256
    ensures var rows, k := PendingRows(bundles, n - 1), |PendingSlots(bundles, n - 1)|;
            ExpectedVotes(bundles, prefs, n) == ExpectedVotes(bundles, prefs, n - 1)
              + (if rows == [] then [] else [Vote(k, Kind02(VoteValue(prefs, n - 1, rows)))])
  {
    hide VoteValue, Kind02, PendingRows, PendingSlots, SlotBytes;
    SlotStep(bundles, prefs, n);
  }

  lemma {:induction false} SlotBytesParse(bundles: Table, prefs: Preferences, n: nat)
    requires n <= 256
    ensures ParsesTo(SlotBytes(bundles, prefs, n), |PendingSlots(bundles, n)|, ExpectedVotes(bundles, prefs, n))
  {
    hide *;
    if n > 0 {
      SlotBytesParse(bundles, prefs, n - 1);
      OneMoreSlot(bundles, prefs, n);
    } else {
      SlotStep(bundles, prefs, 0);
      NoExpectedVotes(bundles, prefs);
    }
  }

  predicate ParsesTo(vector: seq<Byte>, k: nat, votes: seq<Vote>) { |vector| == 2 * k && Votes02(vector) == votes }

  lemma OneMoreSlot(bundles: Table, prefs: Preferences, n: nat)
    requires 0 < n <= 256
    requires ParsesTo(SlotBytes(bundles, prefs, n - 1), |PendingSlots(bundles, n - 1)|,
                      ExpectedVotes(bundles, prefs, n - 1))
    ensures ParsesTo(SlotBytes(bundles, prefs, n), |PendingSlots(bundles, n)|, ExpectedVotes(bundles, prefs, n))
  {
    hide ExpectedVotes, SlotBytes, PendingSlots, PendingRows, VoteValue, VoteBytes, Votes02, Kind02;
    var below, k, rows := SlotBytes(bundles, prefs, n - 1), |PendingSlots(bundles, n - 1)|, PendingRows(bundles, n - 1);
    SlotStep(bundles, prefs, n);
    ExpectedSnoc(bundles, prefs, n);
    if rows != [] {
      PairParses(below, k, VoteValue(prefs, n - 1, rows));
    } else {
      assert ExpectedVotes(bundles, prefs, n - 1) + [] == ExpectedVotes(bundles, prefs, n - 1);
    }
  }

  lemma NoExpectedVotes(bundles: Table, prefs: Preferences)
    ensures ParsesTo([], 0, ExpectedVotes(bundles, prefs, 0))
  {
  }

  /** One more pair of bytes is one more vote. */
  lemma PairParses(vector: seq<Byte>, k: nat, v: nat)
    requires |vector| == 2 * k && k < 256 && v < 0x10000
    ensures |vector + VoteBytes(v)| == 2 * (k + 1)
    ensures Votes02(vector + VoteBytes(v)) == Votes02(vector) + [Vote(k, Kind02(v))]
  {
    hide Kind02;
    var longer := vector + VoteBytes(v);
    assert Word(v % 0x100, v / 0x100) == v;
    forall j | 0 <= j < k ensures Votes02(longer)[j] == Votes02(vector)[j] {
      assert longer[2 * j] == vector[2 * j] && longer[2 * j + 1] == vector[2 * j + 1];
    }
    assert longer[2 * k] == v % 0x100 && longer[2 * k + 1] == v / 0x100;
  }

  /** What one more slot adds to the vector and to the slots. */
  lemma SlotStep(bundles: Table, prefs: Preferences, n: nat)
    requires n <= 256
    ensures n == 0 ==> SlotBytes(bundles, prefs, 0) == [] && PendingSlots(bundles, 0) == []
    ensures n > 0 ==>
      var rows := PendingRows(bundles, n - 1);
      var below, slots := SlotBytes(bundles, prefs, n - 1), PendingSlots(bundles, n - 1);
      && SlotBytes(bundles, prefs, n) == (if rows == [] then below
        else below + VoteBytes(VoteValue(prefs, n - 1, rows)))
      && PendingSlots(bundles, n) == if rows == [] then slots else slots + [n - 1]
  {
    hide VoteValue, PendingRows, VoteBytes;
    if n > 0 {
      assert SlotBytes(bundles, prefs, n - 1) + [] == SlotBytes(bundles, prefs, n - 1);
    }
  }

  lemma HeaderReads(payload: seq<Byte>)
    requires |payload| >= 1
    ensures var script := CommitmentScript(payload);
            && |script| == 5 + |payload| && script[0] == OP_RETURN
            && script[5] == payload[0] && script[6..] == payload[1..]
            && LittleEndian.Read(script[1..5]) == M4_COMMITMENT_HEADER
  {
    var script, header := CommitmentScript(payload), LittleEndian.Bytes(M4_COMMITMENT_HEADER, 4);
    assert script[1..5] == header;
    LittleEndian.ReadBytes(M4_COMMITMENT_HEADER, 4);
    LittleEndian.PowerIs();
  }

  /** The parser reads one vote per slot with pending bundles, in ascending slot order. */
  lemma GeneratedBytesParse(bundles: Table, prefs: Preferences)
    ensures ParseM4(CommitmentScript(Payload(bundles, prefs)))
         == Success(M4Message(2, ExpectedVotes(bundles, prefs, 256)))
    ensures IsM4Commitment(CommitmentScript(Payload(bundles, prefs)))
  {
    hide SlotBytes, Votes02, ExpectedVotes, LittleEndian.Read, CommitmentScript;
    SlotBytesParse(bundles, prefs, 256);
    var payload := Payload(bundles, prefs);
    HeaderReads(payload);
    assert payload[1..] == SlotBytes(bundles, prefs, 256);
  }

  /** The pending slots are 0, 1, .., k - 1 without a gap. */
  predicate Gapless(bundles: Table) {
    forall s: Byte :: PendingRows(bundles, s) != [] <==> s < |PendingSlots(bundles, 256)|
  }

  /** Since empty slots are left out of the vector, the votes reach the slots they are meant for exactly when the
      pending slots have no gap. */
  lemma AlignedIffGapless(bundles: Table, prefs: Preferences)
    ensures var votes, slots := ExpectedVotes(bundles, prefs, 256), PendingSlots(bundles, 256);
            (forall j :: 0 <= j < |votes| ==> votes[j].slot == slots[j]) <==> Gapless(bundles)
  {
    hide PendingRows, ExpectedVotes;
    var votes, slots := ExpectedVotes(bundles, prefs, 256), PendingSlots(bundles, 256);
    assert forall j :: 0 <= j < |votes| ==> votes[j].slot == j;
    if forall j :: 0 <= j < |votes| ==> votes[j].slot == slots[j] {
      forall s: Byte ensures PendingRows(bundles, s) != [] <==> s < |slots| {
        if s < |slots| { assert votes[s].slot == slots[s] && slots[s] in slots; }
        if PendingRows(bundles, s) != [] { assert s in slots; }
      }
    }
    if Gapless(bundles) {
      SlotsAreCounted(bundles, 256);
    }
  }

  lemma {:induction false} SlotsAreCounted(bundles: Table, n: nat)
    requires n <= 256
    requires forall s: Byte, r: Byte :: s <= r && PendingRows(bundles, r) != [] ==> PendingRows(bundles, s) != []
    ensures forall j :: 0 <= j < |PendingSlots(bundles, n)| ==> PendingSlots(bundles, n)[j] == j
    ensures |PendingSlots(bundles, n)| < n ==> PendingRows(bundles, |PendingSlots(bundles, n)|) == []
  {
    hide PendingRows;
    if n > 0 {
      SlotsAreCounted(bundles, n - 1);
    }
  }

  // ---------------------------------------------------------------- applying them

  /** bundles is a result of `SELECT .. ORDER BY sidechain_slot, first_seen_height` on the table t. */
  ghost predicate IsQueryResult(t: Table, bundles: Table) {
    && multiset(bundles) == multiset(t)
    && forall i, j :: 0 <= i < j < |bundles| ==>
         || bundles[i].slot < bundles[j].slot
         || (bundles[i].slot == bundles[j].slot && bundles[i].firstSeen <= bundles[j].firstSeen)
  }

  /** No two pending bundles of a slot were first seen at the same height. */
  predicate DistinctSeen(t: Table) {
    forall i, j :: 0 <= i < j < |t| && t[i].slot == t[j].slot && t[i].status == t[j].status == Pending
                   ==> t[i].firstSeen != t[j].firstSeen
  }

  lemma {:induction false} PendingCount(t: Table, slot: Byte, b: Bundle)
    ensures multiset(PendingRows(t, slot))[b] == if IsPendingIn(b, slot) then multiset(t)[b] else 0
  {
    assert PendingRows([], slot) == [];
    hide PendingRows;
    if t != [] {
      var front, last := t[..|t| - 1], t[|t| - 1];
      PendingCount(front, slot, b);
      PendingRowsStep(t, |t| - 1);
      assert t[..|t|] == t && t == front + [last];
    }
  }

  lemma PendingPermutation(t: Table, bundles: Table, slot: Byte)
    requires multiset(bundles) == multiset(t)
    ensures multiset(PendingRows(bundles, slot)) == multiset(PendingRows(t, slot))
  {
    forall b ensures multiset(PendingRows(bundles, slot))[b] == multiset(PendingRows(t, slot))[b] {
      PendingCount(t, slot, b);
      PendingCount(bundles, slot, b);
    }
  }

  lemma {:induction false} PendingSorted(bundles: Table, slot: Byte)
    requires forall i, j :: 0 <= i < j < |bundles| && bundles[i].slot == bundles[j].slot ==>
      bundles[i].firstSeen <= bundles[j].firstSeen
    ensures ByFirstSeen(PendingRows(bundles, slot))
  {
    if bundles != [] {
      var n := |bundles| - 1;
      PendingSorted(bundles[..n], slot);
      PendingRowsAreRows(bundles[..n], slot);
      var below := PendingRows(bundles[..n], slot);
      if IsPendingIn(bundles[n], slot) {
        forall i | 0 <= i < |below| ensures below[i].firstSeen <= bundles[n].firstSeen {
          assert below[i] in below;
          var k :| 0 <= k < n && bundles[..n][k] == below[i];
        }
      }
    }
  }

  predicate HeightsTellApart(a: Table) {
    forall x, y :: x in a && y in a && x.firstSeen == y.firstSeen ==> x == y
  }

  lemma SameLast(a: Table, b: Table)
    requires multiset(a) == multiset(b) && ByFirstSeen(a) && ByFirstSeen(b) && HeightsTellApart(a)
    ensures |a| == |b| && (a != [] ==> a[|a| - 1] == b[|b| - 1])
  {
    assert |multiset(a)| == |a| && |multiset(b)| == |b|;
    if a != [] {
      var x, y := a[|a| - 1], b[|b| - 1];
      assert y in multiset(b) && x in multiset(a);
      assert y in a && x in b;
      var i :| 0 <= i < |a| && a[i] == y;
      var j :| 0 <= j < |b| && b[j] == x;
    }
  }

  lemma ButLast(a: Table)
    requires a != []
    ensures multiset(a[..|a| - 1]) == multiset(a) - multiset{a[|a| - 1]}
    ensures forall x :: x in a[..|a| - 1] ==> x in a
  {
    assert a == a[..|a| - 1] + [a[|a| - 1]];
  }

  /** Lists sorted by a height that tells their elements apart are determined by their elements. */
  lemma {:induction false} SortedUnique(a: Table, b: Table)
    requires multiset(a) == multiset(b) && ByFirstSeen(a) && ByFirstSeen(b) && HeightsTellApart(a)
    ensures a == b
  {
    SameLast(a, b);
    if a == [] {
      assert b == [];
    } else {
      var n := |a| - 1;
      var fronts, last := (a[..n], b[..n]), a[n];
      ButLast(a);
      ButLast(b);
      SortedUnique(fronts.0, fronts.1);
      assert a == fronts.0 + [last];
      assert b == fronts.1 + [last];
    }
  }

  lemma PendingDistinct(t: Table, slot: Byte, x: Bundle, y: Bundle)
    requires DistinctSeen(t) && x in PendingRows(t, slot) && y in PendingRows(t, slot) && x.firstSeen == y.firstSeen
    ensures x == y
  {
    PendingRowsAreRows(t, slot);
    var i :| 0 <= i < |t| && t[i] == x;
    var j :| 0 <= j < |t| && t[j] == y;
    if i < j {
      assert t[i].firstSeen != t[j].firstSeen || t[i] == t[j];
    } else if j < i {
      assert t[j].firstSeen != t[i].firstSeen || t[i] == t[j];
    }
  }

  /** Then the upvote's listing and the generator's listing of a slot are the same. */
  lemma ListingUnique(t: Table, bundles: Table, slot: Byte, listing: Table)
    requires IsQueryResult(t, bundles) && DistinctSeen(t) && IsListing(t, slot, listing)
    ensures listing == PendingRows(bundles, slot)
  {
    hide DistinctSeen;
    var rows := PendingRows(bundles, slot);
    PendingPermutation(t, bundles, slot);
    PendingSorted(bundles, slot);
    forall x, y | x in listing && y in listing && x.firstSeen == y.firstSeen ensures x == y {
      assert x in multiset(listing) && y in multiset(listing);
      PendingDistinct(t, slot, x, y);
    }
    SortedUnique(listing, rows);
  }

  /** What a stored preference means for one row: alarms lower every pending row of the slot, an upvote raises the
      preferred bundle and nothing else, and anything else only records that the slot was looked at. */
  function Outcome(t: Table, prefs: Preferences, height: nat, b: Bundle): Bundle {
    if b.status != Pending then b
    else if b.slot !in prefs then b.(lastUpdated := height)
    else
      match prefs[b.slot]
      case PreferAbstain => b.(lastUpdated := height)
      case PreferAlarm => b.(score := if b.score == 0 then 0 else b.score - 1, lastUpdated := height)
      case PreferUpvote(None) => b.(lastUpdated := height)
      case PreferUpvote(Some(hash)) =>
        if !IsPendingHash(t, b.slot, hash) then b.(lastUpdated := height)
        else if b.hash == hash then b.(score := b.score + 1, lastUpdated := height)
        else b
  }

  predicate IsPendingHash(t: Table, slot: Byte, hash: string) {
    exists i :: 0 <= i < |t| && IsPendingIn(t[i], slot) && t[i].hash == hash
  }

  lemma PreferredFound(t: Table, rows: Table, slot: Byte, hash: string)
    requires multiset(rows) == multiset(PendingRows(t, slot))
    ensures IsPendingHash(t, slot, hash) <==> IndexOfHash(rows, hash) != -1
    ensures var k := IndexOfHash(rows, hash); k != -1 ==> rows[k] in t && IsPendingIn(rows[k], slot)
  {
    hide PendingRows;
    PendingRowsAreRows(t, slot);
    var k := IndexOfHash(rows, hash);
    if i :| 0 <= i < |t| && IsPendingIn(t[i], slot) && t[i].hash == hash {
      assert t[i] in PendingRows(t, slot);
      assert t[i] in multiset(rows);
    }
    if k != -1 {
      assert rows[k] in multiset(rows);
      assert rows[k] in PendingRows(t, slot);
    }
  }

  lemma PreferredRow(t: Table, rows: Table, slot: Byte, hash: string)
    requires UniqueKeys(t) && multiset(rows) == multiset(PendingRows(t, slot))
    ensures IsPendingHash(t, slot, hash) <==> IndexOfHash(rows, hash) != -1
    ensures var k := IndexOfHash(rows, hash);
            k != -1 ==> forall i :: 0 <= i < |t| && IsPendingIn(t[i], slot) ==> (t[i] == rows[k] <==> t[i].hash == hash)
  {
    hide PendingRows, IsPendingHash;
    PreferredFound(t, rows, slot, hash);
    var k := IndexOfHash(rows, hash);
    if k != -1 {
      var m :| 0 <= m < |t| && t[m] == rows[k];
      forall i | 0 <= i < |t| && IsPendingIn(t[i], slot) && t[i].hash == hash ensures t[i] == rows[k] {
        assert i == m;
      }
    }
  }

  /** Rows of slots below n have their outcome, the others are untouched. */
  predicate DoneBelow(t: Table, prefs: Preferences, height: nat, n: nat, t': Table) {
    && |t'| == |t|
    && forall i :: 0 <= i < |t| ==> t'[i] == if t[i].slot < n then Outcome(t, prefs, height, t[i]) else t[i]
  }

  lemma {:induction false} SamePendingRows(t: Table, mid: Table, slot: Byte)
    requires |mid| == |t|
    requires forall i :: 0 <= i < |t| ==> if t[i].slot == slot then mid[i] == t[i] else mid[i].slot != slot
    ensures PendingRows(mid, slot) == PendingRows(t, slot)
  {
    if t != [] {
      var n := |t| - 1;
      SamePendingRows(t[..n], mid[..n], slot);
    }
  }

  /** One generated vote does to its slot what the preference means. */
  lemma VoteOutcome(t: Table, bundles: Table, prefs: Preferences, height: nat, s: Byte, mid: Table, t': Table)
    requires UniqueKeys(t) && DistinctSeen(t) && IsQueryResult(t, bundles)
    requires DoneBelow(t, prefs, height, s, mid)
    requires VoteApplied(mid, Vote(s, Intent(prefs, s, PendingRows(bundles, s))), height, t')
    ensures DoneBelow(t, prefs, height, s + 1, t')
  {
    hide UniqueKeys, DistinctSeen, IsQueryResult, PendingRows, IsListing, IsPendingHash;
    var rows := PendingRows(bundles, s);
    SamePendingRows(t, mid, s);
    PendingPermutationOfQuery(t, bundles, s);
    if s in prefs && prefs[s].PreferUpvote? && prefs[s].hash.Some? {
      PreferredRow(t, rows, s, prefs[s].hash.value);
    }
    match Intent(prefs, s, rows)
    case Upvote(k) =>
      var listing :| IsListing(mid, s, listing)
                     && t' == if k < |listing| then Replaced(mid, listing[k], height) else mid;
      SameListing(t, mid, s, listing);
      ListingUnique(t, bundles, s, listing);
      RowIsPending(t, bundles, s, k);
    case _ =>
  }

  lemma SameListing(t: Table, mid: Table, s: Byte, listing: Table)
    requires PendingRows(mid, s) == PendingRows(t, s) && IsListing(mid, s, listing)
    ensures IsListing(t, s, listing)
  {
  }

  lemma PendingPermutationOfQuery(t: Table, bundles: Table, s: Byte)
    requires IsQueryResult(t, bundles)
    ensures multiset(PendingRows(bundles, s)) == multiset(PendingRows(t, s))
  {
    PendingPermutation(t, bundles, s);
  }

  lemma RowIsPending(t: Table, bundles: Table, s: Byte, k: nat)
    requires k < |PendingRows(bundles, s)|
    ensures IsPendingIn(PendingRows(bundles, s)[k], s)
  {
    PendingRowsAreRows(bundles, s);
    assert PendingRows(bundles, s)[k] in PendingRows(bundles, s);
  }

  lemma {:induction false} VotesOutcome(t: Table, bundles: Table, prefs: Preferences, height: nat, votes: seq<Vote>,
                                        t': Table)
    requires UniqueKeys(t) && DistinctSeen(t) && IsQueryResult(t, bundles)
    requires |votes| <= 256 && VotesApplied(t, votes, height, t')
    requires forall j :: 0 <= j < |votes| ==> votes[j] == Vote(j, Intent(prefs, j, PendingRows(bundles, j)))
    ensures DoneBelow(t, prefs, height, |votes|, t')
    decreases |votes|
  {
    hide UniqueKeys, DistinctSeen, IsQueryResult, PendingRows, VoteApplied, Intent, Outcome;
    if votes != [] {
      var n := |votes| - 1;
      var mid :| VotesApplied(t, votes[..n], height, mid) && VoteApplied(mid, votes[n], height, t');
      VotesOutcome(t, bundles, prefs, height, votes[..n], mid);
      VoteOutcome(t, bundles, prefs, height, n, mid, t');
    }
  }

  lemma IntentIsExpected(bundles: Table, prefs: Preferences, j: nat)
    requires Gapless(bundles) && j < |PendingSlots(bundles, 256)|
    requires forall s: Byte :: |PendingRows(bundles, s)| <= 0xFFFE
    ensures ExpectedVotes(bundles, prefs, 256)[j] == Vote(j, Intent(prefs, j, PendingRows(bundles, j)))
  {
    hide PendingRows;
    AlignedIffGapless(bundles, prefs);
    ValueCarriesIntent(prefs, j, PendingRows(bundles, j));
  }

  lemma NoPendingAbove(t: Table, bundles: Table, i: nat)
    requires IsQueryResult(t, bundles) && Gapless(bundles) && i < |t| && t[i].status == Pending
    ensures t[i].slot < |PendingSlots(bundles, 256)|
  {
    hide PendingSlots;
    PendingRowsAreRows(t, t[i].slot);
    assert t[i] in PendingRows(t, t[i].slot);
    PendingPermutationOfQuery(t, bundles, t[i].slot);
    assert t[i] in multiset(PendingRows(t, t[i].slot));
    assert PendingRows(bundles, t[i].slot) != [];
  }

  /** Generate, parse, apply: when the pending slots have no gap, no slot has more than 0xFFFE pending bundles and
      first-seen heights are distinct within a slot, the generated bytes, mined and processed against the same
      table, do to every row exactly what the stored preferences mean. */
  lemma PreferencesTakeEffect(t: Table, bundles: Table, prefs: Preferences, height: nat, t': Table)
    requires UniqueKeys(t) && DistinctSeen(t) && IsQueryResult(t, bundles)
    requires Gapless(bundles) && forall s: Byte :: |PendingRows(bundles, s)| <= 0xFFFE
    requires VotesApplied(t, BlockVotes([CommitmentScript(Payload(bundles, prefs))]), height, t')
    ensures |t'| == |t| && forall i :: 0 <= i < |t| ==> t'[i] == Outcome(t, prefs, height, t[i])
    ensures forall i :: 0 <= i < |t| ==> t'[i].score == ScoreMeant(prefs, t[i])
  {
    hide UniqueKeys, DistinctSeen, IsQueryResult, PendingRows, VotesApplied, ParseM4, IsM4Commitment, CommitmentScript,
         Payload, Gapless, Intent, Outcome, ScoreMeant;
    GeneratedBytesParse(bundles, prefs);
    var votes := ExpectedVotes(bundles, prefs, 256);
    forall j | 0 <= j < |votes| ensures votes[j] == Vote(j, Intent(prefs, j, PendingRows(bundles, j))) {
      IntentIsExpected(bundles, prefs, j);
    }
    VotesOutcome(t, bundles, prefs, height, votes, t');
    forall i | 0 <= i < |t|
      ensures t'[i] == Outcome(t, prefs, height, t[i]) && t'[i].score == ScoreMeant(prefs, t[i])
    {
      OutcomeScore(t, prefs, height, i);
      if t[i].status == Pending { NoPendingAbove(t, bundles, i); }
    }
  }

  /** The score a row has afterwards: one more if it is preferred, one less but not below zero if its slot is alarmed,
      and the same otherwise. */
  function ScoreMeant(prefs: Preferences, b: Bundle): int {
    if b.status != Pending || b.slot !in prefs then b.score
    else if prefs[b.slot] == PreferUpvote(Some(b.hash)) then b.score + 1
    else if prefs[b.slot] == PreferAlarm && b.score > 0 then b.score - 1
    else b.score
  }

  lemma OutcomeScore(t: Table, prefs: Preferences, height: nat, i: nat)
    requires i < |t|
    ensures Outcome(t, prefs, height, t[i]).score == ScoreMeant(prefs, t[i])
    ensures t[i].status != Pending ==> Outcome(t, prefs, height, t[i]) == t[i]
  {
  }

  /** With a gap the votes go astray: an alarm for slot 1, the only slot with a pending bundle, is applied to slot 0
      and leaves the bundle's score alone. */
  lemma GapMisleads(height: nat)
    ensures var b := Bundle(1, "w", 1, 26299, 0, 0, Pending);
            var prefs: Preferences := map[1 := PreferAlarm];
            && ParseM4(CommitmentScript(Payload([b], prefs))) == Success(M4Message(2, [Vote(0, Alarm)]))
            && AlarmedAll([b], 0, height) == [b]
            && Outcome([b], prefs, height, b).score == 0
  {
    hide CommitmentScript, Payload, ParseM4, PendingRows, PendingSlots;
    var b := Bundle(1, "w", 1, 26299, 0, 0, Pending);
    var prefs: Preferences := map[1 := PreferAlarm];
    GeneratedBytesParse([b], prefs);
    OnlySlotOne(b, 256);
    assert ExpectedVotes([b], prefs, 256) == [Vote(0, Alarm)];
    assert AlarmedAll([b], 0, height) == [b];
  }

  lemma {:induction false} OnlySlotOne(b: Bundle, n: nat)
    requires 2 <= n <= 256 && IsPendingIn(b, 1)
    ensures PendingSlots([b], n) == [1] && PendingRows([b], 1) == [b]
  {
    assert PendingRows([b][..0], 1) == [];
    forall s: Byte ensures PendingRows([b], s) == if s == 1 then [b] else [] {
      assert PendingRows([b][..0], s) == [];
    }
    if n > 2 {
      OnlySlotOne(b, n - 1);
    } else {
      assert PendingSlots([b], 1) == [];
    }
  }
}
