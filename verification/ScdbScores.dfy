/** Scores in numbers: which row an upvote raises, what a row's score is after any run, and that steady support
    leads to approval. */
module ScdbScores {
  import opened Numerals
  import opened Wrappers
  import opened M4Messages
  import opened Scdb
  import opened ScdbRuns

  // ---------------------------------------------------------------- counting the pending rows of a slot

  function InSlot(t: Table, slot: Byte): nat {
    if t == [] then 0
    else InSlot(t[..|t| - 1], slot) + (if t[|t| - 1].slot == slot && t[|t| - 1].status == Pending then 1 else 0)
  }

  /** Those first seen below height f. */
  function Older(t: Table, slot: Byte, f: nat): nat {
    if t == [] then 0
    else
      var last := t[|t| - 1];
      Older(t[..|t| - 1], slot, f)
      + (if last.slot == slot && last.status == Pending && last.firstSeen < f then 1 else 0)
  }

  function Below(rows: Table, f: nat): nat {
    if rows == [] then 0 else Below(rows[..|rows| - 1], f) + (if rows[|rows| - 1].firstSeen < f then 1 else 0)
  }

  lemma {:induction false} OlderIsBelow(t: Table, slot: Byte, f: nat)
    ensures InSlot(t, slot) == |PendingRows(t, slot)| && Older(t, slot, f) == Below(PendingRows(t, slot), f)
  {
    if t != [] {
      var n := |t| - 1;
      OlderIsBelow(t[..n], slot, f);
      var rows := PendingRows(t[..n], slot);
      assert (rows + [t[n]])[..|rows|] == rows && rows + [] == rows;
    }
  }

  lemma {:induction false} BelowAppend(a: Table, b: Table, f: nat)
    ensures Below(a + b, f) == Below(a, f) + Below(b, f)
  {
    if b == [] {
      assert a + b == a;
    } else {
      BelowAppend(a, b[..|b| - 1], f);
      assert (a + b)[..|a + b| - 1] == a + b[..|b| - 1];
    }
  }

  lemma {:induction false} BelowPermutation(a: Table, b: Table, f: nat)
    requires multiset(a) == multiset(b)
    ensures |a| == |b| && Below(a, f) == Below(b, f)
  {
    hide Below;
    assert |multiset(a)| == |a| && |multiset(b)| == |b|;
    if a != [] {
      var n := |a| - 1;
      assert a[n] in multiset(b);
      var i :| 0 <= i < |b| && b[i] == a[n];
      WithoutOne(a, n, f);
      WithoutOne(b, i, f);
      assert a[..n] + a[n + 1..] == a[..n];
      BelowPermutation(a[..n], b[..i] + b[i + 1..], f);
    }
  }

  lemma WithoutOne(s: Table, i: nat, f: nat)
    requires i < |s|
    ensures var rest := s[..i] + s[i + 1..];
            && multiset(rest) == multiset(s) - multiset{s[i]}
            && Below(s, f) == Below(rest, f) + if s[i].firstSeen < f then 1 else 0
  {
    assert s == s[..i] + ([s[i]] + s[i + 1..]);
    BelowAppend(s[..i], [s[i]] + s[i + 1..], f);
    BelowAppend([s[i]], s[i + 1..], f);
    BelowAppend(s[..i], s[i + 1..], f);
    assert [s[i]][..0] == [];
  }

  /** In a list sorted by height the rows below f come first. */
  lemma {:induction false} BelowSorted(rows: Table, f: nat, k: nat)
    requires k < |rows| && forall i, j :: 0 <= i < j < |rows| ==> rows[i].firstSeen <= rows[j].firstSeen
    ensures rows[k].firstSeen >= f ==> Below(rows, f) <= k
    ensures rows[k].firstSeen < f ==> k < Below(rows, f)
  {
    var n := |rows| - 1;
    if k < n {
      BelowSorted(rows[..n], f, k);
    } else if n > 0 {
      BelowSorted(rows[..n], f, n - 1);
      BelowAtMost(rows[..n], f);
    }
  }

  lemma {:induction false} BelowAtMost(rows: Table, f: nat)
    ensures Below(rows, f) <= |rows|
  {
    if rows != [] {
      BelowAtMost(rows[..|rows| - 1], f);
    }
  }

  /** Row i is a pending row of the slot with k older ones, up to rows first seen at the same height. */
  predicate AtPlace(t: Table, slot: Byte, k: nat, i: nat) {
    && i < |t| && t[i].slot == slot && t[i].status == Pending
    && Older(t, slot, t[i].firstSeen) <= k < Older(t, slot, t[i].firstSeen + 1)
  }

  lemma ListingPlace(t: Table, slot: Byte, listing: Table, k: nat) returns (i: nat)
    requires IsListing(t, slot, listing) && k < |listing|
    ensures AtPlace(t, slot, k, i) && t[i] == listing[k]
  {
    hide Older, Below, PendingRows;
    var f := listing[k].firstSeen;
    ListingRow(t, slot, listing, k);
    i :| 0 <= i < |t| && t[i] == listing[k];
    forall g: nat ensures Older(t, slot, g) == Below(listing, g) {
      OlderIsBelow(t, slot, g);
      BelowPermutation(listing, PendingRows(t, slot), g);
    }
    BelowSorted(listing, f, k);
    BelowSorted(listing, f + 1, k);
  }

  // ---------------------------------------------------------------- one vote

  /** The row an upvote raises: the one at the place it names, or none when the slot has no more pending rows. */
  predicate PickOk(t: Table, vote: Vote, pick: Option<nat>) {
    match vote.kind
    case Upvote(k) =>
      if k < InSlot(t, vote.slot) then pick.Some? && AtPlace(t, vote.slot, k, pick.value) else pick == None
    case _ => pick == None
  }

  /** Row i after a vote, in numbers. */
  function Scored(b: Bundle, i: nat, vote: Vote, pick: Option<nat>, height: nat): Bundle {
    if b.status != Pending then b
    else if vote == Vote(b.slot, Alarm) then
      Bundle(b.slot, b.hash, if b.score == 0 then 0 else b.score - 1, b.blocksLeft, b.firstSeen, height, Pending)
    else if vote == Vote(b.slot, Abstain) then
      Bundle(b.slot, b.hash, b.score, b.blocksLeft, b.firstSeen, height, Pending)
    else if pick == Some(i) then
      Bundle(b.slot, b.hash, b.score + 1, b.blocksLeft, b.firstSeen, height, Pending)
    else b
  }

  /** An upvote adds one point to the row at its place and leaves all others alone; an alarm takes a point from every
      pending row of its slot that has one; an abstention only marks the slot's pending rows as looked at. */
  lemma VoteInNumbers(t: Table, vote: Vote, height: nat, t': Table) returns (pick: Option<nat>)
    requires UniqueKeys(t) && VoteApplied(t, vote, height, t')
    ensures PickOk(t, vote, pick)
    ensures |t'| == |t| && forall i :: 0 <= i < |t| ==> t'[i] == Scored(t[i], i, vote, pick, height)
  {
    hide UniqueKeys, IsListing, Older, InSlot;
    pick := None;
    match vote.kind
    case Upvote(k) =>
      var listing :| IsListing(t, vote.slot, listing)
                     && t' == if k < |listing| then Replaced(t, listing[k], height) else t;
      ListingSize(t, vote.slot, listing);
      if k < |listing| {
        var i := ListingPlace(t, vote.slot, listing, k);
        pick := Some(i);
        OtherRows(t, i);
      }
    case _ =>
  }

  lemma ListingSize(t: Table, slot: Byte, listing: Table)
    requires IsListing(t, slot, listing)
    ensures |listing| == InSlot(t, slot)
  {
    OlderIsBelow(t, slot, 0);
    BelowPermutation(listing, PendingRows(t, slot), 0);
  }

  // ---------------------------------------------------------------- the votes of a block

  function Tallied(b: Bundle, i: nat, votes: seq<Vote>, picks: seq<Option<nat>>, height: nat): Bundle
    requires |picks| == |votes|
  {
    if votes == [] then b
    else
      var n := |votes| - 1;
      Scored(Tallied(b, i, votes[..n], picks[..n], height), i, votes[n], picks[n], height)
  }

  lemma {:induction false} SamePlaces(t: Table, t': Table, slot: Byte, f: nat)
    requires Revoted(t, t')
    ensures InSlot(t', slot) == InSlot(t, slot) && Older(t', slot, f) == Older(t, slot, f)
  {
    if t != [] {
      var n := |t| - 1;
      assert RevotedRow(t[n], t'[n]);
      SamePlaces(t[..n], t'[..n], slot, f);
    }
  }

  lemma SamePick(t: Table, t': Table, vote: Vote, pick: Option<nat>)
    requires Revoted(t, t') && PickOk(t', vote, pick)
    ensures PickOk(t, vote, pick)
  {
    hide Older, InSlot;
    SamePlaces(t, t', vote.slot, 0);
    if pick.Some? && pick.value < |t| {
      assert RevotedRow(t[pick.value], t'[pick.value]);
      SamePlaces(t, t', vote.slot, t[pick.value].firstSeen);
      SamePlaces(t, t', vote.slot, t[pick.value].firstSeen + 1);
    }
  }

  lemma {:induction false} VotesInNumbers(t: Table, votes: seq<Vote>, height: nat, t': Table)
    returns (picks: seq<Option<nat>>)
    requires UniqueKeys(t) && VotesApplied(t, votes, height, t')
    ensures |picks| == |votes| && forall j :: 0 <= j < |votes| ==> PickOk(t, votes[j], picks[j])
    ensures |t'| == |t| && forall i :: 0 <= i < |t| ==> t'[i] == Tallied(t[i], i, votes, picks, height)
    decreases |votes|
  {
    hide UniqueKeys, VoteApplied, PickOk, Scored;
    picks := [];
    if votes != [] {
      var n := |votes| - 1;
      var mid :| VotesApplied(t, votes[..n], height, mid) && VoteApplied(mid, votes[n], height, t');
      var before := VotesInNumbers(t, votes[..n], height, mid);
      VotesEffect(t, votes[..n], height, mid, 0);
      var pick := VoteInNumbers(mid, votes[n], height, t');
      SamePick(t, mid, votes[n], pick);
      picks := before + [pick];
      assert picks[..n] == before;
    }
  }

  // ---------------------------------------------------------------- the proposals of a block

  /** The table once a block's proposals are in. */
  function Opened(t: Table, height: nat, outputs: seq<seq<Byte>>): Table {
    InsertedAll(t, Proposals(outputs), height)
  }

  ghost predicate ProposedIn(outputs: seq<seq<Byte>>, slot: Byte, hash: string) {
    exists k :: 0 <= k < |outputs| && ParseM3(outputs[k]) == Success(M3Message(slot, hash))
  }

  predicate RowFor(t: Table, slot: Byte, hash: string) {
    exists i :: 0 <= i < |t| && t[i].slot == slot && t[i].hash == hash
  }

  lemma {:induction false} ProposalsAre(outputs: seq<seq<Byte>>, slot: Byte, hash: string)
    ensures M3Message(slot, hash) in Proposals(outputs) <==> ProposedIn(outputs, slot, hash)
  {
    hide ParseM3;
    if outputs != [] {
      var n := |outputs| - 1;
      ProposalsAre(outputs[..n], slot, hash);
      if k :| 0 <= k < |outputs| && ParseM3(outputs[k]) == Success(M3Message(slot, hash)) {
        assert k < n ==> outputs[..n][k] == outputs[k];
      }
      if k :| 0 <= k < n && ParseM3(outputs[..n][k]) == Success(M3Message(slot, hash)) {
        assert outputs[..n][k] == outputs[k];
      }
    }
  }

  lemma {:induction false} InsertedRows(t: Table, ms: seq<M3Message>, height: nat, slot: Byte, hash: string)
    ensures RowFor(InsertedAll(t, ms, height), slot, hash) <==> RowFor(t, slot, hash) || M3Message(slot, hash) in ms
  {
    if ms != [] {
      var n := |ms| - 1;
      var mid, m := InsertedAll(t, ms[..n], height), ms[n];
      InsertedRows(t, ms[..n], height, slot, hash);
      assert ms == ms[..n] + [m];
      var after := Inserted(mid, m, height);
      if RowFor(mid, slot, hash) {
        var i :| 0 <= i < |mid| && mid[i].slot == slot && mid[i].hash == hash;
        assert after[i] == mid[i];
      }
      if m == M3Message(slot, hash) && after != mid {
        assert after[|mid|].slot == slot && after[|mid|].hash == hash;
      }
    }
  }

  /** A block's proposals give every bundle they name one row, if it has none yet: pending, with one point, 26300
      blocks to live and the block's height, behind the rows that were there. */
  lemma OpenedIs(t: Table, height: nat, outputs: seq<seq<Byte>>)
    requires UniqueKeys(t)
    ensures var start := Opened(t, height, outputs);
            && t <= start && UniqueKeys(start)
            && (forall i :: |t| <= i < |start| ==>
                  start[i] == Bundle(start[i].slot, start[i].hash, 1, 26300, height, height, Pending))
            && forall slot: Byte, hash: string ::
                 RowFor(start, slot, hash) <==> RowFor(t, slot, hash) || ProposedIn(outputs, slot, hash)
  {
    hide UniqueKeys, Proposals, InsertedAll, RowFor, ProposedIn;
    InsertedEffect(t, Proposals(outputs), height, 0);
    forall slot: Byte, hash: string
      ensures RowFor(Opened(t, height, outputs), slot, hash)
         <==> RowFor(t, slot, hash) || ProposedIn(outputs, slot, hash)
    {
      InsertedRows(t, Proposals(outputs), height, slot, hash);
      ProposalsAre(outputs, slot, hash);
    }
  }

  /** The votes are those of the first output with an M4 commitment, and none if that does not parse. */
  lemma {:induction false} VotesOfFirst(outputs: seq<seq<Byte>>, k: nat)
    requires k <= |outputs| && forall j :: 0 <= j < k ==> !IsM4Commitment(outputs[j])
    ensures k == |outputs| ==> BlockVotes(outputs) == []
    ensures k < |outputs| && IsM4Commitment(outputs[k]) ==>
              BlockVotes(outputs) == if ParseM4(outputs[k]).Success? then ParseM4(outputs[k]).value.votes else []
  {
    hide ParseM4, IsM4Commitment;
    if k > 0 {
      VotesOfFirst(outputs[1..], k - 1);
    }
  }

  // ---------------------------------------------------------------- one block

  /** What ageing leaves alone, and what it decides. */
  lemma AgedInNumbers(b: Bundle)
    requires b.status == Pending ==> b.blocksLeft > 0
    ensures b.status != Pending ==> AgedRow(b) == b
    ensures b.status == Pending ==>
              var status := if b.score >= 13150 then Approved else if b.blocksLeft == 1 then Failed else Pending;
              AgedRow(b) == Bundle(b.slot, b.hash, b.score, b.blocksLeft - 1, b.firstSeen, b.lastUpdated, status)
  {
  }

  ghost predicate PicksOk(start: Table, votes: seq<Vote>, picks: seq<Option<nat>>) {
    |picks| == |votes| && forall j :: 0 <= j < |votes| ==> PickOk(start, votes[j], picks[j])
  }

  /** Every row after a block: opened, tallied vote by vote, and aged. */
  lemma BlockInNumbers(t: Table, height: nat, outputs: seq<seq<Byte>>, t': Table) returns (picks: seq<Option<nat>>)
    requires Inv(t) && BlockApplied(t, height, outputs, t')
    ensures var start, votes := Opened(t, height, outputs), BlockVotes(outputs);
            && PicksOk(start, votes, picks) && |t'| == |start|
            && forall i :: 0 <= i < |t'| ==> t'[i] == AgedRow(Tallied(start[i], i, votes, picks, height))
  {
    hide UniqueKeys, RowInv, Proposals, BlockVotes, InsertedAll, VotesApplied, AgedRow, Tallied, PickOk;
    var start, votes := Opened(t, height, outputs), BlockVotes(outputs);
    var mid: Table :| VotesApplied(start, votes, height, mid) && t' == Aged(mid);
    InsertedEffect(t, Proposals(outputs), height, 0);
    picks := VotesInNumbers(start, votes, height, mid);
  }

  /** A score and the votes of a block, with the rows their upvotes raised. */
  function TalliedScore(score: nat, slot: Byte, i: nat, votes: seq<Vote>, picks: seq<Option<nat>>): nat
    requires |picks| == |votes|
  {
    if votes == [] then score
    else
      var n := |votes| - 1;
      var before := TalliedScore(score, slot, i, votes[..n], picks[..n]);
      if votes[n] == Vote(slot, Alarm) then (if before == 0 then 0 else before - 1)
      else if picks[n] == Some(i) then before + 1
      else before
  }

  lemma {:induction false} TalliedIs(b: Bundle, i: nat, votes: seq<Vote>, picks: seq<Option<nat>>, height: nat)
    requires |picks| == |votes| && b.status == Pending
    requires forall j :: 0 <= j < |votes| && picks[j] == Some(i) ==> votes[j].kind.Upvote?
    ensures var b' := Tallied(b, i, votes, picks, height);
            && b' == b.(score := b'.score, lastUpdated := b'.lastUpdated)
            && b'.score == TalliedScore(b.score, b.slot, i, votes, picks)
  {
    if votes != [] {
      var n := |votes| - 1;
      TalliedIs(b, i, votes[..n], picks[..n], height);
    }
  }

  lemma {:induction false} TalliedFinal(b: Bundle, i: nat, votes: seq<Vote>, picks: seq<Option<nat>>, height: nat)
    requires |picks| == |votes| && b.status != Pending
    ensures Tallied(b, i, votes, picks, height) == b
  {
    if votes != [] {
      TalliedFinal(b, i, votes[..|votes| - 1], picks[..|votes| - 1], height);
    }
  }

  /** The scores after a block, from those before: a new row starts at one point, and a row that is no longer pending
      keeps what it has. */
  lemma BlockScores(t: Table, height: nat, outputs: seq<seq<Byte>>, t': Table, picks: seq<Option<nat>>, i: nat)
    requires Inv(t) && i < |t'|
    requires var start, votes := Opened(t, height, outputs), BlockVotes(outputs);
             && PicksOk(start, votes, picks) && |t'| == |start|
             && t'[i] == AgedRow(Tallied(start[i], i, votes, picks, height))
    ensures var before := if i < |t| then t[i].score else 1;
            t'[i].score == if i < |t| && t[i].status != Pending then before
                           else TalliedScore(before, t'[i].slot, i, BlockVotes(outputs), picks)
  {
    hide UniqueKeys, RowInv, Proposals, BlockVotes, InsertedAll, Tallied, TalliedScore, AtPlace, InSlot;
    InsertedEffect(t, Proposals(outputs), height, 0);
    var start, votes := Opened(t, height, outputs), BlockVotes(outputs);
    assert i < |t| ==> start[i] == t[i];
    if start[i].status == Pending {
      assert forall j :: 0 <= j < |votes| ==> PickOk(start, votes[j], picks[j]);
      TalliedIs(start[i], i, votes, picks, height);
    } else {
      TalliedFinal(start[i], i, votes, picks, height);
    }
  }

  // ---------------------------------------------------------------- any run

  /** For every block the rows its upvotes raised. */
  ghost predicate Ballots(tables: seq<Table>, blocks: seq<(nat, seq<seq<Byte>>)>, ballots: seq<seq<Option<nat>>>) {
    && |tables| == |blocks| + 1 && |ballots| == |blocks|
    && forall b :: 0 <= b < |blocks| ==>
         PicksOk(Opened(tables[b], blocks[b].0, blocks[b].1), BlockVotes(blocks[b].1), ballots[b])
  }

  /** The score of row i, inserted by block m - 1, after n blocks: one point, and then what the votes of each block
      give and take for as long as the row is pending. */
  ghost function ScoreAt(tables: seq<Table>, blocks: seq<(nat, seq<seq<Byte>>)>, ballots: seq<seq<Option<nat>>>,
                         i: nat, slot: Byte, m: nat, n: nat): nat
    requires Ballots(tables, blocks, ballots) && 1 <= m <= n + 1 <= |blocks| + 1
    decreases n
  {
    if n < m then 1
    else
      var before := ScoreAt(tables, blocks, ballots, i, slot, m, n - 1);
      if i < |tables[n - 1]| && tables[n - 1][i].status != Pending then before
      else TalliedScore(before, slot, i, BlockVotes(blocks[n - 1].1), ballots[n - 1])
  }

  /** The rows the upvotes of a run raised, block by block. */
  lemma {:induction false} BallotsOf(tables: seq<Table>, blocks: seq<(nat, seq<seq<Byte>>)>, n: nat)
    returns (ballots: seq<seq<Option<nat>>>)
    requires IsRun(tables, blocks) && n <= |blocks|
    ensures |ballots| == n && forall b :: 0 <= b < n ==> ScoresStep(tables, blocks, b, ballots[b])
  {
    hide IsRun, ScoresStep;
    ballots := [];
    if n > 0 {
      var before := BallotsOf(tables, blocks, n - 1);
      var picks := StepOf(tables, blocks, n - 1);
      ballots := before + [picks];
    }
  }

  /** Block b gives row i its new score. */
  ghost predicate ScoresStep(tables: seq<Table>, blocks: seq<(nat, seq<seq<Byte>>)>, b: nat, picks: seq<Option<nat>>) {
    && b < |blocks| && |tables| == |blocks| + 1
    && var t, t', votes := tables[b], tables[b + 1], BlockVotes(blocks[b].1);
    && PicksOk(Opened(t, blocks[b].0, blocks[b].1), votes, picks)
    && forall i :: 0 <= i < |t'| ==>
         t'[i].score == if i < |t| && t[i].status != Pending then t[i].score
                        else TalliedScore(if i < |t| then t[i].score else 1, t'[i].slot, i, votes, picks)
  }

  lemma StepOf(tables: seq<Table>, blocks: seq<(nat, seq<seq<Byte>>)>, b: nat) returns (picks: seq<Option<nat>>)
    requires IsRun(tables, blocks) && b < |blocks|
    ensures ScoresStep(tables, blocks, b, picks)
  {
    hide Inv, BlockApplied, Opened, BlockVotes, Tallied, TalliedScore, PickOk;
    var t, t', height, outputs := tables[b], tables[b + 1], blocks[b].0, blocks[b].1;
    RunInv(tables, blocks, b);
    assert BlockApplied(t, height, outputs, t');
    picks := BlockInNumbers(t, height, outputs, t');
    forall i | 0 <= i < |t'|
      ensures t'[i].score == if i < |t| && t[i].status != Pending then t[i].score
        else TalliedScore(if i < |t| then t[i].score else 1, t'[i].slot, i, BlockVotes(outputs), picks)
    {
      BlockScores(t, height, outputs, t', picks, i);
    }
  }

  /** In every run a bundle's score is exactly one point for its proposal, plus one for every upvote that selects it
      while it is pending, less one, but never below zero, for every alarm for its slot. */
  lemma ScoreIsTally(tables: seq<Table>, blocks: seq<(nat, seq<seq<Byte>>)>) returns (ballots: seq<seq<Option<nat>>>)
    requires IsRun(tables, blocks)
    ensures Ballots(tables, blocks, ballots)
    ensures forall i: nat, m: nat, n: nat :: BornAt(tables, i, m) && m <= n <= |blocks| ==>
              i < |tables[n]| && tables[n][i].score == ScoreAt(tables, blocks, ballots, i, tables[n][i].slot, m, n)
  {
    hide PicksOk, Opened, BlockVotes, TalliedScore, BlockApplied;
    ballots := BallotsOf(tables, blocks, |blocks|);
    forall b | 0 <= b < |blocks|
      ensures PicksOk(Opened(tables[b], blocks[b].0, blocks[b].1), BlockVotes(blocks[b].1), ballots[b])
    {
      assert ScoresStep(tables, blocks, b, ballots[b]);
    }
    forall i: nat, m: nat, n: nat | BornAt(tables, i, m) && m <= n <= |blocks|
      ensures i < |tables[n]| && tables[n][i].score == ScoreAt(tables, blocks, ballots, i, tables[n][i].slot, m, n)
    {
      ScoreFrom(tables, blocks, ballots, i, m, n);
    }
  }

  lemma {:induction false} ScoreFrom(tables: seq<Table>, blocks: seq<(nat, seq<seq<Byte>>)>,
                                     ballots: seq<seq<Option<nat>>>, i: nat, m: nat, n: nat)
    requires IsRun(tables, blocks) && Ballots(tables, blocks, ballots) && BornAt(tables, i, m) && m <= n <= |blocks|
    requires forall b :: 0 <= b < |blocks| ==> ScoresStep(tables, blocks, b, ballots[b])
    ensures i < |tables[n]| && tables[n][i].score == ScoreAt(tables, blocks, ballots, i, tables[n][i].slot, m, n)
  {
    hide IsRun, PicksOk, Opened, BlockVotes, TalliedScore;
    Lifetime(tables, blocks, i, m, n);
    assert ScoresStep(tables, blocks, n - 1, ballots[n - 1]);
    if n > m {
      Lifetime(tables, blocks, i, m, n - 1);
      ScoreFrom(tables, blocks, ballots, i, m, n - 1);
    } else {
      assert ScoreAt(tables, blocks, ballots, i, tables[n][i].slot, m, m - 1) == 1;
    }
  }

  // ---------------------------------------------------------------- support leads to approval

  /** The vote is an upvote for row i and for no other: as many pending rows of the slot are older as it names, and
      none is as old. */
  predicate Names(t: Table, i: nat, vote: Vote) {
    && i < |t| && t[i].status == Pending && vote.slot == t[i].slot
    && vote.kind == Upvote(Older(t, vote.slot, t[i].firstSeen))
    && Older(t, vote.slot, t[i].firstSeen + 1) == Older(t, vote.slot, t[i].firstSeen) + 1
  }

  lemma {:induction false} OlderMonotone(t: Table, slot: Byte, f: nat, g: nat)
    requires f <= g
    ensures Older(t, slot, f) <= Older(t, slot, g) <= InSlot(t, slot)
  {
    if t != [] {
      OlderMonotone(t[..|t| - 1], slot, f, g);
    }
  }

  /** Rows of one slot at one height add up. */
  lemma {:induction false} OlderCounts(t: Table, slot: Byte, i: nat, f: nat)
    requires i < |t| && t[i].slot == slot && t[i].status == Pending && t[i].firstSeen == f
    ensures Older(t, slot, f + 1) >= Older(t, slot, f) + 1
    ensures forall j :: 0 <= j < |t| && j != i && t[j].slot == slot && t[j].status == Pending && t[j].firstSeen == f
                        ==> Older(t, slot, f + 1) >= Older(t, slot, f) + 2
  {
    var n := |t| - 1;
    OlderMonotone(t[..n], slot, f, f + 1);
    if i < n {
      OlderCounts(t[..n], slot, i, f);
    } else {
      forall j | 0 <= j < n && t[j].slot == slot && t[j].status == Pending && t[j].firstSeen == f
        ensures Older(t[..n], slot, f + 1) >= Older(t[..n], slot, f) + 1
      {
        OlderCounts(t[..n], slot, j, f);
      }
    }
  }

  lemma NamedIsPicked(t: Table, i: nat, vote: Vote, pick: Option<nat>)
    requires Names(t, i, vote) && PickOk(t, vote, pick)
    ensures pick == Some(i)
  {
    hide Older, InSlot;
    var slot, f := vote.slot, t[i].firstSeen;
    OlderMonotone(t, slot, f + 1, f + 1);
    var g := t[pick.value].firstSeen;
    if g < f {
      OlderMonotone(t, slot, g + 1, f);
    } else if g > f {
      OlderMonotone(t, slot, f + 1, g);
    } else {
      OlderCounts(t, slot, i, f);
    }
  }

  /** A block upvotes row i and does not alarm its slot. */
  ghost predicate Supports(t: Table, height: nat, outputs: seq<seq<Byte>>, i: nat) {
    var start, votes := Opened(t, height, outputs), BlockVotes(outputs);
    && (exists j :: 0 <= j < |votes| && Names(start, i, votes[j]))
    && i < |start| && forall j :: 0 <= j < |votes| ==> votes[j] != Vote(start[i].slot, Alarm)
  }

  lemma {:induction false} TallyGrows(score: nat, slot: Byte, i: nat, votes: seq<Vote>, picks: seq<Option<nat>>)
    requires |picks| == |votes| && forall j :: 0 <= j < |votes| ==> votes[j] != Vote(slot, Alarm)
    ensures TalliedScore(score, slot, i, votes, picks) >= score + if Some(i) in picks then 1 else 0
  {
    if votes != [] {
      var n := |votes| - 1;
      TallyGrows(score, slot, i, votes[..n], picks[..n]);
      assert picks == picks[..n] + [picks[n]];
    }
  }

  lemma SupportAddsOne(tables: seq<Table>, blocks: seq<(nat, seq<seq<Byte>>)>, b: nat, i: nat)
    requires IsRun(tables, blocks) && b < |blocks| && Supports(tables[b], blocks[b].0, blocks[b].1, i)
    ensures i < |tables[b + 1]|
    ensures tables[b + 1][i].score >= 1 + if i < |tables[b]| then tables[b][i].score else 1
  {
    hide Inv, BlockVotes, TalliedScore, BlockApplied, Names, PickOk, InsertedAll, Proposals, UniqueKeys;
    var t, height, outputs := tables[b], blocks[b].0, blocks[b].1;
    var start, votes := Opened(t, height, outputs), BlockVotes(outputs);
    RunInv(tables, blocks, b);
    var picks := StepOf(tables, blocks, b);
    var j :| 0 <= j < |votes| && Names(start, i, votes[j]);
    NamedIsPicked(start, i, votes[j], picks[j]);
    assert Some(i) in picks;
    SupportedRow(tables, blocks, b, i);
    TallyGrows(if i < |t| then t[i].score else 1, start[i].slot, i, votes, picks);
  }

  lemma SupportedRow(tables: seq<Table>, blocks: seq<(nat, seq<seq<Byte>>)>, b: nat, i: nat)
    requires IsRun(tables, blocks) && b < |blocks| && Supports(tables[b], blocks[b].0, blocks[b].1, i)
    ensures i < |tables[b + 1]| && i < |Opened(tables[b], blocks[b].0, blocks[b].1)|
    ensures tables[b + 1][i].slot == Opened(tables[b], blocks[b].0, blocks[b].1)[i].slot
    ensures i < |tables[b]| ==> tables[b][i].status == Pending
  {
    hide Proposals, InsertedAll, BlockVotes, VotesApplied, RowInv;
    var t, height, outputs := tables[b], blocks[b].0, blocks[b].1;
    RunInv(tables, blocks, b);
    assert BlockApplied(t, height, outputs, tables[b + 1]);
    var start := Opened(t, height, outputs);
    var mid: Table :| VotesApplied(start, BlockVotes(outputs), height, mid) && tables[b + 1] == Aged(mid);
    InsertedEffect(t, Proposals(outputs), height, 0);
    VotesEffect(start, BlockVotes(outputs), height, mid, 0);
    assert RevotedRow(start[i], mid[i]);
    assert i < |t| ==> start[i] == t[i];
  }

  /** Steady support: upvoted by every call from its insertion on for as long as it is pending, with no alarm for its
      slot, a bundle is approved after 13149 calls. */
  lemma SupportApproves(tables: seq<Table>, blocks: seq<(nat, seq<seq<Byte>>)>, i: nat, m: nat)
    requires IsRun(tables, blocks) && BornAt(tables, i, m) && m + 13148 <= |blocks|
    requires forall b :: m - 1 <= b < m + 13148 && (i < |tables[b]| ==> tables[b][i].status == Pending)
                         ==> Supports(tables[b], blocks[b].0, blocks[b].1, i)
    ensures i < |tables[m + 13148]| && tables[m + 13148][i].status == Approved
  {
    hide BlockApplied, Supports;
    SupportCounts(tables, blocks, i, m, m + 13148);
    Lifetime(tables, blocks, i, m, m + 13148);
  }

  lemma {:induction false} SupportCounts(tables: seq<Table>, blocks: seq<(nat, seq<seq<Byte>>)>, i: nat, m: nat, n: nat)
    requires IsRun(tables, blocks) && BornAt(tables, i, m) && m <= n <= m + 13148 && n <= |blocks|
    requires forall b :: m - 1 <= b < n && (i < |tables[b]| ==> tables[b][i].status == Pending)
                         ==> Supports(tables[b], blocks[b].0, blocks[b].1, i)
    ensures i < |tables[n]|
    ensures tables[n][i].status == Approved || (tables[n][i].status == Pending && tables[n][i].score >= n - m + 2)
  {
    hide BlockApplied, Supports;
    Lifetime(tables, blocks, i, m, n);
    if n == m {
      SupportAddsOne(tables, blocks, n - 1, i);
    } else {
      Lifetime(tables, blocks, i, m, n - 1);
      SupportCounts(tables, blocks, i, m, n - 1);
      if tables[n - 1][i].status == Pending {
        SupportAddsOne(tables, blocks, n - 1, i);
      } else {
        FinalStates(tables, blocks, i, n - 1, n);
      }
    }
  }
}
