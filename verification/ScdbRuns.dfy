/** Theorems about every run of blocks over the bundle table. */
module ScdbRuns {
  import opened Numerals
  import opened M4Messages
  import opened Scdb

  // ---------------------------------------------------------------- counting votes

  /** Score above the one point a proposal starts with, summed over the rows of a slot. */
  function Excess(t: Table, slot: Byte): nat {
    if t == [] then 0 else Excess(t[..|t| - 1], slot) + ExcessOf(t[|t| - 1], slot)
  }

  function ExcessOf(b: Bundle, slot: Byte): nat {
    if b.slot == slot && b.score > 1 then b.score - 1 else 0
  }

  function VotesFor(votes: seq<Vote>, slot: Byte): nat {
    if votes == [] then 0 else VotesFor(votes[..|votes| - 1], slot) + (if votes[|votes| - 1].slot == slot then 1 else 0)
  }

  lemma {:induction false} ExcessPointwise(t: Table, t': Table, slot: Byte)
    requires |t| == |t'| && forall i :: 0 <= i < |t| ==> ExcessOf(t'[i], slot) <= ExcessOf(t[i], slot)
    ensures Excess(t', slot) <= Excess(t, slot)
  {
    if t != [] {
      ExcessPointwise(t[..|t| - 1], t'[..|t| - 1], slot);
    }
  }

  /** One row gains a point, the others none. */
  lemma {:induction false} ExcessOneRow(t: Table, t': Table, slot: Byte, k: nat)
    requires |t| == |t'| && k < |t|
    requires forall i :: 0 <= i < |t| && i != k ==> ExcessOf(t'[i], slot) <= ExcessOf(t[i], slot)
    requires ExcessOf(t'[k], slot) <= ExcessOf(t[k], slot) + 1
    ensures Excess(t', slot) <= Excess(t, slot) + 1
  {
    var n := |t| - 1;
    if k == n {
      ExcessPointwise(t[..n], t'[..n], slot);
    } else {
      ExcessOneRow(t[..n], t'[..n], slot, k);
    }
  }

  predicate UniqueKeys(t: Table) {
    forall i, j :: 0 <= i < j < |t| ==> !SameKey(t[i], t[j].slot, t[j].hash)
  }

  /** What votes leave alone: the rows, their keys and ages, and every row that is not pending. */
  predicate Revoted(t: Table, t': Table) {
    && |t'| == |t|
    && forall i :: 0 <= i < |t| ==> RevotedRow(t[i], t'[i])
  }

  predicate RevotedRow(b: Bundle, b': Bundle) {
    && b' == b.(score := b'.score, lastUpdated := b'.lastUpdated)
    && (b.status != Pending ==> b' == b)
  }

  lemma {:induction false} PendingRowsAreRows(t: Table, slot: Byte)
    ensures forall b :: b in PendingRows(t, slot) <==> b in t && IsPendingIn(b, slot)
  {
    if t != [] {
      var n := |t| - 1;
      PendingRowsAreRows(t[..n], slot);
      assert t == t[..n] + [t[n]];
    }
  }

  lemma ListingRow(t: Table, slot: Byte, listing: Table, k: nat)
    requires IsListing(t, slot, listing) && k < |listing|
    ensures listing[k] in t && IsPendingIn(listing[k], slot)
  {
    assert listing[k] in multiset(listing);
    PendingRowsAreRows(t, slot);
  }

  lemma OtherRows(t: Table, k: nat)
    requires UniqueKeys(t) && k < |t|
    ensures forall i :: 0 <= i < |t| && i != k ==> t[i] != t[k]
  {
    forall i | 0 <= i < |t| && i != k ensures t[i] != t[k] {
      if i < k {
        assert !SameKey(t[i], t[k].slot, t[k].hash);
      } else {
        assert !SameKey(t[k], t[i].slot, t[i].hash);
      }
    }
  }

  lemma ReplacedEffect(t: Table, k: nat, height: nat, s: Byte)
    requires UniqueKeys(t) && k < |t| && t[k].status == Pending
    ensures var t' := Replaced(t, t[k], height);
            Revoted(t, t') && Excess(t', s) <= Excess(t, s) + (if s == t[k].slot then 1 else 0)
  {
    hide UniqueKeys, Excess;
    var t' := Replaced(t, t[k], height);
    OtherRows(t, k);
    if s == t[k].slot {
      ExcessOneRow(t, t', s, k);
    } else {
      ExcessPointwise(t, t', s);
    }
  }

  lemma UpvoteEffect(t: Table, slot: Byte, index: nat, height: nat, t': Table, s: Byte)
    requires UniqueKeys(t) && Upvoted(t, slot, index, height, t')
    ensures Revoted(t, t') && Excess(t', s) <= Excess(t, s) + (if s == slot then 1 else 0)
  {
    hide UniqueKeys, Excess, IsListing;
    var listing :| IsListing(t, slot, listing)
                && t' == if index < |listing| then Replaced(t, listing[index], height) else t;
    if index < |listing| {
      ListingRow(t, slot, listing, index);
      var k :| 0 <= k < |t| && t[k] == listing[index];
      ReplacedEffect(t, k, height, s);
    }
  }

  lemma VoteEffect(t: Table, vote: Vote, height: nat, t': Table, s: Byte)
    requires UniqueKeys(t) && VoteApplied(t, vote, height, t')
    ensures Revoted(t, t') && Excess(t', s) <= Excess(t, s) + (if s == vote.slot then 1 else 0)
  {
    match vote.kind
    case Upvote(index) => UpvoteEffect(t, vote.slot, index, height, t', s);
    case Alarm => ExcessPointwise(t, t', s);
    case Abstain => ExcessPointwise(t, t', s);
  }

  lemma RevotedKeepsKeys(t: Table, t': Table)
    requires UniqueKeys(t) && Revoted(t, t')
    ensures UniqueKeys(t')
  {
    forall i, j | 0 <= i < j < |t'| ensures !SameKey(t'[i], t'[j].slot, t'[j].hash) {
      assert RevotedRow(t[i], t'[i]) && RevotedRow(t[j], t'[j]);
      assert !SameKey(t[i], t[j].slot, t[j].hash);
    }
  }

  lemma RevotedTransitive(a: Table, b: Table, c: Table)
    requires Revoted(a, b) && Revoted(b, c)
    ensures Revoted(a, c)
  {
    forall i | 0 <= i < |a| ensures RevotedRow(a[i], c[i]) {
      assert RevotedRow(a[i], b[i]) && RevotedRow(b[i], c[i]);
    }
  }

  lemma {:induction false} VotesEffect(t: Table, votes: seq<Vote>, height: nat, t': Table, s: Byte)
    requires UniqueKeys(t) && VotesApplied(t, votes, height, t')
    ensures Revoted(t, t') && UniqueKeys(t')
    ensures Excess(t', s) <= Excess(t, s) + VotesFor(votes, s)
    decreases |votes|
  {
    if votes != [] {
      var n := |votes| - 1;
      var mid :| VotesApplied(t, votes[..n], height, mid) && VoteApplied(mid, votes[n], height, t');
      VotesEffect(t, votes[..n], height, mid, s);
      VoteEffect(mid, votes[n], height, t', s);
      RevotedKeepsKeys(mid, t');
      RevotedTransitive(t, mid, t');
    }
  }

  /** Slots go round modulo 256, so a vector names a slot once for every 256 entries begun. */
  lemma {:induction false} VotesForBound(votes: seq<Vote>, s: Byte)
    requires SlotsInOrder(votes)
    ensures VotesFor(votes, s) == (|votes| + 255 - s) / 256
  {
    if votes != [] {
      VotesForBound(votes[..|votes| - 1], s);
    }
  }

  lemma {:induction false} BlockVoteSlots(outputs: seq<seq<Byte>>)
    ensures SlotsInOrder(BlockVotes(outputs))
  {
    hide ParseM4, IsM4Commitment;
    if outputs != [] {
      VoteSlots(outputs[0]);
      if IsM4Commitment(outputs[0]) {
      } else {
        BlockVoteSlots(outputs[1..]);
        assert BlockVotes(outputs) == BlockVotes(outputs[1..]);
      }
    }
  }

  // ---------------------------------------------------------------- one block

  /** What holds of every row between blocks. */
  predicate RowInv(b: Bundle) {
    match b.status
    case Pending => 1 <= b.blocksLeft < WITHDRAWAL_MAX_AGE && b.score < MIN_WORK_SCORE
    case Approved => b.score >= MIN_WORK_SCORE && b.blocksLeft < WITHDRAWAL_MAX_AGE
    case Failed => b.blocksLeft == 0 && b.score < MIN_WORK_SCORE
    case Expired => false
  }

  predicate Inv(t: Table) {
    UniqueKeys(t) && forall i :: 0 <= i < |t| ==> RowInv(t[i])
  }

  /** A row after one block, given the row before: it is final, or one block older. */
  predicate Stepped(b: Bundle, b': Bundle) {
    && b'.slot == b.slot && b'.hash == b.hash && b'.firstSeen == b.firstSeen
    && (b.status != Pending ==> b' == b)
    && (b.status == Pending ==> b'.blocksLeft + 1 == b.blocksLeft)
  }

  /** A row that did not exist before the block. */
  predicate Newborn(b: Bundle, height: nat) {
    b.blocksLeft == WITHDRAWAL_MAX_AGE - 1 && b.firstSeen == height
  }

  lemma {:induction false} InsertedEffect(t: Table, ms: seq<M3Message>, height: nat, s: Byte)
    requires UniqueKeys(t)
    ensures var t' := InsertedAll(t, ms, height);
            && UniqueKeys(t') && t <= t' && Excess(t', s) == Excess(t, s)
            && forall i :: |t| <= i < |t'| ==> t'[i] == Proposed(t'[i].slot, t'[i].hash, height)
  {
    if ms != [] {
      var m, mid := ms[|ms| - 1], InsertedAll(t, ms[..|ms| - 1], height);
      InsertedEffect(t, ms[..|ms| - 1], height, s);
      var t' := InsertedAll(t, ms, height);
      if !HasKey(mid, m.slot, m.bundleHash) {
        assert t'[..|mid|] == mid;
      }
    }
  }

  lemma RowEffect(start: Bundle, mid: Bundle, s: Byte)
    requires RevotedRow(start, mid)
    requires start.status == Pending ==> 1 <= start.blocksLeft <= WITHDRAWAL_MAX_AGE
    requires start.status != Pending ==> RowInv(start)
    ensures var b' := AgedRow(mid);
            && RowInv(b') && Stepped(start, b') && ExcessOf(b', s) <= ExcessOf(mid, s)
            && SameKey(b', mid.slot, mid.hash)
            && (start.status == Pending && start.blocksLeft == WITHDRAWAL_MAX_AGE ==> Newborn(b', start.firstSeen))
  {
    assert mid.status != Pending ==> AgedRow(mid) == mid;
  }

  lemma AgedEffect(start: Table, mid: Table, s: Byte)
    requires UniqueKeys(mid) && Revoted(start, mid)
    requires forall i :: 0 <= i < |start| ==>
               if start[i].status == Pending then 1 <= start[i].blocksLeft <= WITHDRAWAL_MAX_AGE else RowInv(start[i])
    ensures Inv(Aged(mid)) && Excess(Aged(mid), s) <= Excess(mid, s)
    ensures forall i :: 0 <= i < |start| ==> Stepped(start[i], Aged(mid)[i])
    ensures forall i :: 0 <= i < |start| && start[i].status == Pending && start[i].blocksLeft == WITHDRAWAL_MAX_AGE
                        ==> Newborn(Aged(mid)[i], start[i].firstSeen)
  {
    hide AgedRow, RowInv, Stepped, RevotedRow, Newborn, Excess, ExcessOf;
    var t' := Aged(mid);
    forall i | 0 <= i < |t'|
      ensures RowInv(t'[i]) && ExcessOf(t'[i], s) <= ExcessOf(mid[i], s) && SameKey(t'[i], mid[i].slot, mid[i].hash)
      ensures Stepped(start[i], t'[i])
      ensures start[i].status == Pending && start[i].blocksLeft == WITHDRAWAL_MAX_AGE ==>
        Newborn(t'[i], start[i].firstSeen)
    {
      assert RevotedRow(start[i], mid[i]);
      RowEffect(start[i], mid[i], s);
    }
    ExcessPointwise(mid, t', s);
    forall i, j | 0 <= i < j < |t'| ensures !SameKey(t'[i], t'[j].slot, t'[j].hash) {
      assert !SameKey(mid[i], mid[j].slot, mid[j].hash);
    }
  }

  lemma BlockEffect(t: Table, height: nat, outputs: seq<seq<Byte>>, t': Table, s: Byte)
    requires Inv(t) && BlockApplied(t, height, outputs, t')
    ensures Inv(t') && |t| <= |t'|
    ensures forall i :: 0 <= i < |t| ==> Stepped(t[i], t'[i])
    ensures forall i :: |t| <= i < |t'| ==> Newborn(t'[i], height)
    ensures Excess(t', s) <= Excess(t, s) + (|BlockVotes(outputs)| + 255 - s) / 256
  {
    hide AgedRow, Stepped, RevotedRow, Newborn, Excess, BlockVotes, Proposals, InsertedAll, VotesApplied, UniqueKeys;
    var votes := BlockVotes(outputs);
    var start := InsertedAll(t, Proposals(outputs), height);
    var mid: Table :| VotesApplied(start, votes, height, mid) && t' == Aged(mid);
    InsertedEffect(t, Proposals(outputs), height, s);
    VotesEffect(start, votes, height, mid, s);
    BlockVoteSlots(outputs);
    VotesForBound(votes, s);
    assert forall i :: 0 <= i < |t| ==> start[i] == t[i] && RowInv(t[i]);
    AgedEffect(start, mid, s);
  }

  // ---------------------------------------------------------------- runs

  /** The tables between the blocks, from the empty table on; heights may come in any order. */
  ghost predicate IsRun(tables: seq<Table>, blocks: seq<(nat, seq<seq<Byte>>)>) {
    && |tables| == |blocks| + 1 && tables[0] == []
    && forall k :: 0 <= k < |blocks| ==> BlockApplied(tables[k], blocks[k].0, blocks[k].1, tables[k + 1])
  }

  lemma {:induction false} RunInv(tables: seq<Table>, blocks: seq<(nat, seq<seq<Byte>>)>, n: nat)
    requires IsRun(tables, blocks) && n <= |blocks|
    ensures Inv(tables[n])
  {
    assert Inv([]);
    hide BlockApplied, RowInv, UniqueKeys, Stepped, Newborn, Excess, BlockVotes;
    if n > 0 {
      RunInv(tables, blocks, n - 1);
      BlockEffect(tables[n - 1], blocks[n - 1].0, blocks[n - 1].1, tables[n], 0);
    }
  }

  function VoteShare(blocks: seq<(nat, seq<seq<Byte>>)>, s: Byte): nat {
    if blocks == [] then 0
    else VoteShare(blocks[..|blocks| - 1], s) + (|BlockVotes(blocks[|blocks| - 1].1)| + 255 - s) / 256
  }

  /** Scores come only from votes, and a block holds one vote for a slot per 256 entries begun. */
  lemma {:induction false} ExcessWithinVotes(tables: seq<Table>, blocks: seq<(nat, seq<seq<Byte>>)>, s: Byte)
    requires IsRun(tables, blocks)
    ensures Excess(tables[|blocks|], s) <= VoteShare(blocks, s)
  {
    if blocks != [] {
      var n := |blocks| - 1;
      assert IsRun(tables[..n + 1], blocks[..n]);
      ExcessWithinVotes(tables[..n + 1], blocks[..n], s);
      RunInv(tables, blocks, n);
      BlockEffect(tables[n], blocks[n].0, blocks[n].1, tables[n + 1], s);
    }
  }

  predicate OneVotePerSlot(blocks: seq<(nat, seq<seq<Byte>>)>) {
    forall k :: 0 <= k < |blocks| ==> |BlockVotes(blocks[k].1)| <= 256
  }

  lemma {:induction false} VoteShareBound(blocks: seq<(nat, seq<seq<Byte>>)>, s: Byte)
    requires OneVotePerSlot(blocks)
    ensures VoteShare(blocks, s) <= |blocks|
  {
    if blocks != [] {
      assert |BlockVotes(blocks[|blocks| - 1].1)| <= 256;
      VoteShareBound(blocks[..|blocks| - 1], s);
    }
  }

  function ApprovedIn(t: Table, s: Byte): nat {
    if t == [] then 0
    else ApprovedIn(t[..|t| - 1], s) + (if t[|t| - 1].slot == s && t[|t| - 1].status == Approved then 1 else 0)
  }

  lemma {:induction false} ApprovedNeedExcess(t: Table, s: Byte)
    requires forall i :: 0 <= i < |t| ==> RowInv(t[i])
    ensures (MIN_WORK_SCORE - 1) * ApprovedIn(t, s) <= Excess(t, s)
  {
    if t != [] {
      assert RowInv(t[|t| - 1]);
      ApprovedNeedExcess(t[..|t| - 1], s);
    }
  }

  /** Approvals are paid for in blocks: k approved bundles of one slot need at least 13149 k processed blocks,
      in whatever order the blocks come, and whatever alarms and re-proposals they hold. */
  lemma ApprovalsNeedBlocks(tables: seq<Table>, blocks: seq<(nat, seq<seq<Byte>>)>, s: Byte)
    requires IsRun(tables, blocks) && OneVotePerSlot(blocks)
    ensures Excess(tables[|blocks|], s) <= |blocks|
    ensures 13149 * ApprovedIn(tables[|blocks|], s) <= |blocks|
  {
    ExcessWithinVotes(tables, blocks, s);
    VoteShareBound(blocks, s);
    RunInv(tables, blocks, |blocks|);
    ApprovedNeedExcess(tables[|blocks|], s);
  }

  // ---------------------------------------------------------------- the life of a bundle

  /** Row i was inserted by block m - 1, so that the table after m blocks is the first to have it. */
  predicate BornAt(tables: seq<Table>, i: nat, m: nat) {
    1 <= m < |tables| && |tables[m - 1]| <= i < |tables[m]|
  }

  /** From its insertion on, a bundle keeps its row and key; while it is pending, blocks_left counts down from
      26300 with every block, the inserting one included, and stays positive, and its score stays below the
      approval mark. Afterwards it is approved or failed, never expired, and by the 26300th block at the latest. */
  lemma {:induction false} Lifetime(tables: seq<Table>, blocks: seq<(nat, seq<seq<Byte>>)>, i: nat, m: nat, n: nat)
    requires IsRun(tables, blocks) && BornAt(tables, i, m) && m <= n <= |blocks|
    ensures i < |tables[n]|
    ensures var b, age := tables[n][i], n - m + 1;
            && SameKey(b, tables[m][i].slot, tables[m][i].hash) && b.firstSeen == blocks[m - 1].0
            && (b.status == Pending ==> b.blocksLeft == 26300 - age && b.blocksLeft >= 1 && b.score < 13150)
            && (b.status == Approved ==> b.score >= 13150)
            && (b.status == Failed ==> b.score < 13150 && age >= 26300)
            && (b.status != Pending || age < 26300) && b.status != Expired
  {
    hide BlockApplied, UniqueKeys, Excess, BlockVotes;
    RunInv(tables, blocks, n);
    RunInv(tables, blocks, n - 1);
    BlockEffect(tables[n - 1], blocks[n - 1].0, blocks[n - 1].1, tables[n], 0);
    if n > m {
      Lifetime(tables, blocks, i, m, n - 1);
      assert Stepped(tables[n - 1][i], tables[n][i]);
    } else {
      assert Newborn(tables[n][i], blocks[n - 1].0);
    }
    assert RowInv(tables[n][i]);
  }

  /** Approved and failed are final: the row never changes again, whatever is proposed or voted. */
  lemma {:induction false} FinalStates(tables: seq<Table>, blocks: seq<(nat, seq<seq<Byte>>)>, i: nat, k: nat, n: nat)
    requires IsRun(tables, blocks) && k <= n <= |blocks|
    requires i < |tables[k]| && tables[k][i].status != Pending
    ensures i < |tables[n]| && tables[n][i] == tables[k][i]
  {
    hide BlockApplied, UniqueKeys, RowInv, Excess, BlockVotes;
    if n > k {
      FinalStates(tables, blocks, i, k, n - 1);
      RunInv(tables, blocks, n - 1);
      BlockEffect(tables[n - 1], blocks[n - 1].0, blocks[n - 1].1, tables[n], 0);
      assert Stepped(tables[n - 1][i], tables[n][i]);
    }
  }
}
