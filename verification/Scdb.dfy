/** The withdrawal-bundle table: one row update per SQL statement, and what whole runs of blocks can do to it. */
module Scdb {
  import opened Numerals
  import opened Wrappers
  import opened M4Messages

  const MIN_WORK_SCORE := 13150
  const WITHDRAWAL_MAX_AGE := 26300

  datatype Status = Pending | Approved | Failed | Expired

  datatype Bundle = Bundle(slot: Byte, hash: string, score: nat, blocksLeft: nat, firstSeen: nat, lastUpdated: nat,
      status: Status)

  /** Rows in insertion order. */
  type Table = seq<Bundle>

  // ---------------------------------------------------------------- statements on the table

  predicate SameKey(b: Bundle, slot: Byte, hash: string) { b.slot == slot && b.hash == hash }

  predicate HasKey(t: Table, slot: Byte, hash: string) {
    exists i :: 0 <= i < |t| && SameKey(t[i], slot, hash)
  }

  function Proposed(slot: Byte, hash: string, height: nat): Bundle {
    Bundle(slot, hash, 1, WITHDRAWAL_MAX_AGE, height, height, Pending)
  }

  /** INSERT ... ON CONFLICT(sidechain_slot, bundle_hash) DO NOTHING. */
  function Inserted(t: Table, m: M3Message, height: nat): Table {
    if HasKey(t, m.slot, m.bundleHash) then t else t + [Proposed(m.slot, m.bundleHash, height)]
  }

  function InsertedAll(t: Table, ms: seq<M3Message>, height: nat): Table {
    if ms == [] then t else Inserted(InsertedAll(t, ms[..|ms| - 1], height), ms[|ms| - 1], height)
  }

  predicate IsPendingIn(b: Bundle, slot: Byte) { b.slot == slot && b.status == Pending }

  /** The rows an UPDATE with `sidechain_slot = ? AND status = 'pending'` selects. */
  function PendingRows(t: Table, slot: Byte): (rows: Table) {
    if t == [] then []
    else PendingRows(t[..|t| - 1], slot) + (if IsPendingIn(t[|t| - 1], slot) then [t[|t| - 1]] else [])
  }

  predicate ByFirstSeen(rows: Table) {
    forall i, j :: 0 <= i < j < |rows| ==> rows[i].firstSeen <= rows[j].firstSeen
  }

  /** A possible result of ORDER BY first_seen_height: SQL leaves the order of ties open. */
  ghost predicate IsListing(t: Table, slot: Byte, listing: Table) {
    multiset(listing) == multiset(PendingRows(t, slot)) && ByFirstSeen(listing)
  }

  function Bumped(b: Bundle, height: nat): Bundle { b.(score := b.score + 1, lastUpdated := height) }

  function Alarmed(b: Bundle, height: nat): Bundle {
    b.(score := if b.score > 0 then b.score - 1 else 0, lastUpdated := height)
  }

  function Replaced(t: Table, target: Bundle, height: nat): (r: Table)
    ensures |r| == |t| && forall i :: 0 <= i < |r| ==> r[i] == if t[i] == target then Bumped(t[i], height) else t[i]
  {
    seq(|t|, i requires 0 <= i < |t| => if t[i] == target then Bumped(t[i], height) else t[i])
  }

  /** UPDATE ... ORDER BY first_seen_height ASC LIMIT 1 OFFSET index. */
  ghost predicate Upvoted(t: Table, slot: Byte, index: nat, height: nat, t': Table) {
    exists listing :: IsListing(t, slot, listing)
                   && t' == if index < |listing| then Replaced(t, listing[index], height) else t
  }

  function AlarmedAll(t: Table, slot: Byte, height: nat): Table {
    Map((b: Bundle) => if IsPendingIn(b, slot) then Alarmed(b, height) else b, t)
  }

  function Touched(t: Table, slot: Byte, height: nat): Table {
    Map((b: Bundle) => if IsPendingIn(b, slot) then b.(lastUpdated := height) else b, t)
  }

  ghost predicate VoteApplied(t: Table, vote: Vote, height: nat, t': Table) {
    match vote.kind
    case Upvote(index) => Upvoted(t, vote.slot, index, height, t')
    case Alarm => t' == AlarmedAll(t, vote.slot, height)
    case Abstain => t' == Touched(t, vote.slot, height)
  }

  ghost predicate VotesApplied(t: Table, votes: seq<Vote>, height: nat, t': Table) {
    if votes == [] then t' == t
    else exists mid {:trigger VoteApplied(mid, votes[|votes| - 1], height, t')} ::
           VotesApplied(t, votes[..|votes| - 1], height, mid)
                    && VoteApplied(mid, votes[|votes| - 1], height, t')
  }

  function Decremented(b: Bundle): Bundle {
    if b.status == Pending && b.blocksLeft > 0 then b.(blocksLeft := b.blocksLeft - 1) else b
  }

  function ApprovedIfDue(b: Bundle): Bundle {
    if b.status == Pending && b.score >= MIN_WORK_SCORE then b.(status := Approved) else b
  }

  function FailedIfDue(b: Bundle): Bundle {
    if b.status == Pending && b.blocksLeft == 0 && b.score < MIN_WORK_SCORE then b.(status := Failed) else b
  }

  function ExpiredIfDue(b: Bundle): Bundle {
    if b.status == Pending && b.blocksLeft == 0 then b.(status := Expired) else b
  }

  /** The four statements of updateBundleStates, in order. */
  function AgedRow(b: Bundle): Bundle { ExpiredIfDue(FailedIfDue(ApprovedIfDue(Decremented(b)))) }

  function Aged(t: Table): (r: Table)
    ensures |r| == |t| && forall i :: 0 <= i < |r| ==> r[i] == AgedRow(t[i])
  {
    seq(|t|, i requires 0 <= i < |t| => AgedRow(t[i]))
  }

  // ---------------------------------------------------------------- one block

  /** The output scripts of the coinbase; a block without transactions is an error. */
  datatype Block = NoTransactions | Coinbase(outputs: seq<seq<Byte>>)

  function Proposals(outputs: seq<seq<Byte>>): seq<M3Message> {
    if outputs == [] then []
    else
      var last := outputs[|outputs| - 1];
      Proposals(outputs[..|outputs| - 1]) + (if ParseM3(last).Success? then [ParseM3(last).value] else [])
  }

  /** The votes of the first M4 commitment; none if it does not parse. */
  function BlockVotes(outputs: seq<seq<Byte>>): seq<Vote> {
    if outputs == [] then []
    else if IsM4Commitment(outputs[0]) then
      if ParseM4(outputs[0]).Success? then ParseM4(outputs[0]).value.votes else []
    else BlockVotes(outputs[1..])
  }

  ghost predicate BlockApplied(t: Table, height: nat, outputs: seq<seq<Byte>>, t': Table) {
    exists mid :: VotesApplied(InsertedAll(t, Proposals(outputs), height), BlockVotes(outputs), height, mid)
               && t' == Aged(mid)
  }

  datatype BlockError = BlockHasNoTransactions

  class M4Engine {
    var bundles: Table

    constructor ()
      ensures bundles == []
    {
      bundles := [];
    }

    method PersistM3Message(m: M3Message, height: nat)
      modifies this
      ensures bundles == Inserted(old(bundles), m, height)
    {
      var i := 0;
      while i < |bundles|
        invariant i <= |bundles| && bundles == old(bundles)
        invariant forall k :: 0 <= k < i ==> !SameKey(bundles[k], m.slot, m.bundleHash)
      {
        if SameKey(bundles[i], m.slot, m.bundleHash) {
          return;
        }
        i := i + 1;
      }
      bundles := bundles + [Proposed(m.slot, m.bundleHash, height)];
    }

    /** The query behind the upvote: the pending rows of a slot, oldest first. */
    method ListPending(slot: Byte) returns (listing: Table)
      ensures IsListing(bundles, slot, listing)
    {
      listing := [];
      for i := 0 to |bundles|
        invariant multiset(listing) == multiset(PendingRows(bundles[..i], slot)) && ByFirstSeen(listing)
      {
        assert bundles[..i + 1][..i] == bundles[..i];
        if IsPendingIn(bundles[i], slot) {
          listing := InsertByFirstSeen(listing, bundles[i]);
        }
      }
      assert bundles[..|bundles|] == bundles;
    }

    method Upvote(slot: Byte, index: nat, height: nat)
      modifies this
      ensures Upvoted(old(bundles), slot, index, height, bundles)
    {
      var listing := ListPending(slot);
      if index < |listing| {
        bundles := Replaced(bundles, listing[index], height);
      }
    }

    method ApplyVote(vote: Vote, height: nat)
      modifies this
      ensures VoteApplied(old(bundles), vote, height, bundles)
    {
      match vote.kind {
        case Upvote(index) => Upvote(vote.slot, index, height);
        case Alarm => bundles := AlarmedAll(bundles, vote.slot, height);
        case Abstain => bundles := Touched(bundles, vote.slot, height);
      }
    }

    method ApplyM4Votes(votes: seq<Vote>, height: nat)
      modifies this
      ensures VotesApplied(old(bundles), votes, height, bundles)
    {
      assert VotesApplied(bundles, [], height, bundles);
      hide VoteApplied, VotesApplied;
      for i := 0 to |votes|
        invariant VotesApplied(old(bundles), votes[..i], height, bundles)
      {
        ghost var before := bundles;
        ApplyVote(votes[i], height);
        OneMoreVote(old(bundles), votes, i, height, before, bundles);
      }
      assert votes[..|votes|] == votes;
    }

    method UpdateBundleStates()
      modifies this
      ensures bundles == Aged(old(bundles))
    {
      bundles := Map(Decremented, bundles);
      bundles := Map(ApprovedIfDue, bundles);
      bundles := Map(FailedIfDue, bundles);
      bundles := Map(ExpiredIfDue, bundles);
    }

    method ProcessBlock(height: nat, block: Block) returns (r: Result<(), BlockError>)
      modifies this
      ensures r.Failure? <==> block.NoTransactions?
      ensures r.Failure? ==> bundles == old(bundles)
      ensures r.Success? ==> BlockApplied(old(bundles), height, block.outputs, bundles)
    {
      if block.NoTransactions? {
        return Failure(BlockHasNoTransactions);
      }
      var outputs := block.outputs;
      for i := 0 to |outputs|
        invariant bundles == InsertedAll(old(bundles), Proposals(outputs[..i]), height)
      {
        assert outputs[..i + 1][..i] == outputs[..i];
        if IsM3Commitment(outputs[i]) {
          var m := ParseM3Bytes(outputs[i]);
          if m.Success? {
            ghost var ms := Proposals(outputs[..i]);
            assert (ms + [m.value])[..|ms|] == ms;
            PersistM3Message(m.value, height);
          }
        } else {
          assert ParseM3(outputs[i]).Failure?;
          assert Proposals(outputs[..i]) + [] == Proposals(outputs[..i]);
        }
      }
      assert outputs[..|outputs|] == outputs;
      var votes := ExtractVotes(outputs);
      ApplyM4Votes(votes, height);
      UpdateBundleStates();
      return Success(());
    }
  }

  lemma OneMoreVote(t: Table, votes: seq<Vote>, i: nat, height: nat, mid: Table, t': Table)
    requires i < |votes| && VotesApplied(t, votes[..i], height, mid) && VoteApplied(mid, votes[i], height, t')
    ensures VotesApplied(t, votes[..i + 1], height, t')
  {
    hide VoteApplied;
    assert votes[..i + 1][..i] == votes[..i];
  }

  method InsertByFirstSeen(rows: Table, b: Bundle) returns (r: Table)
    requires ByFirstSeen(rows)
    ensures ByFirstSeen(r) && multiset(r) == multiset(rows) + multiset{b}
  {
    var k: int := |rows|;
    while k > 0 && rows[k - 1].firstSeen > b.firstSeen
      invariant 0 <= k <= |rows| && forall j :: k <= j < |rows| ==> rows[j].firstSeen > b.firstSeen
    {
      k := k - 1;
    }
    r := rows[..k] + [b] + rows[k..];
    InsertionOrdered(rows, k, b);
    InsertionAdds(rows, k, b);
  }

  lemma InsertionAdds(rows: Table, k: nat, b: Bundle)
    requires k <= |rows|
    ensures multiset(rows[..k] + [b] + rows[k..]) == multiset(rows) + multiset{b}
  {
    assert rows == rows[..k] + rows[k..];
  }

  lemma InsertionOrdered(rows: Table, k: nat, b: Bundle)
    requires k <= |rows| && ByFirstSeen(rows)
    requires forall j :: k <= j < |rows| ==> rows[j].firstSeen > b.firstSeen
    requires k > 0 ==> rows[k - 1].firstSeen <= b.firstSeen
    ensures ByFirstSeen(rows[..k] + [b] + rows[k..])
  {
    var r := rows[..k] + [b] + rows[k..];
    forall i, j | 0 <= i < j < |r| ensures r[i].firstSeen <= r[j].firstSeen {
      if i < k && k > 0 { assert rows[i].firstSeen <= rows[k - 1].firstSeen; }
    }
  }

  method ExtractVotes(outputs: seq<seq<Byte>>) returns (votes: seq<Vote>)
    ensures votes == BlockVotes(outputs)
  {
    for i := 0 to |outputs|
      invariant BlockVotes(outputs) == BlockVotes(outputs[i..])
    {
      if IsM4Commitment(outputs[i]) {
        var msg := ParseM4Bytes(outputs[i]);
        return if msg.Success? then msg.value.votes else [];
      }
    }
    return [];
  }
}
