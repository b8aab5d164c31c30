/** The loop that executes due denial plans: splitting, sending, recording and cancelling. */
module DenialEngine {
  import opened Wrappers
  import opened DenialPlans

  const FEE := 10000
  const UINT64 := 0x1_0000_0000_0000_0000

  /** An unspent output; values are those of uint64. */
  datatype Utxo = Utxo(outpoint: Outpoint, value: nat)

  // ---------------------------------------------------------------- how much a hop sends

  /** 10 to 89 percent of what is left after the fee, in uint64 arithmetic. */
  function SimpleSplit(u: Utxo, percentage: nat): nat
    requires u.value >= FEE
  {
    (u.value - FEE) * percentage % UINT64 / 100
  }

  /** The target size, cut down to what is left after the fee. */
  function TargetAmountSplit(u: Utxo, targetSize: nat): nat
    requires u.value >= FEE
  {
    if targetSize > u.value - FEE then u.value - FEE else targetSize
  }

  function ChooseStrategy(d: Denial, u: Utxo, percentage: nat): nat
    requires u.value >= FEE
  {
    var completedHops := |d.executions|;
    if completedHops < |d.plan.targetSizes| && d.plan.targetSizes[completedHops] > 0
    then TargetAmountSplit(u, d.plan.targetSizes[completedHops])
    else SimpleSplit(u, percentage)
  }

  lemma PercentOf(available: nat, percentage: nat)
    requires percentage <= 100
    ensures available * percentage % UINT64 / 100 <= available
  {
    var x := available * percentage;
    assert x <= available * 100;
    assert x == UINT64 * (x / UINT64) + x % UINT64;
  }

  /** What a hop sends never exceeds the output's value less the fee, whatever the percentage drawn and even if the
      product wraps around. */
  lemma AmountWithinValue(d: Denial, u: Utxo, percentage: nat)
    requires u.value >= 10000 && 10 <= percentage < 90
    ensures ChooseStrategy(d, u, percentage) + 10000 <= u.value
  {
    PercentOf(u.value - FEE, percentage);
  }

  /** A hop with a target size sends that much, or what is left after the fee if that is less; any other hop sends
      the drawn percentage of what is left, rounded down, as long as the product fits 64 bits. */
  lemma AmountIs(d: Denial, u: Utxo, percentage: nat, product: nat)
    requires u.value >= 10000 && 10 <= percentage < 90 && product == (u.value - 10000) * percentage
    ensures var hop, left, amount := |d.executions|, u.value - 10000, ChooseStrategy(d, u, percentage);
            if hop < |d.plan.targetSizes| && d.plan.targetSizes[hop] > 0
            then amount == if d.plan.targetSizes[hop] <= left then d.plan.targetSizes[hop] else left
            else product < 0x1_0000_0000_0000_0000 ==> 100 * amount <= product < 100 * amount + 100
  {
    SimpleIs(u, percentage, product);
    hide SimpleSplit;
    Hundredth(product);
  }

  lemma SimpleIs(u: Utxo, percentage: nat, product: nat)
    requires u.value >= 10000 && product == (u.value - 10000) * percentage
    ensures SimpleSplit(u, percentage) == product % UINT64 / 100
  {
  }

  lemma Hundredth(x: nat)
    ensures x < UINT64 ==> 100 * (x % UINT64 / 100) <= x < 100 * (x % UINT64 / 100) + 100
  {
  }

  // ---------------------------------------------------------------- one tick

  /** What sending for one output leads to: nothing, a transaction whose outputs never show up in the wallet, or one
      whose outputs are found at these positions and recorded at this time. */
  datatype Attempt = NotSent | NotSeen(txid: string) | Seen(txid: string, vouts: seq<int>, at: int)

  function RecordAll(db: Db, id: nat, from: Outpoint, txid: string, vouts: seq<int>, at: int): Db {
    if vouts == [] then db
    else
      var e := Execution(id, from, Outpoint(txid, vouts[|vouts| - 1]), at);
      Recorded(RecordAll(db, id, from, txid, vouts[..|vouts| - 1], at), e)
  }

  function Processed(db: Db, u: Utxo, d: Denial, attempt: Attempt): Db {
    if u.value < FEE then Cancelled(db, d.id)
    else if attempt.Seen? then RecordAll(db, d.id, u.outpoint, attempt.txid, attempt.vouts, attempt.at)
    else db
  }

  /** The outputs of the listing at the plan's tip. */
  function Matching(utxos: seq<Utxo>, tip: Outpoint): seq<Utxo> {
    if utxos == [] then []
    else Matching(utxos[..|utxos| - 1], tip) + (if utxos[|utxos| - 1].outpoint == tip then [utxos[|utxos| - 1]] else [])
  }

  /** `attempts(i)` is what happens with the i-th matching output. */
  function Executed(db: Db, found: seq<Utxo>, d: Denial, attempts: nat -> Attempt): Db {
    if found == [] then db
    else Processed(Executed(db, found[..|found| - 1], d, attempts), found[|found| - 1], d, attempts(|found| - 1))
  }

  predicate Due(d: Denial, now: int) { d.next.Some? && d.next.value <= now }

  function Checked(db: Db, utxos: seq<Utxo>, denials: seq<Denial>, now: int, attempts: nat -> nat -> Attempt): Db {
    if denials == [] then db
    else
      var before := Checked(db, utxos, denials[..|denials| - 1], now, attempts);
      var d := denials[|denials| - 1];
      if Due(d, now) then Executed(before, Matching(utxos, d.tip), d, attempts(d.id)) else before
  }

  /** The wallet a plan spends from; an empty id stands for the enforcer wallet. */
  function WalletOf(p: Plan): string { if p.walletId.Some? then p.walletId.value else "" }

  predicate TipGone(wallets: map<string, seq<Utxo>>, d: Denial) {
    WalletOf(d.plan) in wallets && Matching(wallets[WalletOf(d.plan)], d.tip) == []
  }

  function CancelGone(db: Db, wallets: map<string, seq<Utxo>>, denials: seq<Denial>): Db {
    if denials == [] then db
    else
      var before := CancelGone(db, wallets, denials[..|denials| - 1]);
      var d := denials[|denials| - 1];
      if TipGone(wallets, d) then Cancelled(before, d.id) else before
  }

  /** The live plans seen first lost those whose tip a listed wallet no longer has. */
  ghost predicate CleanedUp(before: Db, after: Db, listing: string -> Option<seq<Utxo>>,
                            wallets: map<string, seq<Utxo>>, seen: seq<Denial>)
  {
    && IsListing(before, true, seen)
    && (forall i :: 0 <= i < |seen| ==> (WalletOf(seen[i].plan) in wallets <==> listing(WalletOf(seen[i].plan)).Some?))
    && after == CancelGone(before, wallets, seen)
  }

  class DeniabilityEngine {
    const store: DenialStore

    constructor (store: DenialStore)
      ensures this.store == store
    {
      this.store := store;
    }

    method CancelIfUtxoIsGone(wallets: map<string, seq<Utxo>>, denials: seq<Denial>)
      modifies store
      ensures store.Contents() == CancelGone(old(store.Contents()), wallets, denials)
      ensures store.plans.Keys == old(store.plans.Keys) && store.nextId == old(store.nextId)
    {
      for i := 0 to |denials|
        invariant store.Contents() == CancelGone(old(store.Contents()), wallets, denials[..i])
        invariant store.plans.Keys == old(store.plans.Keys) && store.nextId == old(store.nextId)
      {
        assert denials[..i + 1][..i] == denials[..i];
        var walletId := if denials[i].plan.walletId.Some? then denials[i].plan.walletId.value else "";
        if walletId in wallets {
          var found := FindUtxos(wallets[walletId], denials[i].tip);
          if found == [] {
            var _ := store.Cancel(denials[i].id);
          }
        }
      }
      assert denials[..|denials|] == denials;
    }

    method FindUtxos(utxos: seq<Utxo>, tip: Outpoint) returns (found: seq<Utxo>)
      ensures found == Matching(utxos, tip)
    {
      found := [];
      for i := 0 to |utxos|
        invariant found == Matching(utxos[..i], tip)
      {
        assert utxos[..i + 1][..i] == utxos[..i];
        if utxos[i].outpoint == tip {
          found := found + [utxos[i]];
        }
      }
      assert utxos[..|utxos|] == utxos;
    }

    /** Lists the wallets of the live plans once each; a wallet that fails is left out and its plans are kept. */
    method CleanupDenials(listing: string -> Option<seq<Utxo>>)
      returns (wallets: map<string, seq<Utxo>>, denials: seq<Denial>)
      modifies store
      ensures forall w :: w in wallets ==> listing(w) == Some(wallets[w])
      ensures exists seen: seq<Denial> ::
        CleanedUp(old(store.Contents()), store.Contents(), listing, wallets, seen)
      ensures IsListing(store.Contents(), true, denials)
    {
      var seen := store.List(true);
      wallets := map[];
      var failed: set<string> := {};
      for i := 0 to |seen|
        invariant forall w :: w in wallets ==> listing(w) == Some(wallets[w])
        invariant forall w :: w in failed ==> listing(w) == None
        invariant forall j :: 0 <= j < i ==> WalletOf(seen[j].plan) in wallets || WalletOf(seen[j].plan) in failed
      {
        var walletId := WalletOf(seen[i].plan);
        if walletId !in failed && walletId !in wallets {
          var utxos := listing(walletId);
          if utxos.None? {
            failed := failed + {walletId};
          } else {
            wallets := wallets[walletId := utxos.value];
          }
        }
      }
      CancelIfUtxoIsGone(wallets, seen);
      assert CleanedUp(old(store.Contents()), store.Contents(), listing, wallets, seen);
      denials := store.List(true);
    }

    method ProcessUtxo(u: Utxo, d: Denial, attempt: Attempt)
      modifies store
      ensures store.Contents() == Processed(old(store.Contents()), u, d, attempt)
    {
      if u.value < FEE {
        var _ := store.Cancel(d.id);
        return;
      }
      if attempt.Seen? {
        for i := 0 to |attempt.vouts|
          invariant store.Contents()
                 == RecordAll(old(store.Contents()), d.id, u.outpoint, attempt.txid, attempt.vouts[..i], attempt.at)
        {
          assert attempt.vouts[..i + 1][..i] == attempt.vouts[..i];
          store.RecordExecution(d.id, u.outpoint, Outpoint(attempt.txid, attempt.vouts[i]), attempt.at);
        }
        assert attempt.vouts[..|attempt.vouts|] == attempt.vouts;
      }
    }

    method ExecuteDenial(utxos: seq<Utxo>, d: Denial, attempts: nat -> Attempt)
      modifies store
      ensures store.Contents() == Executed(old(store.Contents()), Matching(utxos, d.tip), d, attempts)
    {
      var found := FindUtxos(utxos, d.tip);
      for i := 0 to |found|
        invariant store.Contents() == Executed(old(store.Contents()), found[..i], d, attempts)
      {
        assert found[..i + 1][..i] == found[..i];
        ProcessUtxo(found[i], d, attempts(i));
      }
      assert found[..|found|] == found;
    }

    /** The loop over the cleaned-up plans; `now` is read once, before it. */
    method CheckDenials(utxos: seq<Utxo>, denials: seq<Denial>, now: int, attempts: nat -> nat -> Attempt)
      modifies store
      ensures store.Contents() == Checked(old(store.Contents()), utxos, denials, now, attempts)
    {
      for i := 0 to |denials|
        invariant store.Contents() == Checked(old(store.Contents()), utxos, denials[..i], now, attempts)
      {
        assert denials[..i + 1][..i] == denials[..i];
        var d := denials[i];
        if d.next.None? || now < d.next.value {
          continue;
        }
        ExecuteDenial(utxos, d, attempts(d.id));
      }
      assert denials[..|denials|] == denials;
    }
  }

  // ---------------------------------------------------------------- listings

  /** Each outpoint is listed once. */
  predicate ListedOnce(utxos: seq<Utxo>) {
    forall i, j :: 0 <= i < j < |utxos| ==> utxos[i].outpoint != utxos[j].outpoint
  }

  lemma {:induction false} MatchingAtMostOne(utxos: seq<Utxo>, tip: Outpoint)
    requires ListedOnce(utxos)
    ensures |Matching(utxos, tip)| <= 1
    ensures Matching(utxos, tip) != [] <==> exists i :: 0 <= i < |utxos| && utxos[i].outpoint == tip
  {
    if utxos != [] {
      var n := |utxos| - 1;
      MatchingAtMostOne(utxos[..n], tip);
      if i :| 0 <= i < |utxos| && utxos[i].outpoint == tip {
        assert i < n ==> utxos[..n][i].outpoint == tip;
      }
      if i :| 0 <= i < n && utxos[..n][i].outpoint == tip {
        assert utxos[i].outpoint == tip;
      }
    }
  }

  /** After the cleanup a plan is cancelled exactly when it was before, or its wallet could be listed and its tip was
      not there; nothing else about any plan changes. */
  lemma {:induction false} CancelGoneIff(db: Db, wallets: map<string, seq<Utxo>>, denials: seq<Denial>, id: nat)
    requires id in db.plans
    ensures var after := CancelGone(db, wallets, denials);
            && after.executions == db.executions && after.plans.Keys == db.plans.Keys
            && after.plans[id] == db.plans[id].(cancelled := after.plans[id].cancelled)
            && (after.plans[id].cancelled <==> db.plans[id].cancelled || GoneAt(wallets, denials, id))
  {
    if denials != [] {
      var n := |denials| - 1;
      CancelGoneIff(db, wallets, denials[..n], id);
      hide Missing, TipGone;
      TipGoneIff(wallets, denials[n]);
      if GoneAt(wallets, denials[..n], id) {
        var i :| 0 <= i < n && denials[..n][i].id == id && Missing(wallets, denials[..n][i]);
        assert denials[i].id == id && Missing(wallets, denials[i]);
      }
      if GoneAt(wallets, denials, id) {
        var i :| 0 <= i < |denials| && denials[i].id == id && Missing(wallets, denials[i]);
        assert i < n ==> denials[..n][i].id == id && Missing(wallets, denials[..n][i]);
      }
    }
  }

  /** The plan is listed, the listing of its wallet succeeded, and no output in it is at its tip. */
  predicate GoneAt(wallets: map<string, seq<Utxo>>, denials: seq<Denial>, id: nat) {
    exists i :: 0 <= i < |denials| && denials[i].id == id && Missing(wallets, denials[i])
  }

  /** Plans without a wallet id are looked up under the empty one. */
  predicate Missing(wallets: map<string, seq<Utxo>>, d: Denial) {
    exists w :: w in wallets && (d.plan.walletId == Some(w) || (d.plan.walletId == None && w == ""))
      && forall j :: 0 <= j < |wallets[w]| ==> wallets[w][j].outpoint != d.tip
  }

  lemma TipGoneIff(wallets: map<string, seq<Utxo>>, d: Denial)
    ensures TipGone(wallets, d) <==> Missing(wallets, d)
  {
    if WalletOf(d.plan) in wallets {
      MatchingEmptyIff(wallets[WalletOf(d.plan)], d.tip);
    }
  }

  lemma {:induction false} MatchingEmptyIff(utxos: seq<Utxo>, tip: Outpoint)
    ensures Matching(utxos, tip) == [] <==> forall j :: 0 <= j < |utxos| ==> utxos[j].outpoint != tip
  {
    if utxos != [] {
      var n := |utxos| - 1;
      MatchingEmptyIff(utxos[..n], tip);
      if forall j :: 0 <= j < n ==> utxos[..n][j].outpoint != tip {
        assert forall j :: 0 <= j < n ==> utxos[..n][j] == utxos[j];
      }
    }
  }
}
