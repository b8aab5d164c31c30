/** What a selection looks like to the wallet that asked for it: coins, amounts and order, in numbers. */
module CoinChoices {
  import opened Wrappers
  import opened CoinSelection

  /** Virtual bytes of a transaction with k inputs and the outputs asked for, two of them by default. */
  function VirtualBytes(q: Request, k: nat): int {
    10 + 68 * k + 31 * (if q.numOutputs <= 0 then 2 else q.numOutputs)
  }

  lemma FeeIs(q: Request, k: nat)
    ensures q.Fee(k) == VirtualBytes(q, k) * q.feeRate
  {
  }

  /** How often a coin stands in a part of the wallet. */
  lemma {:induction false} Counts(all: seq<Utxo>, p: Utxo -> bool, u: Utxo)
    ensures multiset(Select(all, p))[u] == if p(u) then multiset(all)[u] else 0
  {
    if all != [] {
      var n := |all| - 1;
      Counts(all[..n], p, u);
      assert all == all[..n] + [all[n]];
      assert multiset(all)[u] == multiset(all[..n])[u] + multiset([all[n]])[u];
    }
  }

  lemma PartCounts(all: seq<Utxo>, frozen: set<string>, required: set<string>, u: Utxo)
    ensures multiset(Required(all, required))[u] == if u.outpoint in required then multiset(all)[u] else 0
    ensures multiset(Available(all, frozen, required))[u]
         == if u.outpoint !in required && u.outpoint !in frozen then multiset(all)[u] else 0
  {
    Counts(all, (v: Utxo) => v.outpoint in required, u);
    Counts(all, (v: Utxo) => v.outpoint !in required && v.outpoint !in frozen, u);
  }

  /** Every required coin is chosen, no other frozen one is, and none more often than the wallet has it. */
  ghost predicate FromWallet(all: seq<Utxo>, frozen: set<string>, required: set<string>, chosen: seq<Utxo>) {
    forall u: Utxo ::
      && multiset(chosen)[u] <= multiset(all)[u]
      && (u.outpoint in required ==> multiset(chosen)[u] == multiset(all)[u])
      && (u.outpoint in frozen && u.outpoint !in required ==> u !in multiset(chosen))
  }

  /** The wallet's coins that are neither chosen nor frozen. */
  predicate Left(all: seq<Utxo>, frozen: set<string>, chosen: seq<Utxo>, u: Utxo) {
    u.outpoint !in frozen && multiset(chosen)[u] < multiset(all)[u]
  }

  /** Amounts are exact, and without the last coin added to the required ones the rest would not have paid. */
  ghost predicate PaysExactly(q: Request, required: nat, sel: Selection) {
    var n := |sel.utxos|;
    && required <= n
    && sel.totalInput == Sum(sel.utxos)
    && sel.fee == VirtualBytes(q, n) * q.feeRate
    && sel.change == Sum(sel.utxos) - q.target - VirtualBytes(q, n) * q.feeRate >= 0
    && (required < n ==> Sum(sel.utxos[..n - 1]) < q.target + VirtualBytes(q, n - 1) * q.feeRate)
  }

  /** A selection takes all required coins and no frozen ones besides, its amounts add up, its last coin was needed,
      and behind the required coins it took the largest, or the smallest, that the wallet had to offer. */
  lemma SelectionExplained(q: Request, all: seq<Utxo>, frozen: set<string>, required: set<string>, strategy: Strategy,
                           sel: Selection)
    requires SelectedBy(q, strategy, Required(all, required), Available(all, frozen, required),
                        Sum(Frozen(all, frozen)), Success(sel))
    ensures FromWallet(all, frozen, required, sel.utxos)
    ensures PaysExactly(q, |Required(all, required)|, sel)
    ensures sel.utxos[..|Required(all, required)|] == Required(all, required)
    ensures forall i, u: Utxo :: |Required(all, required)| <= i < |sel.utxos| && Left(all, frozen, sel.utxos, u) ==>
              && (strategy in {LargestFirst, Unspecified} ==> sel.utxos[i].value >= u.value)
              && (strategy == SmallestFirst ==> sel.utxos[i].value <= u.value)
  {
    hide Sum, Required, Available, Frozen, Select, FromWallet, PaysExactly, Left;
    var req, pool := Required(all, required), Available(all, frozen, required);
    var order :| (Covers(q, req) || Arranged(strategy, pool, order))
      && SelectedFrom(q, req, order, Sum(Frozen(all, frozen)), Success(sel));
    var k: nat :| k <= |order| && ShortestCover(q, req, order, k) && sel.utxos == req + order[..k];
    Amounts(q, req, order, k, sel);
    assert req + order[..0] == req;
    assert k > 0 ==> Arranged(strategy, pool, order);
    ChosenCounts(all, frozen, required, order, k);
    forall i, u: Utxo | |req| <= i < |sel.utxos| && Left(all, frozen, sel.utxos, u)
      ensures strategy in {LargestFirst, Unspecified} ==> sel.utxos[i].value >= u.value
      ensures strategy == SmallestFirst ==> sel.utxos[i].value <= u.value
    {
      var j := LeftBehind(all, frozen, required, order, k, u);
      assert sel.utxos[i] == order[i - |req|];
    }
  }

  lemma ChosenCounts(all: seq<Utxo>, frozen: set<string>, required: set<string>, order: seq<Utxo>, k: nat)
    requires k <= |order| && (k > 0 ==> multiset(order) == multiset(Available(all, frozen, required)))
    ensures FromWallet(all, frozen, required, Required(all, required) + order[..k])
  {
    hide Required, Available;
    var chosen := Required(all, required) + order[..k];
    forall u: Utxo
      ensures multiset(chosen)[u] <= multiset(all)[u]
      ensures u.outpoint in required ==> multiset(chosen)[u] == multiset(all)[u]
      ensures u.outpoint in frozen && u.outpoint !in required ==> u !in multiset(chosen)
    {
      PartCounts(all, frozen, required, u);
      PrefixCounts(order, k, u);
    }
  }

  lemma LeftBehind(all: seq<Utxo>, frozen: set<string>, required: set<string>, order: seq<Utxo>, k: nat, u: Utxo)
    returns (j: nat)
    requires k <= |order| && multiset(order) == multiset(Available(all, frozen, required))
    requires Left(all, frozen, Required(all, required) + order[..k], u)
    ensures k <= j < |order| && order[j] == u
  {
    hide Required, Available;
    PartCounts(all, frozen, required, u);
    j := Behind(order, k, u);
  }

  lemma PrefixCounts(order: seq<Utxo>, k: nat, u: Utxo)
    requires k <= |order|
    ensures multiset(order[..k])[u] <= multiset(order)[u]
  {
    assert order == order[..k] + order[k..];
  }

  /** A coin that stands in the pool more often than in the chosen part stands behind that part. */
  lemma Behind(order: seq<Utxo>, k: nat, u: Utxo) returns (j: nat)
    requires k <= |order| && multiset(order[..k])[u] < multiset(order)[u]
    ensures k <= j < |order| && order[j] == u
  {
    assert order == order[..k] + order[k..];
    assert u in multiset(order[k..]);
    var i :| 0 <= i < |order[k..]| && order[k..][i] == u;
    j := k + i;
  }

  lemma Amounts(q: Request, req: seq<Utxo>, order: seq<Utxo>, k: nat, sel: Selection)
    requires k <= |order| && ShortestCover(q, req, order, k) && sel.utxos == req + order[..k]
    requires sel.totalInput == Sum(sel.utxos) && sel.fee == q.Fee(|sel.utxos|)
    requires sel.change == sel.totalInput - q.target - sel.fee
    ensures PaysExactly(q, |req|, sel)
  {
    hide Sum;
    var n := |sel.utxos|;
    FeeIs(q, n);
    if k > 0 {
      FeeIs(q, n - 1);
      assert sel.utxos[..n - 1] == req + order[..k - 1];
      assert !Covers(q, req + order[..k - 1]);
    }
  }

  /** A refusal names what all coins that may be spent are worth and what spending them all would take. */
  lemma RefusalExplained(q: Request, all: seq<Utxo>, frozen: set<string>, required: set<string>, strategy: Strategy,
                         e: InsufficientFunds)
    requires SelectedBy(q, strategy, Required(all, required), Available(all, frozen, required),
                        Sum(Frozen(all, frozen)), Failure(e))
    ensures var spendable := Select(all, (u: Utxo) => u.outpoint in required || u.outpoint !in frozen);
            && e.available == Sum(spendable) < e.needed
            && e.needed == q.target + VirtualBytes(q, |spendable|) * q.feeRate
    ensures e.frozenAmount == Sum(Select(all, (u: Utxo) => u.outpoint in frozen))
  {
    hide Sum, Select;
    var req, pool := Required(all, required), Available(all, frozen, required);
    var order :| (Covers(q, req) || Arranged(strategy, pool, order))
      && SelectedFrom(q, req, order, Sum(Frozen(all, frozen)), Failure(e));
    assert req + order[..0] == req && order[..|order|] == order;
    assert !Covers(q, req + order[..|order|]);
    SumAppend(req, order);
    SumPermutation(order, pool);
    Spendable(all, frozen, required);
    FeeIs(q, |req| + |order|);
  }

  lemma {:induction false} Spendable(all: seq<Utxo>, frozen: set<string>, required: set<string>)
    ensures var spendable := Select(all, (u: Utxo) => u.outpoint in required || u.outpoint !in frozen);
            && Sum(spendable) == Sum(Required(all, required)) + Sum(Available(all, frozen, required))
            && |spendable| == |Required(all, required)| + |Available(all, frozen, required)|
  {
    if all != [] {
      hide Sum;
      Spendable(all[..|all| - 1], frozen, required);
      SelectLast(all, (u: Utxo) => u.outpoint in required);
      SelectLast(all, (u: Utxo) => u.outpoint !in required && u.outpoint !in frozen);
      SelectLast(all, (u: Utxo) => u.outpoint in required || u.outpoint !in frozen);
    }
  }

  lemma SelectLast(all: seq<Utxo>, p: Utxo -> bool)
    requires all != []
    ensures var front, u := all[..|all| - 1], all[|all| - 1];
            && Sum(Select(all, p)) == Sum(Select(front, p)) + (if p(u) then u.value else 0)
            && |Select(all, p)| == |Select(front, p)| + (if p(u) then 1 else 0)
  {
    var front, u := all[..|all| - 1], all[|all| - 1];
    SumSnoc(Select(front, p), u);
    assert Select(front, p) + [] == Select(front, p);
  }
}
