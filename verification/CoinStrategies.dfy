/** Which strategies succeed on which coins. */
module CoinStrategies {
  import opened Wrappers
  import opened CoinSelection

  /** Every coin pays at least for its own input. */
  predicate NoDust(q: Request, pool: seq<Utxo>) {
    forall i :: 0 <= i < |pool| ==> pool[i].value >= INPUT_VBYTES * q.feeRate
  }

  lemma SameCover(q: Request, required: seq<Utxo>, a: seq<Utxo>, b: seq<Utxo>)
    requires multiset(a) == multiset(b)
    ensures Covers(q, required + a) <==> Covers(q, required + b)
  {
    hide Sum;
    SumPermutation(a, b);
    SumAppend(required, a);
    SumAppend(required, b);
  }

  lemma DustFirst(q: Request, dust: Utxo, big: Utxo, j: nat)
    requires q == Request(60, 1, 2) && dust.value == 1 && big.value == 200 && j <= 2
    ensures Covers(q, [] + [big, dust][..1]) && !Covers(q, [] + [dust, big][..j])
  {
    hide Sum;
    SumOne(big);
    SumOne(dust);
    assert [] + [big, dust][..1] == [big];
    assert [dust] + [big] == [dust, big];
    SumSnoc([dust], big);
    var s := [] + [dust, big][..j];
    assert s == if j == 0 then [] else if j == 1 then [dust] else [dust, big];
  }

  lemma BothOrders(dust: Utxo, big: Utxo)
    requires dust.value <= big.value
    ensures Arranged(LargestFirst, [dust, big], [big, dust]) && Arranged(SmallestFirst, [dust, big], [dust, big])
  {
    assert [dust, big] == [dust] + [big] && [big, dust] == [big] + [dust];
  }

  /** With a coin below its own fee the strategies can disagree: at one satoshi per vbyte, 200 satoshis cover a
      target of 60 on their own, but not together with a one-satoshi coin, with which smallest-first begins. */
  lemma DustDivides()
    ensures var q := Request(60, 1, 2);
            var big, dust := Utxo("big", 200), Utxo("dust", 1);
            && Arranged(LargestFirst, [dust, big], [big, dust]) && Covers(q, [] + [big, dust][..1])
            && Arranged(SmallestFirst, [dust, big], [dust, big])
            && forall j: nat :: j <= 2 ==> !Covers(q, [] + [dust, big][..j])
  {
    hide *;
    var q := Request(60, 1, 2);
    var big, dust := Utxo("big", 200), Utxo("dust", 1);
    DustFirst(q, dust, big, 0);
    BothOrders(dust, big);
    forall j: nat | j <= 2 ensures !Covers(q, [] + [dust, big][..j]) {
      DustFirst(q, dust, big, j);
    }
  }

  ghost predicate Permutes(order: seq<Utxo>, pool: seq<Utxo>) { multiset(order) == multiset(pool) }

  /** Selection over this arrangement of the pool finds a covering prefix. */
  ghost predicate Succeeds(q: Request, required: seq<Utxo>, order: seq<Utxo>) {
    exists k: nat :: k <= |order| && Covers(q, required + order[..k])
  }

  /** A result of selection is a success exactly when its arrangement succeeds. */
  lemma SuccessIsSucceeds(q: Request, strategy: Strategy, required: seq<Utxo>, pool: seq<Utxo>, frozenAmount: int,
                          r: Result<Selection, InsufficientFunds>)
    returns (order: seq<Utxo>)
    requires SelectedBy(q, strategy, required, pool, frozenAmount, r)
    ensures Arranged(strategy, pool, order) || (Covers(q, required) && Permutes(order, pool))
    ensures r.Success? <==> Succeeds(q, required, order)
  {
    hide Covers;
    order :| (Covers(q, required) || Arranged(strategy, pool, order))
      && SelectedFrom(q, required, order, frozenAmount, r);
    if Covers(q, required) {
      assert required + order[..0] == required && required + pool[..0] == required;
      order := pool;
    }
  }

  /** Selection over any arrangement has a result. */
  lemma ResultExists(q: Request, strategy: Strategy, required: seq<Utxo>, pool: seq<Utxo>, frozenAmount: int,
                     order: seq<Utxo>)
    returns (r: Result<Selection, InsufficientFunds>)
    requires Arranged(strategy, pool, order)
    ensures SelectedBy(q, strategy, required, pool, frozenAmount, r)
    ensures r.Success? <==> Succeeds(q, required, order)
  {
    hide Covers;
    if k: nat :| k <= |order| && Covers(q, required + order[..k]) {
      var least := LeastCover(q, required, order, k);
      var utxos := required + order[..least];
      var total, fee := Sum(utxos), q.Fee(|utxos|);
      r := Success(Selection(utxos, total, fee, total - q.target - fee));
    } else {
      r := Failure(InsufficientFunds(q.target + q.Fee(|required| + |order|), Sum(required + order), frozenAmount));
    }
    assert SelectedFrom(q, required, order, frozenAmount, r);
  }

  lemma {:induction false} LeastCover(q: Request, required: seq<Utxo>, order: seq<Utxo>, k: nat) returns (least: nat)
    requires k <= |order| && Covers(q, required + order[..k])
    ensures least <= |order| && ShortestCover(q, required, order, least)
    decreases k
  {
    hide Covers;
    if j: nat :| j < k && Covers(q, required + order[..j]) {
      least := LeastCover(q, required, order, j);
    } else {
      least := k;
    }
  }

  // ---------------------------------------------------------------- the same, read off the coins

  /** What the coins contribute beyond the fees of their own inputs. */
  function Gain(q: Request, s: seq<Utxo>): int {
    if s == [] then 0 else Gain(q, s[..|s| - 1]) + s[|s| - 1].value - INPUT_VBYTES * q.feeRate
  }

  /** The coins that pay at least for their own input. */
  function Paying(q: Request, pool: seq<Utxo>): seq<Utxo> {
    Select(pool, (u: Utxo) => u.value >= INPUT_VBYTES * q.feeRate)
  }

  /** Adding coins covers exactly when their gain makes up for what the required coins leave open. */
  lemma {:induction false} CoversByGain(q: Request, required: seq<Utxo>, s: seq<Utxo>)
    ensures Sum(required + s) - q.target - q.Fee(|required + s|)
      == Sum(required) - q.target - q.Fee(|required|) + Gain(q, s)
  {
    if s == [] {
      assert required + s == required;
    } else {
      var n := |s| - 1;
      CoversByGain(q, required, s[..n]);
      assert required + s == (required + s[..n]) + [s[n]];
      SumSnoc(required + s[..n], s[n]);
      FeeStep(q, |required + s[..n]|);
    }
  }

  lemma FeeStep(q: Request, n: nat)
    ensures q.Fee(n + 1) == q.Fee(n) + INPUT_VBYTES * q.feeRate
  {
  }

  lemma MoreGain(q: Request, required: seq<Utxo>, a: seq<Utxo>, b: seq<Utxo>)
    requires Gain(q, a) <= Gain(q, b) && Covers(q, required + a)
    ensures Covers(q, required + b)
  {
    hide Sum;
    CoversByGain(q, required, a);
    CoversByGain(q, required, b);
  }

  lemma GainSnoc(q: Request, s: seq<Utxo>, u: Utxo)
    ensures Gain(q, s + [u]) == Gain(q, s) + u.value - INPUT_VBYTES * q.feeRate
    ensures Paying(q, s + [u]) == Paying(q, s) + if u.value >= INPUT_VBYTES * q.feeRate then [u] else []
  {
    assert (s + [u])[..|s|] == s;
  }

  /** No part of a prefix gains more than its paying coins, and they no more than those of the whole. */
  lemma {:induction false} GainAtMostPaying(q: Request, order: seq<Utxo>, k: nat)
    requires k <= |order|
    ensures Gain(q, order[..k]) <= Gain(q, Paying(q, order))
    decreases |order|
  {
    hide Gain, Paying;
    if order == [] {
      assert order[..k] == [];
      NoGain(q);
    } else {
      var n := |order| - 1;
      var front, u := order[..n], order[n];
      assert order == front + [u];
      GainSnoc(q, front, u);
      GainSnoc(q, Paying(q, front), u);
      GainAtMostPaying(q, front, if k <= n then k else n);
      assert front[..n] == front;
      assert k <= n ==> front[..k] == order[..k];
      assert k == n + 1 ==> order[..k] == front + [u];
      assert Paying(q, front) + [] == Paying(q, front);
    }
  }

  lemma NoGain(q: Request)
    ensures Gain(q, []) == 0 && Paying(q, []) == []
  {
  }

  /** In a descending arrangement the paying coins come first. */
  lemma {:induction false} PayingComeFirst(q: Request, order: seq<Utxo>) returns (k: nat)
    requires Descending(order)
    ensures k <= |order| && Paying(q, order) == order[..k]
    ensures k < |order| ==> order[k].value < INPUT_VBYTES * q.feeRate
  {
    hide Paying;
    k := 0;
    NoGain(q);
    if order == [] {
    } else {
      var n := |order| - 1;
      assert order == order[..n] + [order[n]];
      GainSnoc(q, order[..n], order[n]);
      k := PayingComeFirst(q, order[..n]);
      if k == n && order[n].value >= INPUT_VBYTES * q.feeRate {
        k := n + 1;
      }
    }
  }

  lemma {:induction false} SelectCount(s: seq<Utxo>, p: Utxo -> bool, x: Utxo)
    ensures multiset(Select(s, p))[x] == if p(x) then multiset(s)[x] else 0
  {
    if s != [] {
      var n := |s| - 1;
      SelectCount(s[..n], p, x);
      assert s == s[..n] + [s[n]];
    }
  }

  lemma PayingPermutes(q: Request, a: seq<Utxo>, b: seq<Utxo>)
    requires Permutes(a, b)
    ensures Permutes(Paying(q, a), Paying(q, b))
  {
    hide Select;
    var p := (u: Utxo) => u.value >= INPUT_VBYTES * q.feeRate;
    forall x ensures multiset(Paying(q, a))[x] == multiset(Paying(q, b))[x] {
      SelectCount(a, p, x);
      SelectCount(b, p, x);
    }
  }

  /** Where any arrangement succeeds, the coins that pay for themselves cover. */
  lemma PayingCovers(q: Request, required: seq<Utxo>, pool: seq<Utxo>, order: seq<Utxo>)
    requires Permutes(order, pool)
    ensures Permutes(Paying(q, order), Paying(q, pool))
    ensures Succeeds(q, required, order) ==> Covers(q, required + Paying(q, pool))
  {
    hide Sum, Covers, Gain, Paying;
    PayingPermutes(q, order, pool);
    if k: nat :| k <= |order| && Covers(q, required + order[..k]) {
      GainAtMostPaying(q, order, k);
      MoreGain(q, required, order[..k], Paying(q, order));
      SameCover(q, required, Paying(q, order), Paying(q, pool));
    }
  }

  /** Largest-first succeeds exactly when the required coins cover together with all coins that pay for themselves. */
  lemma LargestSucceedsIff(q: Request, required: seq<Utxo>, pool: seq<Utxo>, order: seq<Utxo>)
    requires Descending(order) && Permutes(order, pool)
    ensures Succeeds(q, required, order) <==> Covers(q, required + Paying(q, pool))
  {
    hide Sum, Covers, Gain, Paying, Descending;
    PayingCovers(q, required, pool, order);
    SameCover(q, required, Paying(q, order), Paying(q, pool));
    var first := PayingComeFirst(q, order);
  }

  /** In an ascending arrangement a prefix gains no more than nothing or than the whole. */
  lemma {:induction false} AscendingGain(q: Request, order: seq<Utxo>, k: nat)
    requires Ascending(order) && k <= |order|
    ensures Gain(q, order[..k]) <= 0 || Gain(q, order[..k]) <= Gain(q, order)
    decreases |order|
  {
    hide Gain;
    if k == |order| {
      assert order[..k] == order;
    } else {
      var n := |order| - 1;
      assert order == order[..n] + [order[n]];
      GainSnoc(q, order[..n], order[n]);
      AscendingGain(q, order[..n], k);
      assert order[..n][..k] == order[..k];
      if order[n].value < INPUT_VBYTES * q.feeRate {
        AllLosing(q, order[..k]);
      }
    }
  }

  lemma {:induction false} AllLosing(q: Request, s: seq<Utxo>)
    requires forall i :: 0 <= i < |s| ==> s[i].value < INPUT_VBYTES * q.feeRate
    ensures Gain(q, s) <= 0
  {
    if s != [] {
      AllLosing(q, s[..|s| - 1]);
    }
  }

  /** Smallest-first succeeds exactly when the required coins cover alone or together with the whole pool. */
  lemma SmallestSucceedsIff(q: Request, required: seq<Utxo>, pool: seq<Utxo>, order: seq<Utxo>)
    requires Ascending(order) && Permutes(order, pool)
    ensures Succeeds(q, required, order) <==> Covers(q, required) || Covers(q, required + pool)
  {
    hide Sum, Covers, Gain, Ascending;
    SameCover(q, required, order, pool);
    assert required + order[..0] == required && order[..|order|] == order;
    NoGain(q);
    if k: nat :| k <= |order| && Covers(q, required + order[..k]) {
      AscendingGain(q, order, k);
      if Gain(q, order[..k]) <= 0 {
        MoreGain(q, required, order[..k], order[..0]);
      } else {
        MoreGain(q, required, order[..k], order);
      }
    }
  }

  /** The smallest-first arrangement is the last to succeed, the largest-first the first. */
  lemma BetweenExtremes(q: Request, required: seq<Utxo>, pool: seq<Utxo>,
                        smallest: seq<Utxo>, order: seq<Utxo>, largest: seq<Utxo>)
    requires Ascending(smallest) && Descending(largest)
    requires Permutes(smallest, pool) && Permutes(order, pool) && Permutes(largest, pool)
    ensures Succeeds(q, required, smallest) ==> Succeeds(q, required, order)
    ensures Succeeds(q, required, order) ==> Succeeds(q, required, largest)
  {
    hide Sum, Covers, Gain, Paying, Ascending, Descending;
    SmallestSucceedsIff(q, required, pool, smallest);
    SameCover(q, required, order, pool);
    assert required + order[..0] == required && order[..|order|] == order;
    LargestSucceedsIff(q, required, pool, largest);
    PayingCovers(q, required, pool, order);
  }

  /** When every unfrozen coin is worth its own fee, success does not depend on the strategy: selection succeeds
      exactly when all the coins together cover the request. */
  lemma StrategyIndependent(q: Request, strategy: Strategy, required: seq<Utxo>, pool: seq<Utxo>, frozenAmount: int,
                            r: Result<Selection, InsufficientFunds>)
    requires SelectedBy(q, strategy, required, pool, frozenAmount, r) && NoDust(q, pool)
    ensures r.Success? <==> Covers(q, required + pool)
  {
    hide Sum, Covers, NoDust, Paying, SelectedBy;
    AllPay(q, pool);
    var order := SuccessIsSucceeds(q, strategy, required, pool, frozenAmount, r);
    PayingCovers(q, required, pool, order);
    SameCover(q, required, order, pool);
    assert order[..|order|] == order;
  }

  lemma {:induction false} AllPay(q: Request, pool: seq<Utxo>)
    requires NoDust(q, pool)
    ensures Paying(q, pool) == pool
  {
    if pool != [] {
      var n := |pool| - 1;
      AllPay(q, pool[..n]);
      assert pool == pool[..n] + [pool[n]];
    }
  }

  /** The place of a coin in a sorted list. */
  lemma {:induction false} PlaceOf(largestFirst: bool, s: seq<Utxo>, u: Utxo) returns (i: nat)
    requires KeySorted(largestFirst, s)
    ensures i <= |s| && KeySorted(largestFirst, s[..i] + [u] + s[i..])
  {
    i := |s|;
    while i > 0 && Key(largestFirst, s[i - 1]) > Key(largestFirst, u)
      invariant 0 <= i <= |s|
      invariant i < |s| ==> Key(largestFirst, u) < Key(largestFirst, s[i])
    {
      i := i - 1;
    }
  }

  /** The pool can be put in either order. */
  lemma {:induction false} Sortable(largestFirst: bool, pool: seq<Utxo>) returns (order: seq<Utxo>)
    ensures KeySorted(largestFirst, order) && Permutes(order, pool)
  {
    assert KeySorted(largestFirst, []);
    hide KeySorted;
    if pool == [] {
      order := [];
    } else {
      var n := |pool| - 1;
      var rest := Sortable(largestFirst, pool[..n]);
      var i := PlaceOf(largestFirst, rest, pool[n]);
      order := rest[..i] + [pool[n]] + rest[i..];
      assert rest == rest[..i] + rest[i..];
      assert pool == pool[..n] + [pool[n]];
    }
  }

  /** The coins alone decide: all coins that pay for themselves must not cover where all coins do not. */
  predicate DustHarmless(q: Request, required: seq<Utxo>, pool: seq<Utxo>) {
    Covers(q, required + Paying(q, pool)) ==> Covers(q, required) || Covers(q, required + pool)
  }

  /** Success is the same for all arrangements of the pool exactly when dust does no harm: if the coins that pay for
      themselves cover, then the required coins or all coins do. */
  lemma ArrangementsAgreeIff(q: Request, required: seq<Utxo>, pool: seq<Utxo>)
    ensures (forall a, b :: Permutes(a, pool) && Permutes(b, pool)
                            ==> (Succeeds(q, required, a) <==> Succeeds(q, required, b)))
       <==> DustHarmless(q, required, pool)
  {
    hide Sum, Covers, Succeeds, Paying, Permutes;
    var smallest, largest := Extremes(pool);
    SmallestSucceedsIff(q, required, pool, smallest);
    LargestSucceedsIff(q, required, pool, largest);
    forall a | Permutes(a, pool)
      ensures Succeeds(q, required, smallest) ==> Succeeds(q, required, a)
      ensures Succeeds(q, required, a) ==> Succeeds(q, required, largest)
    {
      BetweenExtremes(q, required, pool, smallest, a, largest);
    }
    assert Succeeds(q, required, smallest) ==> Succeeds(q, required, largest);
  }

  lemma Extremes(pool: seq<Utxo>) returns (smallest: seq<Utxo>, largest: seq<Utxo>)
    ensures Ascending(smallest) && Permutes(smallest, pool) && Arranged(SmallestFirst, pool, smallest)
    ensures Descending(largest) && Permutes(largest, pool) && Arranged(LargestFirst, pool, largest)
  {
    smallest := Sortable(false, pool);
    largest := Sortable(true, pool);
    forall i, j | 0 <= i < j < |smallest| ensures smallest[i].value <= smallest[j].value {
      assert Key(false, smallest[i]) <= Key(false, smallest[j]);
    }
    forall i, j | 0 <= i < j < |largest| ensures largest[i].value >= largest[j].value {
      assert Key(true, largest[i]) <= Key(true, largest[j]);
    }
  }

  /** Two runs of SelectCoins on the same wallet, whatever their strategies, both succeed or both fail. */
  ghost predicate StrategiesAgree(q: Request, required: seq<Utxo>, pool: seq<Utxo>, frozenAmount: int) {
    forall s, t, x, y ::
      SelectedBy(q, s, required, pool, frozenAmount, x) && SelectedBy(q, t, required, pool, frozenAmount, y)
      ==> (x.Success? <==> y.Success?)
  }

  /** Whether selection succeeds is independent of the strategy exactly when dust does no harm. */
  lemma StrategiesAgreeIff(q: Request, required: seq<Utxo>, pool: seq<Utxo>, frozenAmount: int)
    ensures StrategiesAgree(q, required, pool, frozenAmount) <==> DustHarmless(q, required, pool)
  {
    assert forall s, order :: Arranged(s, pool, order) ==> Permutes(order, pool);
    hide Sum, Covers, Succeeds, Paying, SelectedBy, Arranged;
    ArrangementsAgreeIff(q, required, pool);
    if DustHarmless(q, required, pool) {
      forall s, t, x, y | SelectedBy(q, s, required, pool, frozenAmount, x)
        && SelectedBy(q, t, required, pool, frozenAmount, y)
        ensures x.Success? <==> y.Success?
      {
        var a := SuccessIsSucceeds(q, s, required, pool, frozenAmount, x);
        var b := SuccessIsSucceeds(q, t, required, pool, frozenAmount, y);
      }
    }
    if StrategiesAgree(q, required, pool, frozenAmount) {
      var smallest, largest := Extremes(pool);
      var x := ResultExists(q, SmallestFirst, required, pool, frozenAmount, smallest);
      var y := ResultExists(q, LargestFirst, required, pool, frozenAmount, largest);
      SmallestSucceedsIff(q, required, pool, smallest);
      LargestSucceedsIff(q, required, pool, largest);
    }
  }
}
