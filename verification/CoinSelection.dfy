/** Greedy coin selection with a fee that grows with every input. */
module CoinSelection {
  import opened Wrappers

  const INPUT_VBYTES := 68
  const OUTPUT_VBYTES := 31
  const OVERHEAD_VBYTES := 10

  datatype Utxo = Utxo(outpoint: string, value: nat)

  datatype Strategy = Unspecified | LargestFirst | SmallestFirst | Random | Unknown

  datatype Selection = Selection(utxos: seq<Utxo>, totalInput: int, fee: int, change: int)

  datatype InsufficientFunds = InsufficientFunds(needed: int, available: int, frozenAmount: int)

  /** What the caller asks for; no or negative outputs mean the default of two. */
  datatype Request = Request(target: int, feeRate: int, numOutputs: int) {
    function Outputs(): int { if numOutputs <= 0 then 2 else numOutputs }

    function Fee(inputs: nat): int {
      (OVERHEAD_VBYTES + inputs * INPUT_VBYTES + Outputs() * OUTPUT_VBYTES) * feeRate
    }
  }

  function Sum(s: seq<Utxo>): nat {
    if s == [] then 0 else Sum(s[..|s| - 1]) + s[|s| - 1].value
  }

  /** The inputs pay for the target and for their own fee. */
  predicate Covers(q: Request, s: seq<Utxo>) { Sum(s) >= q.target + q.Fee(|s|) }

  function Select(all: seq<Utxo>, p: Utxo -> bool): (s: seq<Utxo>) {
    if all == [] then []
    else Select(all[..|all| - 1], p) + (if p(all[|all| - 1]) then [all[|all| - 1]] else [])
  }

  function Required(all: seq<Utxo>, required: set<string>): seq<Utxo> {
    Select(all, (u: Utxo) => u.outpoint in required)
  }

  function Available(all: seq<Utxo>, frozen: set<string>, required: set<string>): seq<Utxo> {
    Select(all, (u: Utxo) => u.outpoint !in required && u.outpoint !in frozen)
  }

  function Frozen(all: seq<Utxo>, frozen: set<string>): seq<Utxo> {
    Select(all, (u: Utxo) => u.outpoint in frozen)
  }

  // ---------------------------------------------------------------- arranging the pool

  predicate Descending(s: seq<Utxo>) {
    forall i, j :: 0 <= i < j < |s| ==> s[i].value >= s[j].value
  }

  predicate Ascending(s: seq<Utxo>) {
    forall i, j :: 0 <= i < j < |s| ==> s[i].value <= s[j].value
  }

  /** The orders a strategy allows. sort.Slice leaves ties open, shuffling leaves everything open. */
  ghost predicate Arranged(strategy: Strategy, pool: seq<Utxo>, order: seq<Utxo>) {
    && multiset(order) == multiset(pool)
    && (strategy == LargestFirst || strategy == Unspecified ==> Descending(order))
    && (strategy == SmallestFirst ==> Ascending(order))
    && (strategy == Unknown ==> order == pool)
  }

  method Swap(a: array<Utxo>, i: nat, j: nat)
    requires i < a.Length && j < a.Length
    modifies a
    ensures a[..] == old(a[..])[i := old(a[j])][j := old(a[i])]
    ensures multiset(a[..]) == multiset(old(a[..]))
  {
    a[i], a[j] := a[j], a[i];
  }

  function Key(largestFirst: bool, u: Utxo): int { if largestFirst then -(u.value as int) else u.value }

  predicate KeySorted(largestFirst: bool, s: seq<Utxo>) {
    forall i, j :: 0 <= i < j < |s| ==> Key(largestFirst, s[i]) <= Key(largestFirst, s[j])
  }

  /** Sorted apart from position j, whose element still has to sink. */
  predicate SortedBut(largestFirst: bool, s: seq<Utxo>, j: nat) {
    && (forall i, k :: 0 <= i < k < |s| && i != j && k != j ==> Key(largestFirst, s[i]) <= Key(largestFirst, s[k]))
    && (forall k :: j < k < |s| ==> j < |s| && Key(largestFirst, s[j]) <= Key(largestFirst, s[k]))
  }

  method SortInPlace(a: array<Utxo>, largestFirst: bool)
    modifies a
    ensures KeySorted(largestFirst, a[..])
    ensures multiset(a[..]) == multiset(old(a[..]))
  {
    for n := 0 to a.Length
      invariant KeySorted(largestFirst, a[..n])
      invariant multiset(a[..]) == multiset(old(a[..]))
    {
      Sink(a, largestFirst, n);
    }
    assert a[..a.Length] == a[..];
  }

  /** Moves element n down to its place among the sorted elements before it. */
  method Sink(a: array<Utxo>, largestFirst: bool, n: nat)
    requires n < a.Length && KeySorted(largestFirst, a[..n])
    modifies a
    ensures KeySorted(largestFirst, a[..n + 1])
    ensures multiset(a[..]) == multiset(old(a[..]))
  {
    hide KeySorted, SortedBut;
    var j: int := n;
    assert a[..n + 1][..n] == a[..n];
    SinkStarts(largestFirst, a[..n + 1]);
    while j > 0 && Key(largestFirst, a[j - 1]) > Key(largestFirst, a[j])
      invariant 0 <= j <= n && SortedBut(largestFirst, a[..n + 1], j)
      invariant multiset(a[..]) == multiset(old(a[..]))
    {
      ghost var before := a[..n + 1];
      Swap(a, j - 1, j);
      assert a[..n + 1] == before[j - 1 := before[j]][j := before[j - 1]];
      SinkStep(largestFirst, before, j);
      j := j - 1;
    }
    SinkEnds(largestFirst, a[..n + 1], j);
  }

  lemma SinkStarts(largestFirst: bool, s: seq<Utxo>)
    requires |s| > 0 && KeySorted(largestFirst, s[..|s| - 1])
    ensures SortedBut(largestFirst, s, |s| - 1)
  {
    var front := s[..|s| - 1];
    forall i, k | 0 <= i < k < |s| - 1 ensures Key(largestFirst, s[i]) <= Key(largestFirst, s[k]) {
      assert Key(largestFirst, front[i]) <= Key(largestFirst, front[k]);
    }
  }

  lemma SinkStep(largestFirst: bool, s: seq<Utxo>, j: nat)
    requires 0 < j < |s| && SortedBut(largestFirst, s, j)
    requires Key(largestFirst, s[j - 1]) > Key(largestFirst, s[j])
    ensures SortedBut(largestFirst, s[j - 1 := s[j]][j := s[j - 1]], j - 1)
  {
    hide Key;
    var r := s[j - 1 := s[j]][j := s[j - 1]];
    forall i, k | 0 <= i < k < |r| && i != j - 1 && k != j - 1
      ensures Key(largestFirst, r[i]) <= Key(largestFirst, r[k])
    {
      if k == j {
        assert Key(largestFirst, s[i]) <= Key(largestFirst, s[j - 1]);
      } else if i == j {
        assert Key(largestFirst, s[j - 1]) <= Key(largestFirst, s[k]);
      }
    }
  }

  lemma SinkEnds(largestFirst: bool, s: seq<Utxo>, j: nat)
    requires j < |s| && SortedBut(largestFirst, s, j)
    requires j > 0 ==> Key(largestFirst, s[j - 1]) <= Key(largestFirst, s[j])
    ensures KeySorted(largestFirst, s)
  {
    hide Key;
    forall i, k | 0 <= i < k < |s| ensures Key(largestFirst, s[i]) <= Key(largestFirst, s[k]) {
      if k == j && i < j - 1 {
        assert Key(largestFirst, s[i]) <= Key(largestFirst, s[j - 1]);
      }
    }
  }

  /** rand.Shuffle; draws(i) stands for the random number in 0..i. */
  method Shuffle(a: array<Utxo>, draws: nat -> nat)
    requires forall i: nat :: draws(i) <= i
    modifies a
    ensures multiset(a[..]) == multiset(old(a[..]))
  {
    var i: int := a.Length - 1;
    while i > 0
      invariant multiset(a[..]) == multiset(old(a[..])) && i < a.Length
    {
      Swap(a, i, draws(i));
      i := i - 1;
    }
  }

  method SortByStrategy(utxos: array<Utxo>, strategy: Strategy, draws: nat -> nat)
    requires forall i: nat :: draws(i) <= i
    modifies utxos
    ensures Arranged(strategy, old(utxos[..]), utxos[..])
  {
    match strategy {
      case LargestFirst | Unspecified =>
        SortInPlace(utxos, true);
        forall i, j | 0 <= i < j < utxos.Length ensures utxos[i].value >= utxos[j].value {
          assert Key(true, utxos[..][i]) <= Key(true, utxos[..][j]);
        }
      case SmallestFirst =>
        SortInPlace(utxos, false);
        forall i, j | 0 <= i < j < utxos.Length ensures utxos[i].value <= utxos[j].value {
          assert Key(false, utxos[..][i]) <= Key(false, utxos[..][j]);
        }
      case Random => Shuffle(utxos, draws);
      case Unknown =>
    }
  }

  // ---------------------------------------------------------------- selecting

  /** k is the least number of leading elements of `order` that cover together with the required inputs. */
  predicate ShortestCover(q: Request, required: seq<Utxo>, order: seq<Utxo>, k: nat)
    requires k <= |order|
  {
    Covers(q, required + order[..k]) && forall j: nat :: j < k ==> !Covers(q, required + order[..j])
  }

  /** The result is the shortest covering prefix of `order` behind the required inputs, or a report that none covers. */
  ghost predicate SelectedFrom(q: Request, required: seq<Utxo>, order: seq<Utxo>, frozenAmount: int,
                               r: Result<Selection, InsufficientFunds>)
  {
    match r
    case Success(sel) =>
      && (exists k: nat :: k <= |order| && ShortestCover(q, required, order, k) && sel.utxos == required + order[..k])
      && sel.totalInput == Sum(sel.utxos) && sel.fee == q.Fee(|sel.utxos|)
      && sel.change == sel.totalInput - q.target - sel.fee
    case Failure(e) =>
      && (forall j: nat :: j <= |order| ==> !Covers(q, required + order[..j]))
      && e.needed == q.target + q.Fee(|required| + |order|)
      && e.available == Sum(required + order) && e.frozenAmount == frozenAmount
  }

  /** The result comes from some arrangement of the available coins that the strategy allows. */
  ghost predicate SelectedBy(q: Request, strategy: Strategy, required: seq<Utxo>, pool: seq<Utxo>, frozenAmount: int,
                             r: Result<Selection, InsufficientFunds>)
  {
    exists order :: (Covers(q, required) || Arranged(strategy, pool, order))
      && SelectedFrom(q, required, order, frozenAmount, r)
  }

  method SelectCoins(all: seq<Utxo>, frozen: set<string>, q: Request, strategy: Strategy, required: set<string>,
                     draws: nat -> nat)
    returns (r: Result<Selection, InsufficientFunds>)
    requires forall i: nat :: draws(i) <= i
    ensures SelectedBy(q, strategy, Required(all, required), Available(all, frozen, required),
                       Sum(Frozen(all, frozen)), r)
    ensures r.Success? ==> r.value.totalInput == q.target + r.value.fee + r.value.change && r.value.change >= 0
  {
    hide Arranged, Required, Available, Frozen, Sum, SelectedFrom;
    var selected, pool := Partition(all, frozen, required);
    var available := new Utxo[|pool|](i requires 0 <= i < |pool| => pool[i]);
    assert available[..] == pool;
    var selectedAmount := Total(selected);
    var fee := q.Fee(|selected|);
    if selectedAmount >= q.target + fee {
      r := Success(Selection(selected, selectedAmount, fee, selectedAmount - q.target - fee));
      RequiredSuffice(q, selected, pool, Sum(Frozen(all, frozen)), r);
      return r;
    }
    SortByStrategy(available, strategy, draws);
    var totalFrozen := TotalFrozen(all, frozen);
    r := AddUntilCovered(q, selected, selectedAmount, available, totalFrozen);
  }

  lemma RequiredSuffice(q: Request, required: seq<Utxo>, order: seq<Utxo>, frozenAmount: int,
                        r: Result<Selection, InsufficientFunds>)
    requires Covers(q, required)
    requires var total, fee := Sum(required), q.Fee(|required|);
             r == Success(Selection(required, total, fee, total - q.target - fee))
    ensures SelectedFrom(q, required, order, frozenAmount, r)
  {
    hide Sum;
    assert required + order[..0] == required;
    assert ShortestCover(q, required, order, 0);
  }

  /** The loop over the arranged pool, and the report when it runs dry. */
  method AddUntilCovered(q: Request, required: seq<Utxo>, amount: nat, available: array<Utxo>, totalFrozen: nat)
    returns (r: Result<Selection, InsufficientFunds>)
    requires amount == Sum(required) && !Covers(q, required)
    ensures SelectedFrom(q, required, available[..], totalFrozen, r)
    ensures r.Success? ==> r.value.totalInput == q.target + r.value.fee + r.value.change && r.value.change >= 0
  {
    hide Sum;
    ghost var order := available[..];
    var selected, selectedAmount := required, amount;
    var fee := q.Fee(|selected|);
    var needed := q.target + fee;
    assert required == required + order[..0];
    for i := 0 to available.Length
      invariant selected == required + order[..i] && selectedAmount == Sum(selected)
      invariant fee == q.Fee(|selected|) && needed == q.target + fee
      invariant forall j: nat :: j <= i ==> !Covers(q, required + order[..j])
    {
      var utxo := available[i];
      SumSnoc(selected, utxo);
      assert required + order[..i + 1] == selected + [utxo];
      selected := selected + [utxo];
      selectedAmount := selectedAmount + utxo.value;
      fee := q.Fee(|selected|);
      needed := q.target + fee;
      if selectedAmount >= needed {
        return Success(Selection(selected, selectedAmount, fee, selectedAmount - q.target - fee));
      }
    }
    assert order[..|order|] == order;
    return Failure(InsufficientFunds(needed, selectedAmount, totalFrozen));
  }

  lemma SumSnoc(s: seq<Utxo>, u: Utxo)
    ensures Sum(s + [u]) == Sum(s) + u.value
  {
    assert (s + [u])[..|s|] == s;
  }

  method Partition(all: seq<Utxo>, frozen: set<string>, required: set<string>) returns (req: seq<Utxo>, pool: seq<Utxo>)
    ensures req == Required(all, required) && pool == Available(all, frozen, required)
  {
    req, pool := [], [];
    for i := 0 to |all|
      invariant req == Required(all[..i], required) && pool == Available(all[..i], frozen, required)
    {
      assert all[..i + 1][..i] == all[..i];
      if all[i].outpoint in required {
        req := req + [all[i]];
      } else if all[i].outpoint !in frozen {
        pool := pool + [all[i]];
      }
    }
    assert all[..|all|] == all;
  }

  method Total(s: seq<Utxo>) returns (total: nat)
    ensures total == Sum(s)
  {
    total := 0;
    for i := 0 to |s|
      invariant total == Sum(s[..i])
    {
      assert s[..i + 1][..i] == s[..i];
      total := total + s[i].value;
    }
    assert s[..|s|] == s;
  }

  method TotalFrozen(all: seq<Utxo>, frozen: set<string>) returns (total: nat)
    ensures total == Sum(Frozen(all, frozen))
  {
    total := 0;
    for i := 0 to |all|
      invariant total == Sum(Frozen(all[..i], frozen))
    {
      ghost var before := Frozen(all[..i], frozen);
      assert all[..i + 1][..i] == all[..i];
      if all[i].outpoint in frozen {
        assert Frozen(all[..i + 1], frozen) == before + [all[i]];
        SumSnoc(before, all[i]);
        total := total + all[i].value;
      } else {
        assert Frozen(all[..i + 1], frozen) == before;
      }
    }
    assert all[..|all|] == all;
  }

  // ---------------------------------------------------------------- sums over arrangements

  lemma {:induction false} SumAppend(a: seq<Utxo>, b: seq<Utxo>)
    ensures Sum(a + b) == Sum(a) + Sum(b)
  {
    if b == [] {
      assert a + b == a;
    } else {
      var n := |b| - 1;
      SumAppend(a, b[..n]);
      assert b == b[..n] + [b[n]];
      assert a + b == (a + b[..n]) + [b[n]];
      SumSnoc(a + b[..n], b[n]);
    }
  }

  lemma RemoveAt(s: seq<Utxo>, i: nat)
    requires i < |s|
    ensures var rest := s[..i] + s[i + 1..];
            |rest| == |s| - 1 && Sum(s) == Sum(rest) + s[i].value && multiset(rest) == multiset(s) - multiset{s[i]}
  {
    assert s == s[..i] + ([s[i]] + s[i + 1..]);
    SumAppend(s[..i], [s[i]] + s[i + 1..]);
    SumAppend([s[i]], s[i + 1..]);
    SumAppend(s[..i], s[i + 1..]);
    assert [s[i]][..0] == [];
  }

  lemma {:induction false} SumPermutation(a: seq<Utxo>, b: seq<Utxo>)
    requires multiset(a) == multiset(b)
    ensures |a| == |b| && Sum(a) == Sum(b)
  {
    hide Sum;
    assert |multiset(a)| == |a| && |multiset(b)| == |b|;
    if a != [] {
      var n := |a| - 1;
      assert a[n] in multiset(b);
      var i :| 0 <= i < |b| && b[i] == a[n];
      RemoveAt(b, i);
      assert a == a[..n] + [a[n]];
      SumSnoc(a[..n], a[n]);
      SumPermutation(a[..n], b[..i] + b[i + 1..]);
    }
  }

  // ---------------------------------------------------------------- largest first is optimal

  /** A coin of the choice whose removal leaves a choice from the pool without its first coin. */
  lemma PickOne(order: seq<Utxo>, choice: seq<Utxo>) returns (i: nat)
    requires order != [] && choice != [] && multiset(choice) <= multiset(order)
    ensures i < |choice| && choice[i] in order
    ensures multiset(choice[..i] + choice[i + 1..]) <= multiset(order[1..])
  {
    if order[0] in choice {
      i :| 0 <= i < |choice| && choice[i] == order[0];
    } else {
      i := |choice| - 1;
    }
    assert choice[i] in multiset(choice) && choice[i] in multiset(order);
    assert order == [order[0]] + order[1..];
    assert multiset(order[1..]) == multiset(order) - multiset{order[0]};
    RemoveAt(choice, i);
  }

  lemma SumFirst(order: seq<Utxo>, k: nat)
    requires 0 < k <= |order|
    ensures Sum(order[..k]) == order[0].value + Sum(order[1..][..k - 1])
  {
    assert order[..k] == [order[0]] + order[1..][..k - 1];
    SumAppend([order[0]], order[1..][..k - 1]);
    assert [order[0]][..0] == [];
  }

  /** No choice of k coins from a pool is worth more than the k greatest. */
  lemma {:induction false} PrefixIsGreatest(order: seq<Utxo>, choice: seq<Utxo>)
    requires Descending(order) && multiset(choice) <= multiset(order)
    ensures |choice| <= |order| && Sum(choice) <= Sum(order[..|choice|])
    decreases |choice|
  {
    hide Sum;
    SmallerMultiset(choice, order);
    if choice != [] {
      var i := PickOne(order, choice);
      var rest := choice[..i] + choice[i + 1..];
      RemoveAt(choice, i);
      assert choice[i].value <= order[0].value;
      PrefixIsGreatest(order[1..], rest);
      SumFirst(order, |choice|);
    }
  }

  lemma SmallerMultiset(a: seq<Utxo>, b: seq<Utxo>)
    requires multiset(a) <= multiset(b)
    ensures |a| <= |b|
  {
    assert |multiset(b)| == |multiset(a)| + |multiset(b) - multiset(a)|;
  }

  /** Largest-first selection uses the fewest inputs of all covering selections that keep the required coins and add
      only unfrozen ones, and it fails only when there is no such selection. */
  lemma LargestFirstIsOptimal(q: Request, strategy: Strategy, required: seq<Utxo>, pool: seq<Utxo>, frozenAmount: int,
                              r: Result<Selection, InsufficientFunds>, extra: seq<Utxo>)
    requires strategy == LargestFirst || strategy == Unspecified
    requires SelectedBy(q, strategy, required, pool, frozenAmount, r)
    requires multiset(extra) <= multiset(pool) && Covers(q, required + extra)
    ensures r.Success? && |r.value.utxos| <= |required| + |extra|
    ensures Covers(q, r.value.utxos) && required <= r.value.utxos
  {
    hide Sum, Covers;
    var order :| (Covers(q, required) || Arranged(strategy, pool, order))
      && SelectedFrom(q, required, order, frozenAmount, r);
    if Covers(q, required) {
      assert required + order[..0] == required;
    } else {
      PrefixIsGreatest(order, extra);
      NoWorseCover(q, required, order, extra);
    }
  }

  lemma NoWorseCover(q: Request, required: seq<Utxo>, order: seq<Utxo>, extra: seq<Utxo>)
    requires |extra| <= |order| && Sum(extra) <= Sum(order[..|extra|]) && Covers(q, required + extra)
    ensures Covers(q, required + order[..|extra|])
  {
    hide Sum;
    SumAppend(required, extra);
    SumAppend(required, order[..|extra|]);
  }

  // ---------------------------------------------------------------- accounting

  function Both(all: seq<Utxo>, frozen: set<string>, required: set<string>): seq<Utxo> {
    Select(all, (u: Utxo) => u.outpoint in required && u.outpoint in frozen)
  }

  lemma {:induction false} PartsAddUp(all: seq<Utxo>, frozen: set<string>, required: set<string>)
    ensures Sum(Required(all, required)) + Sum(Available(all, frozen, required)) + Sum(Frozen(all, frozen))
         == Sum(all) + Sum(Both(all, frozen, required))
  {
    if all != [] {
      var front, u := all[..|all| - 1], all[|all| - 1];
      PartsAddUp(front, frozen, required);
      SumOne(u);
      SumAppend(Required(front, required), if u.outpoint in required then [u] else []);
      SumAppend(Available(front, frozen, required),
                if u.outpoint !in required && u.outpoint !in frozen then [u] else []);
      SumAppend(Frozen(front, frozen), if u.outpoint in frozen then [u] else []);
      SumAppend(Both(front, frozen, required), if u.outpoint in required && u.outpoint in frozen then [u] else []);
    }
  }

  lemma SumOne(u: Utxo)
    ensures Sum([u]) == u.value && Sum([]) == 0
  {
    assert [u][..0] == [];
  }

  lemma {:induction false} NothingInBoth(all: seq<Utxo>, frozen: set<string>, required: set<string>)
    requires frozen !! required
    ensures Both(all, frozen, required) == []
  {
    if all != [] {
      NothingInBoth(all[..|all| - 1], frozen, required);
    }
  }

  /** A failure report accounts for every coin: what was available plus what is frozen is the whole wallet, exactly
      when no value sits in coins that are both frozen and required (those are counted twice). */
  lemma FailureAccounts(q: Request, all: seq<Utxo>, frozen: set<string>, required: set<string>, strategy: Strategy,
                        e: InsufficientFunds)
    requires SelectedBy(q, strategy, Required(all, required), Available(all, frozen, required),
                        Sum(Frozen(all, frozen)), Failure(e))
    ensures e.available + e.frozenAmount == Sum(all) + Sum(Both(all, frozen, required))
    ensures frozen !! required ==> e.available + e.frozenAmount == Sum(all)
    ensures e.available < e.needed
  {
    hide Sum, Required, Available, Frozen, Both;
    var req, pool := Required(all, required), Available(all, frozen, required);
    var order :| (Covers(q, req) || Arranged(strategy, pool, order))
      && SelectedFrom(q, req, order, Sum(Frozen(all, frozen)), Failure(e));
    assert req + order[..0] == req && order[..|order|] == order;
    assert !Covers(q, req + order[..|order|]);
    SumAppend(req, order);
    SumPermutation(order, pool);
    PartsAddUp(all, frozen, required);
    if frozen !! required {
      NothingInBoth(all, frozen, required);
      SumOne(Utxo("", 0));
    }
  }
}
