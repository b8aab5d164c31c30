/** Transactions a plan sends in a run, recorded or not. */
module DenialSends {
  import opened Wrappers
  import opened DenialPlans
  import opened DenialEngine
  import opened DenialRuns

  /** The engine sends for this plan in this step. */
  predicate SendsFor(s: State, a: Action, id: nat) { a.Send? && AtHead(s) && s.phase.queue[0].id == id }

  /** The plan at the head of the queue has been sent for, and none of the transaction's outputs is recorded. */
  predicate Unrecorded(s: State, id: nat) {
    && s.phase.Ticking? && s.phase.queue != [] && s.phase.sent.Some? && s.phase.queue[0].id == id
    && s.phase.sent.value !in Hops(ExecutionsOf(s.db.executions, id))
  }

  /** The engine gives up on this plan's transaction without having recorded it. */
  predicate Loses(s: State, a: Action, id: nat) { a.Finish? && Unrecorded(s, id) }

  function Sends(states: seq<State>, actions: seq<Action>, n: nat, id: nat): nat
    requires n <= |actions| <= |states|
  {
    if n == 0 then 0
    else Sends(states, actions, n - 1, id) + if SendsFor(states[n - 1], actions[n - 1], id) then 1 else 0
  }

  function Losses(states: seq<State>, actions: seq<Action>, n: nat, id: nat): nat
    requires n <= |actions| <= |states|
  {
    if n == 0 then 0
    else Losses(states, actions, n - 1, id) + if Loses(states[n - 1], actions[n - 1], id) then 1 else 0
  }

  function HopCount(s: State, id: nat): nat { |Hops(ExecutionsOf(s.db.executions, id))| }

  function Open(s: State, id: nat): nat { if Unrecorded(s, id) then 1 else 0 }

  /** What one step does to a plan's hops and its transaction under way. */
  lemma StepAccounts(s: State, a: Action, id: nat)
    requires Inv(s) && Enabled(s, a)
    ensures HopCount(Apply(s, a), id) + Open(Apply(s, a), id) + (if Loses(s, a, id) then 1 else 0)
         == HopCount(s, id) + Open(s, id) + if SendsFor(s, a, id) then 1 else 0
  {
    hide ExecutionsOf, Hops, Inv, Matching, IsListing, ListedOnce, Due;
    match a {
      case Send(_, _, _) => SendAccounts(s, a, id);
      case Record(vout) => RecordAccounts(s, vout, id);
      case _ => SameExecutions(s, a);
    }
  }

  lemma SameExecutions(s: State, a: Action)
    requires Enabled(s, a) && !a.Record?
    ensures Apply(s, a).db.executions == s.db.executions
  {
    hide Matching, IsListing, ListedOnce, Due, FreshTxid;
  }

  lemma SendAccounts(s: State, a: Action, id: nat)
    requires Enabled(s, a) && a.Send?
    ensures HopCount(Apply(s, a), id) == HopCount(s, id) && Open(s, id) == 0
    ensures Open(Apply(s, a), id) == if SendsFor(s, a, id) then 1 else 0
  {
    hide ExecutionsOf, Hops, Matching, Due;
    var es := ExecutionsOf(s.db.executions, id);
    HopsOf(es, a.txid);
    forall i | 0 <= i < |es| ensures es[i].to.txid != a.txid {
      var j := ExecutionsFrom(s.db.executions, id, i);
    }
  }

  lemma RecordAccounts(s: State, vout: int, id: nat)
    requires Enabled(s, Record(vout))
    ensures HopCount(Apply(s, Record(vout)), id) + Open(Apply(s, Record(vout)), id) == HopCount(s, id) + Open(s, id)
  {
    hide ExecutionsOf, Hops;
    var d := s.phase.queue[0];
    var e := Execution(d.id, d.tip, Outpoint(s.phase.sent.value, vout), s.now);
    RecordedOf(s.db, e, id);
    var es := ExecutionsOf(s.db.executions, id);
    if id == d.id {
      assert (es + [e])[..|es|] == es;
      HopsSnoc(es, e);
      assert Hops(es + [e]) == Hops(es) + {s.phase.sent.value};
      if s.phase.sent.value in Hops(es) {
        assert Hops(es + [e]) == Hops(es);
      }
    } else {
      assert es + [] == es;
    }
  }

  /** In every run, the transactions sent for a plan are its recorded hops, those given up unrecorded, and the one
      under way. */
  lemma {:induction false} SendsAccounted(states: seq<State>, actions: seq<Action>, n: nat, id: nat)
    requires IsRun(states, actions) && n <= |actions|
    ensures Sends(states, actions, n, id)
      == HopCount(states[n], id) + Losses(states, actions, n, id) + Open(states[n], id)
  {
    hide Enabled, Apply, HopCount, Open, SendsFor, Loses;
    if n == 0 {
      NothingSent(id);
    } else {
      SendsAccounted(states, actions, n - 1, id);
      RunInv(states, actions, n - 1);
      assert Leads(states[n - 1], actions[n - 1], states[n]);
      StepAccounts(states[n - 1], actions[n - 1], id);
    }
  }

  lemma NothingSent(id: nat)
    ensures HopCount(INIT, id) == 0 && Open(INIT, id) == 0
  {
  }

  lemma RoomForOpen(s: State, id: nat)
    requires Inv(s) && id in s.db.plans
    ensures HopCount(s, id) + Open(s, id) <= s.db.plans[id].numHops
  {
    hide ExecutionsOf, Hops, Chained, View;
    assert PlanOk(s.db, id);
    if Unrecorded(s, id) {
      var d, txid := s.phase.queue[0], s.phase.sent.value;
      var es := ExecutionsOf(s.db.executions, id);
      assert QueuedOk(s.db, s.phase.listed, d) && InFlight(s.db, d, txid);
      if |d.executions| < |es| {
        var last := es[|d.executions|];
        HopsOf(es, last.to.txid);
        assert false;
      }
      assert es[..|d.executions|] == es;
    }
  }

  /** A plan never sends more transactions than it has hops and transactions given up unrecorded. */
  lemma SendsBounded(states: seq<State>, actions: seq<Action>, n: nat, id: nat)
    requires IsRun(states, actions) && n <= |actions| && id in states[n].db.plans
    ensures Sends(states, actions, n, id) <= states[n].db.plans[id].numHops + Losses(states, actions, n, id)
  {
    hide HopCount, Open, SendsFor, Loses;
    SendsAccounted(states, actions, n, id);
    RunInv(states, actions, n);
    RoomForOpen(states[n], id);
  }

  // ---------------------------------------------------------------- when every transaction is recorded

  /** Step k finishes a transaction of which an output has been recorded. */
  predicate RecordedBefore(actions: seq<Action>, k: nat)
    requires k <= |actions|
  {
    exists j :: 0 <= j < k && actions[j].Record? && forall i :: j < i < k ==> !actions[i].Finish?
  }

  predicate HeadRecorded(s: State) {
    && s.phase.Ticking? && s.phase.queue != [] && s.phase.sent.Some?
    && s.phase.sent.value in Hops(ExecutionsOf(s.db.executions, s.phase.queue[0].id))
  }

  lemma StaysRecorded(s: State, a: Action)
    requires Enabled(s, a) && HeadRecorded(s) && !a.Finish?
    ensures HeadRecorded(Apply(s, a))
  {
    hide ExecutionsOf, Hops, Matching, IsListing, ListedOnce, Due, FreshTxid;
    if a.Record? {
      BecomesRecorded(s, a.vout);
    } else {
      SameExecutions(s, a);
    }
  }

  lemma BecomesRecorded(s: State, vout: int)
    requires Enabled(s, Record(vout))
    ensures HeadRecorded(Apply(s, Record(vout)))
  {
    hide ExecutionsOf, Hops;
    var d := s.phase.queue[0];
    var e := Execution(d.id, d.tip, Outpoint(s.phase.sent.value, vout), s.now);
    RecordedOf(s.db, e, d.id);
    HopsSnoc(ExecutionsOf(s.db.executions, d.id), e);
  }

  lemma {:induction false} RecordedUntil(states: seq<State>, actions: seq<Action>, j: nat, k: nat)
    requires IsRun(states, actions) && j < k <= |actions| && actions[j].Record?
    requires forall i :: j < i < k ==> !actions[i].Finish?
    ensures HeadRecorded(states[k])
    decreases k
  {
    hide Enabled, Apply, HeadRecorded;
    assert Leads(states[k - 1], actions[k - 1], states[k]);
    if j + 1 == k {
      BecomesRecorded(states[j], actions[j].vout);
    } else {
      RecordedUntil(states, actions, j, k - 1);
      StaysRecorded(states[k - 1], actions[k - 1]);
    }
  }

  lemma {:induction false} NoLosses(states: seq<State>, actions: seq<Action>, n: nat, id: nat)
    requires IsRun(states, actions) && n <= |actions|
    requires forall k :: 0 <= k < n && actions[k].Finish? ==> RecordedBefore(actions, k)
    ensures Losses(states, actions, n, id) == 0
  {
    hide IsRun, Hops, ExecutionsOf;
    if n > 0 {
      NoLosses(states, actions, n - 1, id);
      if actions[n - 1].Finish? {
        var j :| 0 <= j < n - 1 && actions[j].Record? && forall i :: j < i < n - 1 ==> !actions[i].Finish?;
        RecordedUntil(states, actions, j, n - 1);
      }
    }
  }

  /** When every transaction is recorded before the engine finishes with it, a plan never sends more transactions than
      it has hops. */
  lemma SendsWithinHops(states: seq<State>, actions: seq<Action>, n: nat, id: nat)
    requires IsRun(states, actions) && n <= |actions| && id in states[n].db.plans
    requires forall k :: 0 <= k < n && actions[k].Finish? ==> RecordedBefore(actions, k)
    ensures Sends(states, actions, n, id) <= states[n].db.plans[id].numHops
  {
    SendsBounded(states, actions, n, id);
    NoLosses(states, actions, n, id);
  }

  // ---------------------------------------------------------------- a transaction that never shows up

  lemma {:induction false} SendsGrow(states: seq<State>, actions: seq<Action>, m: nat, n: nat, id: nat)
    requires m <= n <= |actions| <= |states|
    ensures Sends(states, actions, m, id) <= Sends(states, actions, n, id)
    decreases n
  {
    if m < n {
      SendsGrow(states, actions, m, n - 1, id);
    }
  }

  /** A plan of one hop, due since time 1, on an output the wallet lists. */
  function OneHop(o: Outpoint): Plan { Plan(None, o, 1, 1, [], 0, false, false) }

  function OneDb(o: Outpoint): Db { Db(map[0 := OneHop(o)], []) }

  function OneDenial(o: Outpoint): Denial { Denial(0, OneHop(o), o, [], Some(1)) }

  function Coin(o: Outpoint): Utxo { Utxo(o, 2 * FEE) }

  function During(o: Outpoint, queue: seq<Denial>, clock: Option<int>, sent: Option<string>): State {
    State(OneDb(o), 1, Ticking(OneDb(o), queue, [Coin(o)], clock, sent))
  }

  lemma OneListing(o: Outpoint)
    ensures OneDenial(o) == View(OneDb(o), 0) && IsListing(OneDb(o), true, [OneDenial(o)])
    ensures Matching([Coin(o)], o) == [Coin(o)]
  {
    assert [OneDenial(o)][0].id == 0;
    assert Appears([OneDenial(o)], 0);
    assert [Coin(o)][..0] == [];
  }

  /** One tick of the plan, up to and including the transaction. */
  lemma TickSends(o: Outpoint, txid: string)
    ensures var d := OneDenial(o);
            && Leads(State(OneDb(o), 1, Idle), Begin([d], [Coin(o)]), During(o, [d], None, None))
            && Leads(During(o, [d], None, None), ReadClock, During(o, [d], Some(1), None))
            && Leads(During(o, [d], Some(1), None), Send(Coin(o), txid, 50), During(o, [d], Some(1), Some(txid)))
  {
    hide View, IsListing, Matching;
    OneListing(o);
  }

  /** Making the plan, and the rest of a tick whose transaction does not show up. */
  lemma BeforeAndAfter(o: Outpoint, txid: string)
    ensures Leads(INIT, Create(0, OneHop(o)), State(OneDb(o), 0, Idle))
    ensures Leads(State(OneDb(o), 0, Idle), Pass(1), State(OneDb(o), 1, Idle))
    ensures Leads(During(o, [OneDenial(o)], Some(1), Some(txid)), Finish, During(o, [], Some(1), None))
    ensures Leads(During(o, [], Some(1), None), End, State(OneDb(o), 1, Idle))
  {
    assert [OneDenial(o)][1..] == [];
  }

  /** A plan of one hop sends twice when its first transaction does not show up in the wallet in time and the wallet
      still lists the output it spent. */
  lemma SendsTwice(o: Outpoint) returns (states: seq<State>, actions: seq<Action>)
    ensures IsRun(states, actions) && |actions| == 10
    ensures states[10].db.plans.Keys == {0} && states[10].db.plans[0].numHops == 1
    ensures Sends(states, actions, 10, 0) >= 2
  {
    hide Leads;
    var d, idle := OneDenial(o), State(OneDb(o), 1, Idle);
    var begin, listed, ready := Begin([d], [Coin(o)]), During(o, [d], None, None), During(o, [d], Some(1), None);
    actions := [Create(0, OneHop(o)), Pass(1), begin, ReadClock, Send(Coin(o), "a", 50), Finish, End,
                begin, ReadClock, Send(Coin(o), "b", 50)];
    states := [INIT, State(OneDb(o), 0, Idle), idle, listed, ready, During(o, [d], Some(1), Some("a")),
               During(o, [], Some(1), None), idle, listed, ready, During(o, [d], Some(1), Some("b"))];
    BeforeAndAfter(o, "a");
    TickSends(o, "a");
    TickSends(o, "b");
    SendsGrow(states, actions, 5, 9, 0);
    assert SendsFor(states[4], actions[4], 0) && SendsFor(states[9], actions[9], 0);
    assert Sends(states, actions, 5, 0) == Sends(states, actions, 4, 0) + 1;
  }
}
