/** Denial plans under interleaving: the engine's tick, step by step, with user requests between any two steps. */
module DenialRuns {
  import opened Wrappers
  import opened DenialPlans
  import opened DenialEngine

  /** A tick works through the plans it listed; `listed` is the database at that moment, `sent` the transaction of the
      plan at the head of the queue once it has been sent. */
  datatype Phase = Idle | Ticking(listed: Db, queue: seq<Denial>, utxos: seq<Utxo>, clock: Option<int>,
      sent: Option<string>)

  datatype State = State(db: Db, now: int, phase: Phase)

  datatype Action =
    | Create(id: nat, plan: Plan)
    | Update(id: nat, delay: int, hops: int, initial: Outpoint)
    | Pause(id: nat)
    | Resume(id: nat)
    | Cancel(id: nat)
    | Pass(time: nat)
    | Begin(queue: seq<Denial>, utxos: seq<Utxo>)
    | ReadClock
    | Drop
    | TooSmall(u: Utxo)
    | Send(u: Utxo, txid: string, percentage: nat)
    | Record(vout: int)
    | Finish
    | End

  const INIT := State(Db(map[], []), 0, Idle)

  /** The engine is about to deal with the plan at the head of its queue. */
  predicate AtHead(s: State) {
    s.phase.Ticking? && s.phase.queue != [] && s.phase.clock.Some? && s.phase.sent.None?
  }

  predicate HeadDue(s: State, u: Utxo) {
    AtHead(s) && Due(s.phase.queue[0], s.phase.clock.value) && Matching(s.phase.utxos, s.phase.queue[0].tip) == [u]
  }

  /** No recorded hop paid to this transaction yet. */
  predicate FreshTxid(db: Db, txid: string) {
    forall i :: 0 <= i < |db.executions| ==> db.executions[i].to.txid != txid
  }

  ghost predicate Enabled(s: State, a: Action) {
    match a
    case Create(id, p) => id !in s.db.plans && p.numHops > 0 && p.createdAt == s.now && !p.cancelled && !p.paused
    case Update(_, _, hops, _) => hops > 0
    case Pause(_) => true
    case Resume(_) => true
    case Cancel(_) => true
    case Pass(_) => true
    case Begin(queue, utxos) => s.phase.Idle? && IsListing(s.db, true, queue) && ListedOnce(utxos)
    case ReadClock => s.phase.Ticking? && s.phase.clock.None?
    case Drop => AtHead(s)
    case TooSmall(u) => HeadDue(s, u) && u.value < FEE
    case Send(u, txid, percentage) => HeadDue(s, u) && u.value >= FEE && 10 <= percentage < 90 && FreshTxid(s.db, txid)
    case Record(_) => s.phase.Ticking? && s.phase.queue != [] && s.phase.sent.Some?
    case Finish => s.phase.Ticking? && s.phase.queue != [] && s.phase.sent.Some?
    case End => s.phase.Ticking? && s.phase.queue == []
  }

  function Apply(s: State, a: Action): State
    requires Enabled(s, a)
  {
    match a
    case Create(id, p) => s.(db := Created(s.db, id, p))
    case Update(id, delay, hops, initial) => s.(db := Updated(s.db, id, delay, hops, initial))
    case Pause(id) => s.(db := Paused(s.db, id))
    case Resume(id) => s.(db := Resumed(s.db, id))
    case Cancel(id) => s.(db := Cancelled(s.db, id))
    case Pass(time) => s.(now := s.now + time)
    case Begin(queue, utxos) => s.(phase := Ticking(s.db, queue, utxos, None, None))
    case ReadClock => s.(phase := s.phase.(clock := Some(s.now)))
    case Drop => s.(phase := s.phase.(queue := s.phase.queue[1..]))
    case TooSmall(u) => s.(db := Cancelled(s.db, s.phase.queue[0].id), phase := s.phase.(queue := s.phase.queue[1..]))
    case Send(_, txid, _) => s.(phase := s.phase.(sent := Some(txid)))
    case Record(vout) =>
      var d := s.phase.queue[0];
      s.(db := Recorded(s.db, Execution(d.id, d.tip, Outpoint(s.phase.sent.value, vout), s.now)))
    case Finish => s.(phase := s.phase.(queue := s.phase.queue[1..], sent := None))
    case End => s.(phase := Idle)
  }

  ghost predicate Leads(s: State, a: Action, s': State) { Enabled(s, a) && s' == Apply(s, a) }

  ghost predicate IsRun(states: seq<State>, actions: seq<Action>) {
    && |states| == |actions| + 1 && states[0] == INIT
    && forall i :: 0 <= i < |actions| ==> Leads(states[i], actions[i], states[i + 1])
  }

  // ---------------------------------------------------------------- what every step keeps

  /** Each hop starts from the output the previous one ended at; records of one hop share their start. */
  predicate Chained(es: seq<Execution>) {
    forall i :: 0 < i < |es| ==>
      es[i].from == if es[i].to.txid == es[i - 1].to.txid then es[i - 1].from else es[i - 1].to
  }

  predicate PlanOk(db: Db, id: nat)
    requires id in db.plans
  {
    var es := ExecutionsOf(db.executions, id);
    |Hops(es)| <= db.plans[id].numHops && Chained(es)
  }

  predicate QueuedOk(db: Db, listed: Db, d: Denial) {
    && d.id in listed.plans && d == View(listed, d.id) && !d.plan.cancelled
    && d.id in db.plans && d.plan.numHops <= db.plans[d.id].numHops
  }

  /** The records since the listing are those of the transaction just sent. */
  predicate InFlight(db: Db, d: Denial, txid: string) {
    var es := ExecutionsOf(db.executions, d.id);
    && |d.executions| <= |es| && es[..|d.executions|] == d.executions && txid !in Hops(d.executions)
    && |Hops(d.executions)| < d.plan.numHops
    && forall i :: |d.executions| <= i < |es| ==> es[i].from == d.tip && es[i].to.txid == txid
  }

  predicate TickOk(db: Db, p: Phase) {
    p.Ticking? ==>
      && (forall i :: 0 <= i < |p.queue| ==> QueuedOk(db, p.listed, p.queue[i]))
      && (forall i, j :: 0 <= i < j < |p.queue| ==> p.queue[i].id != p.queue[j].id)
      && (forall i :: 0 <= i < |p.queue| && (i > 0 || p.sent.None?) ==>
            ExecutionsOf(db.executions, p.queue[i].id) == p.queue[i].executions)
      && (p.sent.Some? ==> p.queue != [] && InFlight(db, p.queue[0], p.sent.value))
  }

  predicate Owned(db: Db) { forall i :: 0 <= i < |db.executions| ==> db.executions[i].plan in db.plans }

  ghost predicate Inv(s: State) {
    && Owned(s.db)
    && (forall id :: id in s.db.plans ==> PlanOk(s.db, id))
    && TickOk(s.db, s.phase)
    && (s.phase.Ticking? && s.phase.clock.Some? ==> s.phase.clock.value <= s.now)
  }

  lemma {:induction false} NoneOwned(es: seq<Execution>, id: nat)
    requires forall i :: 0 <= i < |es| ==> es[i].plan != id
    ensures ExecutionsOf(es, id) == []
  {
    if es != [] {
      NoneOwned(es[..|es| - 1], id);
    }
  }

  lemma {:induction false} HopsOf(es: seq<Execution>, txid: string)
    ensures txid in Hops(es) <==> exists i :: 0 <= i < |es| && es[i].to.txid == txid
  {
    if es != [] {
      var n := |es| - 1;
      HopsOf(es[..n], txid);
      if i :| 0 <= i < |es| && es[i].to.txid == txid {
        assert i < n ==> es[..n][i].to.txid == txid;
      }
      if i :| 0 <= i < n && es[..n][i].to.txid == txid {
        assert es[i].to.txid == txid;
      }
    }
  }

  lemma {:induction false} ExecutionsFrom(es: seq<Execution>, id: nat, i: nat) returns (j: nat)
    requires i < |ExecutionsOf(es, id)|
    ensures j < |es| && es[j] == ExecutionsOf(es, id)[i] && es[j].plan == id
  {
    var n := |es| - 1;
    if i < |ExecutionsOf(es[..n], id)| {
      j := ExecutionsFrom(es[..n], id, i);
    } else {
      j := n;
    }
  }

  lemma RecordedOf(db: Db, e: Execution, id: nat)
    ensures ExecutionsOf(Recorded(db, e).executions, id)
         == ExecutionsOf(db.executions, id) + if e.plan == id then [e] else []
  {
    assert (db.executions + [e])[..|db.executions|] == db.executions;
  }

  /** Every plan statement keeps the records, keeps all plans and never lowers a plan's number of hops. */
  predicate PlansGrow(db: Db, db': Db) {
    && db'.executions == db.executions
    && forall id :: id in db.plans ==> id in db'.plans && db.plans[id].numHops <= db'.plans[id].numHops
  }

  lemma PlansGrowKeeps(db: Db, db': Db, p: Phase)
    requires PlansGrow(db, db') && TickOk(db, p) && Owned(db)
    ensures TickOk(db', p) && Owned(db')
    ensures forall id :: id in db.plans && PlanOk(db, id) ==> PlanOk(db', id)
  {
    hide ExecutionsOf, Hops, View, Chained;
  }

  /** Recording one more output of the transaction in flight. */
  lemma RecordKeeps(s: State, vout: int)
    requires Inv(s) && Enabled(s, Record(vout))
    ensures Inv(Apply(s, Record(vout)))
  {
    hide ExecutionsOf, Hops, View, Chained;
    var d, txid := s.phase.queue[0], s.phase.sent.value;
    var e := Execution(d.id, d.tip, Outpoint(txid, vout), s.now);
    var db' := Recorded(s.db, e);
    var es := ExecutionsOf(s.db.executions, d.id);
    forall id
      ensures ExecutionsOf(db'.executions, id) == ExecutionsOf(s.db.executions, id) + if id == d.id then [e] else []
    {
      RecordedOf(s.db, e, id);
    }
    assert InFlight(s.db, d, txid) && QueuedOk(s.db, s.phase.listed, d);
    assert es + [e] == ExecutionsOf(db'.executions, d.id);
    assert (es + [e])[..|d.executions|] == es[..|d.executions|];
    assert InFlight(db', d, txid);
    InFlightHops(es + [e], |d.executions|, txid);
    InFlightChained(s, es, e);
    assert (es + [e])[..|d.executions|] == d.executions;
    forall id | id in db'.plans ensures PlanOk(db', id) {
      assert PlanOk(s.db, id);
      if id != d.id {
        assert ExecutionsOf(db'.executions, id) == ExecutionsOf(s.db.executions, id);
      }
    }
  }

  lemma {:induction false} InFlightHops(es: seq<Execution>, k: nat, txid: string)
    requires k <= |es| && forall i :: k <= i < |es| ==> es[i].to.txid == txid
    ensures |Hops(es)| <= |Hops(es[..k])| + 1
    ensures Hops(es) <= Hops(es[..k]) + {txid}
    decreases |es|
  {
    if k < |es| {
      var n := |es| - 1;
      InFlightHops(es[..n], k, txid);
      assert es[..n][..k] == es[..k];
    } else {
      assert es[..k] == es;
    }
    Smaller(Hops(es), Hops(es[..k]) + {txid});
  }

  lemma {:induction false} Smaller<T>(a: set<T>, b: set<T>)
    requires a <= b
    ensures |a| <= |b|
    decreases |a|
  {
    if a != {} {
      var x :| x in a;
      Smaller(a - {x}, b - {x});
    }
  }

  lemma InFlightChained(s: State, es: seq<Execution>, e: Execution)
    requires Inv(s) && s.phase.Ticking? && s.phase.queue != [] && s.phase.sent.Some?
    requires es == ExecutionsOf(s.db.executions, s.phase.queue[0].id)
    requires e.from == s.phase.queue[0].tip && e.to.txid == s.phase.sent.value
    ensures Chained(es + [e])
  {
    hide ExecutionsOf, Hops;
    var d, txid := s.phase.queue[0], s.phase.sent.value;
    assert InFlight(s.db, d, txid) && QueuedOk(s.db, s.phase.listed, d) && PlanOk(s.db, d.id);
    if es != [] {
      var last := es[|es| - 1];
      if |es| == |d.executions| {
        assert es == d.executions;
        assert d.tip == last.to;
        HopsOf(d.executions, txid);
        assert last.to.txid != txid;
      } else {
        assert last.from == d.tip && last.to.txid == txid;
      }
    }
  }

  lemma TickStepKeeps(s: State, a: Action)
    requires Inv(s) && Enabled(s, a)
      && (a.Begin? || a.ReadClock? || a.Drop? || a.Send? || a.Finish? || a.End? || a.Pass?)
    ensures Inv(Apply(s, a))
  {
    hide ExecutionsOf, Hops, Chained, Matching, PlanOk;
    if a.Begin? {
      BeginKeeps(s, a);
    } else if a.Send? {
      SendKeeps(s, a);
    }
  }

  lemma BeginKeeps(s: State, a: Action)
    requires Inv(s) && Enabled(s, a) && a.Begin?
    ensures TickOk(s.db, Apply(s, a).phase)
  {
    hide ExecutionsOf, Hops, Chained, PlanOk;
  }

  lemma SendKeeps(s: State, a: Action)
    requires Inv(s) && Enabled(s, a) && a.Send?
    ensures TickOk(s.db, Apply(s, a).phase)
  {
    hide Chained, PlanOk, Matching, ExecutionsOf, Hops;
    var d := s.phase.queue[0];
    assert QueuedOk(s.db, s.phase.listed, d) && ExecutionsOf(s.db.executions, d.id) == d.executions;
    DueIff(d.plan, d.executions, s.phase.clock.value);
    HopsOf(d.executions, a.txid);
    if i :| 0 <= i < |d.executions| && d.executions[i].to.txid == a.txid {
      var j := ExecutionsFrom(s.db.executions, d.id, i);
      assert false;
    }
    assert d.executions[..|d.executions|] == d.executions;
    assert InFlight(s.db, d, a.txid);
  }

  lemma CreateKeeps(s: State, a: Action)
    requires Inv(s) && Enabled(s, a) && a.Create?
    ensures Inv(Apply(s, a))
  {
    NoneOwned(s.db.executions, a.id);
    PlansGrowKeeps(s.db, Apply(s, a).db, s.phase);
  }

  lemma StepKeepsInv(s: State, a: Action)
    requires Inv(s) && Enabled(s, a)
    ensures Inv(Apply(s, a))
  {
    hide TickOk, PlanOk, Owned, ExecutionsOf, Hops, Matching;
    match a {
      case Create(_, _) => CreateKeeps(s, a);
      case Update(_, _, _, _) => PlansGrowKeeps(s.db, Apply(s, a).db, s.phase);
      case Pause(_) => PlansGrowKeeps(s.db, Apply(s, a).db, s.phase);
      case Resume(_) => PlansGrowKeeps(s.db, Apply(s, a).db, s.phase);
      case Cancel(_) => PlansGrowKeeps(s.db, Apply(s, a).db, s.phase);
      case TooSmall(_) =>
        TickStepKeeps(s, Drop);
        PlansGrowKeeps(s.db, Apply(s, a).db, Apply(s, a).phase);
      case Record(vout) => RecordKeeps(s, vout);
      case _ => TickStepKeeps(s, a);
    }
  }

  lemma {:induction false} RunInv(states: seq<State>, actions: seq<Action>, n: nat)
    requires IsRun(states, actions) && n < |states|
    ensures Inv(states[n])
  {
    assert Inv(INIT);
    hide Enabled, Apply, Inv;
    if n > 0 {
      RunInv(states, actions, n - 1);
      assert Leads(states[n - 1], actions[n - 1], states[n]);
      StepKeepsInv(states[n - 1], actions[n - 1]);
    }
  }

  // ---------------------------------------------------------------- what runs guarantee

  /** In every reachable state no plan has more distinct recorded hop transactions than it has hops, and its records
      chain: each hop starts from the output where the one before ended. */
  lemma HopsNeverExceed(states: seq<State>, actions: seq<Action>, n: nat, id: nat)
    requires IsRun(states, actions) && n < |states| && id in states[n].db.plans
    ensures var es := ExecutionsOf(states[n].db.executions, id);
            |Hops(es)| <= states[n].db.plans[id].numHops && Chained(es)
  {
    hide ExecutionsOf, Hops, Chained;
    RunInv(states, actions, n);
    assert PlanOk(states[n].db, id);
  }

  /** The database a tick works from was the database when the tick began, at the latest Begin. */
  lemma {:induction false} ListedAtBegin(states: seq<State>, actions: seq<Action>, n: nat) returns (m: nat)
    requires IsRun(states, actions) && n < |states| && states[n].phase.Ticking?
    ensures m < n && actions[m].Begin? && states[m].db == states[n].phase.listed
    ensures forall k :: m < k < n ==> !actions[k].Begin?
  {
    hide Matching, ListedOnce, IsListing;
    assert n > 0;
    var before, a := states[n - 1], actions[n - 1];
    assert Leads(before, a, states[n]);
    if a.Begin? {
      m := n - 1;
    } else {
      m := ListedAtBegin(states, actions, n - 1);
    }
  }

  /** Whenever a hop is sent, at step n of a run whose latest tick began at step m: the plan was neither paused nor
      cancelled when that tick listed it; at least the delay it then had has passed since its creation and since each
      of its recorded hops; the output spent is the plan's tip, which nothing has moved since unless the plan has no
      hops yet; and the amount leaves room for the fee. */
  lemma SendIsSafe(states: seq<State>, actions: seq<Action>, n: nat) returns (m: nat)
    requires IsRun(states, actions) && n < |actions| && actions[n].Send?
    ensures m < n && actions[m].Begin? && forall k :: m < k < n ==> !actions[k].Begin?
    ensures var s, a := states[n], actions[n];
            && AtHead(s) && a.u.value >= 10000
            && var d := s.phase.queue[0];
               var es := ExecutionsOf(s.db.executions, d.id);
               && d.id in states[m].db.plans && states[m].db.plans[d.id] == d.plan
               && !d.plan.cancelled && !d.plan.paused
               && d.id in s.db.plans && |Hops(es)| < s.db.plans[d.id].numHops
               && (es == [] ==> s.now >= d.plan.createdAt + d.plan.delay)
               && (forall i :: 0 <= i < |es| ==> s.now >= es[i].at + d.plan.delay)
               && a.u.outpoint == d.tip == Tip(d.plan, es)
               && ChooseStrategy(d, a.u, a.percentage) + 10000 <= a.u.value
  {
    hide ExecutionsOf, Hops, Chained, IsListing;
    RunInv(states, actions, n);
    assert Leads(states[n], actions[n], states[n + 1]);
    m := ListedAtBegin(states, actions, n);
    var s, a := states[n], actions[n];
    var d := s.phase.queue[0];
    assert QueuedOk(s.db, s.phase.listed, d) && ExecutionsOf(s.db.executions, d.id) == d.executions;
    DueIff(d.plan, d.executions, s.phase.clock.value);
    AmountWithinValue(d, a.u, a.percentage);
    MatchingIs(s.phase.utxos, d.tip);
    assert Matching(s.phase.utxos, d.tip)[0] == a.u;
  }

  lemma {:induction false} MatchingIs(utxos: seq<Utxo>, tip: Outpoint)
    ensures forall i :: 0 <= i < |Matching(utxos, tip)| ==> Matching(utxos, tip)[i].outpoint == tip
  {
    if utxos != [] {
      MatchingIs(utxos[..|utxos| - 1], tip);
    }
  }
}
