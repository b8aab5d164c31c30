/** What a tick does to each plan it lists, in full, and what pausing and cancelling a plan hold back. */
module DenialEffects {
  import opened Wrappers
  import opened DenialPlans
  import opened DenialEngine
  import opened DenialRuns
  import opened DenialSends

  /** One record for each output, in order. */
  function Records(id: nat, from: Outpoint, txid: string, vouts: seq<int>, at: int): seq<Execution> {
    seq(|vouts|, i requires 0 <= i < |vouts| => Execution(id, from, Outpoint(txid, vouts[i]), at))
  }

  lemma {:induction false} RecordAllIs(db: Db, id: nat, from: Outpoint, txid: string, vouts: seq<int>, at: int,
                                       other: nat)
    ensures var after := RecordAll(db, id, from, txid, vouts, at);
            && after.plans == db.plans
            && ExecutionsOf(after.executions, other)
               == ExecutionsOf(db.executions, other) + if other == id then Records(id, from, txid, vouts, at) else []
  {
    hide ExecutionsOf;
    if vouts != [] {
      var n := |vouts| - 1;
      var before := RecordAll(db, id, from, txid, vouts[..n], at);
      var e := Execution(id, from, Outpoint(txid, vouts[n]), at);
      RecordAllIs(db, id, from, txid, vouts[..n], at, other);
      RecordedOf(before, e, other);
      assert Records(id, from, txid, vouts, at) == Records(id, from, txid, vouts[..n], at) + [e];
    }
  }

  /** Live, with fewer recorded transactions than hops, and the delay over since creation and since every record. */
  predicate IsDue(p: Plan, es: seq<Execution>, now: int) {
    && !p.cancelled && !p.paused && |Hops(es)| < p.numHops
    && (es == [] ==> now >= p.createdAt + p.delay)
    && forall i :: 0 <= i < |es| ==> now >= es[i].at + p.delay
  }

  /** The place of an output in a listing. */
  predicate At(utxos: seq<Utxo>, i: int, o: Outpoint) { 0 <= i < |utxos| && utxos[i].outpoint == o }

  /** The plan's row and records after an attempt for an output: too small a one cancels the plan, a transaction whose
      outputs showed up is recorded, and otherwise nothing changes. */
  ghost predicate Handled(p: Plan, es: seq<Execution>, id: nat, u: Utxo, attempt: Attempt,
                          p': Plan, es': seq<Execution>)
  {
    if u.value < 10000 then p' == p.(cancelled := true) && es' == es
    else
      p' == p && es' == es + match attempt
                              case Seen(txid, vouts, at) => Records(id, u.outpoint, txid, vouts, at)
                              case _ => []
  }

  lemma ProcessedIs(db: Db, u: Utxo, d: Denial, attempt: Attempt, id: nat)
    requires d.id in db.plans && id in db.plans
    ensures var after := Processed(db, u, d, attempt);
            && after.plans.Keys == db.plans.Keys
            && if id == d.id
               then Handled(db.plans[id], ExecutionsOf(db.executions, id), id, u, attempt,
                            after.plans[id], ExecutionsOf(after.executions, id))
               else Same(db, after, id)
  {
    hide ExecutionsOf;
    if u.value >= 10000 && attempt.Seen? {
      RecordAllIs(db, d.id, u.outpoint, attempt.txid, attempt.vouts, attempt.at, id);
    }
  }

  ghost predicate Same(db: Db, db': Db, id: nat)
    requires id in db.plans && id in db'.plans
  {
    db'.plans[id] == db.plans[id] && ExecutionsOf(db'.executions, id) == ExecutionsOf(db.executions, id)
  }

  lemma {:induction false} MatchingOne(utxos: seq<Utxo>, i: int, tip: Outpoint)
    requires ListedOnce(utxos) && At(utxos, i, tip)
    ensures Matching(utxos, tip) == [utxos[i]]
  {
    var n := |utxos| - 1;
    if i == n {
      forall j | 0 <= j < n ensures utxos[..n][j].outpoint != tip {
        assert utxos[j].outpoint != utxos[i].outpoint;
      }
      MatchingEmptyIff(utxos[..n], tip);
    } else {
      MatchingOne(utxos[..n], i, tip);
    }
  }

  /** Executing one due plan. */
  lemma ExecutedIs(db: Db, utxos: seq<Utxo>, d: Denial, attempts: nat -> Attempt, id: nat)
    requires ListedOnce(utxos) && d.id in db.plans && id in db.plans
    ensures var after := Executed(db, Matching(utxos, d.tip), d, attempts);
            && after.plans.Keys == db.plans.Keys
            && (id != d.id || (forall i :: !At(utxos, i, d.tip)) ==> Same(db, after, id))
            && (id == d.id ==> forall i :: At(utxos, i, d.tip) ==>
                  Handled(db.plans[id], ExecutionsOf(db.executions, id), id, utxos[i], attempts(0),
                          after.plans[id], ExecutionsOf(after.executions, id)))
  {
    hide ExecutionsOf, Matching, Processed, Handled;
    MatchingEmptyIff(utxos, d.tip);
    if i :| At(utxos, i, d.tip) {
      var u := utxos[i];
      MatchingOne(utxos, i, d.tip);
      assert [u][..0] == [];
      assert Executed(db, [], d, attempts) == db;
      ProcessedIs(db, u, d, attempts(0), id);
      forall j | At(utxos, j, d.tip) ensures j == i {
      }
    } else {
      forall j | 0 <= j < |utxos| ensures utxos[j].outpoint != d.tip {
        assert !At(utxos, j, d.tip);
      }
    }
  }

  /** What a tick leaves of a plan. */
  ghost predicate Ticked(d: Denial, utxos: seq<Utxo>, now: int, attempt: Attempt, p': Plan, es': seq<Execution>) {
    var tip := if d.executions == [] then d.plan.initial else d.executions[|d.executions| - 1].to;
    && (IsDue(d.plan, d.executions, now) ==>
          forall i :: At(utxos, i, tip) ==> Handled(d.plan, d.executions, d.id, utxos[i], attempt, p', es'))
    && (!IsDue(d.plan, d.executions, now) || (forall i :: !At(utxos, i, tip)) ==>
          p' == d.plan && es' == d.executions)
  }

  lemma {:induction false} QueueIs(db: Db, utxos: seq<Utxo>, denials: seq<Denial>, now: int,
                                   attempts: nat -> nat -> Attempt, id: nat)
    requires ListedOnce(utxos) && id in db.plans
    requires forall i :: 0 <= i < |denials| ==> denials[i].id in db.plans && denials[i] == View(db, denials[i].id)
    requires forall i, j :: 0 <= i < j < |denials| ==> denials[i].id != denials[j].id
    ensures var after := Checked(db, utxos, denials, now, attempts);
            && after.plans.Keys == db.plans.Keys
            && if !Appears(denials, id) then Same(db, after, id)
               else
                 Ticked(View(db, id), utxos, now, attempts(id)(0), after.plans[id],
                        ExecutionsOf(after.executions, id))
  {
    hide ExecutionsOf, Matching, Executed, Hops, Ticked, Same, NextExecution, Tip, Due;
    if denials == [] {
      SameIs(db, db, id);
    } else {
      var n := |denials| - 1;
      var d := denials[n];
      var before := Checked(db, utxos, denials[..n], now, attempts);
      QueueIs(db, utxos, denials[..n], now, attempts, id);
      assert denials == denials[..n] + [d];
      AppearsMore(denials[..n], d, id);
      LastIs(before, utxos, d, now, attempts(d.id), id);
      if id == d.id {
        assert !Appears(denials[..n], id);
        SameIs(db, before, id);
      } else {
        var after := Checked(db, utxos, denials, now, attempts);
        SameIs(before, after, id);
        if !Appears(denials[..n], id) {
          SameIs(db, before, id);
          SameIs(db, after, id);
        }
      }
    }
  }

  lemma SameIs(db: Db, db': Db, id: nat)
    requires id in db.plans && id in db'.plans
    ensures Same(db, db', id)
       <==> db'.plans[id] == db.plans[id] && ExecutionsOf(db'.executions, id) == ExecutionsOf(db.executions, id)
  {
  }

  /** The last plan of the queue. */
  lemma LastIs(db: Db, utxos: seq<Utxo>, d: Denial, now: int, attempts: nat -> Attempt, id: nat)
    requires ListedOnce(utxos) && d.id in db.plans && id in db.plans
    requires d.tip == Tip(d.plan, d.executions) && d.next == NextExecution(d.plan, d.executions)
    ensures var after := if Due(d, now) then Executed(db, Matching(utxos, d.tip), d, attempts) else db;
            && after.plans.Keys == db.plans.Keys
            && (id != d.id ==> Same(db, after, id))
            && (id == d.id && d.plan == db.plans[id] && d.executions == ExecutionsOf(db.executions, id) ==>
                  Ticked(d, utxos, now, attempts(0), after.plans[id], ExecutionsOf(after.executions, id)))
  {
    hide ExecutionsOf, Matching, Executed, Hops, Handled, NextExecution, Tip, Due, IsDue;
    DueIs(d, now);
    TipIs(d.plan, d.executions);
    if Due(d, now) {
      ExecutedIs(db, utxos, d, attempts, id);
    }
    if id == d.id && d.plan == db.plans[id] && d.executions == ExecutionsOf(db.executions, id) {
      var after := if Due(d, now) then Executed(db, Matching(utxos, d.tip), d, attempts) else db;
      TickedIs(d, utxos, now, attempts(0), after.plans[id], ExecutionsOf(after.executions, id));
    }
  }

  lemma TickedIs(d: Denial, utxos: seq<Utxo>, now: int, attempt: Attempt, p': Plan, es': seq<Execution>)
    requires d.tip == if d.executions == [] then d.plan.initial else d.executions[|d.executions| - 1].to
    requires IsDue(d.plan, d.executions, now) ==>
      forall i :: At(utxos, i, d.tip) ==> Handled(d.plan, d.executions, d.id, utxos[i], attempt, p', es')
    requires !IsDue(d.plan, d.executions, now) || (forall i :: !At(utxos, i, d.tip)) ==>
      p' == d.plan && es' == d.executions
    ensures Ticked(d, utxos, now, attempt, p', es')
  {
  }

  lemma DueIs(d: Denial, now: int)
    requires d.next == NextExecution(d.plan, d.executions)
    ensures Due(d, now) <==> IsDue(d.plan, d.executions, now)
  {
    hide NextExecution;
    DueIff(d.plan, d.executions, now);
  }

  lemma TipIs(p: Plan, es: seq<Execution>)
    ensures Tip(p, es) == if es == [] then p.initial else es[|es| - 1].to
  {
  }

  /** A tick over the live plans, with each output listed once. A plan that is due and whose tip the wallets list is
      cancelled if the output is worth less than 10000; otherwise the outputs of its transaction that showed up are
      recorded as hops from the tip. Every other plan stays as it was. */
  lemma TickEffect(db: Db, utxos: seq<Utxo>, denials: seq<Denial>, now: int, attempts: nat -> nat -> Attempt, id: nat)
    requires IsListing(db, true, denials) && ListedOnce(utxos) && id in db.plans
    ensures var after := Checked(db, utxos, denials, now, attempts);
            var p, es := db.plans[id], ExecutionsOf(db.executions, id);
            var tip := if es == [] then p.initial else es[|es| - 1].to;
            && after.plans.Keys == db.plans.Keys
            && var p', es' := after.plans[id], ExecutionsOf(after.executions, id);
               && (IsDue(p, es, now) ==>
                     forall i :: At(utxos, i, tip) ==> Handled(p, es, id, utxos[i], attempts(id)(0), p', es'))
               && (!IsDue(p, es, now) || (forall i :: !At(utxos, i, tip)) ==> p' == p && es' == es)
  {
    hide ExecutionsOf, Checked, Handled, NextExecution, IsDue;
    QueueIs(db, utxos, denials, now, attempts, id);
    if !Appears(denials, id) {
      assert db.plans[id].cancelled;
      NeverDue(db.plans[id], ExecutionsOf(db.executions, id), now);
    }
  }

  lemma NeverDue(p: Plan, es: seq<Execution>, now: int)
    requires p.cancelled
    ensures !IsDue(p, es, now)
  {
  }

  // ---------------------------------------------------------------- what a pause and a cancellation hold back

  /** No step from j on, and before n, resumes the plan. */
  predicate NotResumed(actions: seq<Action>, j: nat, n: nat, id: nat) {
    forall k :: j < k < n && k < |actions| ==> actions[k] != Resume(id)
  }

  predicate NotUpdated(actions: seq<Action>, j: nat, n: nat, id: nat) {
    forall k :: j < k < n && k < |actions| ==> !(actions[k].Update? && actions[k].id == id)
  }

  lemma PausedStep(s: State, a: Action, id: nat)
    requires Enabled(s, a) && id in s.db.plans
    ensures id in Apply(s, a).db.plans
    ensures s.db.plans[id].paused && a != Resume(id) ==> Apply(s, a).db.plans[id].paused
    ensures s.db.plans[id].cancelled && !(a.Update? && a.id == id) ==> Apply(s, a).db.plans[id].cancelled
    ensures a == Pause(id) && !s.db.plans[id].cancelled ==> Apply(s, a).db.plans[id].paused
    ensures a == Cancel(id) ==> Apply(s, a).db.plans[id].cancelled
  {
    hide Matching, IsListing, ListedOnce, FreshTxid, Due;
  }

  lemma {:induction false} StaysPaused(states: seq<State>, actions: seq<Action>, j: nat, n: nat, id: nat)
    requires IsRun(states, actions) && j < n <= |actions| && actions[j] == Pause(id)
    requires id in states[j].db.plans && !states[j].db.plans[id].cancelled && NotResumed(actions, j, n, id)
    ensures id in states[n].db.plans && states[n].db.plans[id].paused
    decreases n
  {
    hide Enabled, Apply;
    assert Leads(states[n - 1], actions[n - 1], states[n]);
    if j + 1 < n {
      StaysPaused(states, actions, j, n - 1, id);
    }
    PausedStep(states[n - 1], actions[n - 1], id);
  }

  lemma {:induction false} StaysCancelled(states: seq<State>, actions: seq<Action>, j: nat, n: nat, id: nat)
    requires IsRun(states, actions) && j < n <= |actions| && actions[j] == Cancel(id)
    requires id in states[j].db.plans && NotUpdated(actions, j, n, id)
    ensures id in states[n].db.plans && states[n].db.plans[id].cancelled
    decreases n
  {
    hide Enabled, Apply;
    assert Leads(states[n - 1], actions[n - 1], states[n]);
    if j + 1 < n {
      StaysCancelled(states, actions, j, n - 1, id);
    }
    PausedStep(states[n - 1], actions[n - 1], id);
  }

  /** Once a live plan is paused, and until it is resumed, no tick that begins later sends for it. */
  lemma PauseHolds(states: seq<State>, actions: seq<Action>, j: nat, b: nat, n: nat, id: nat)
    requires IsRun(states, actions) && j < b < n < |actions| && actions[j] == Pause(id) && actions[b].Begin?
    requires id in states[j].db.plans && !states[j].db.plans[id].cancelled && NotResumed(actions, j, n, id)
    ensures !SendsFor(states[n], actions[n], id)
  {
    hide Enabled, Apply, ExecutionsOf, Hops, ChooseStrategy, Tip;
    if SendsFor(states[n], actions[n], id) {
      var m := SendIsSafe(states, actions, n);
      assert b <= m;
      StaysPaused(states, actions, j, m, id);
    }
  }

  /** Once a plan is cancelled, and until it is updated, no tick that begins later sends for it. */
  lemma CancelHolds(states: seq<State>, actions: seq<Action>, j: nat, b: nat, n: nat, id: nat)
    requires IsRun(states, actions) && j < b < n < |actions| && actions[j] == Cancel(id) && actions[b].Begin?
    requires id in states[j].db.plans && NotUpdated(actions, j, n, id)
    ensures !SendsFor(states[n], actions[n], id)
  {
    hide Enabled, Apply, ExecutionsOf, Hops, ChooseStrategy, Tip;
    if SendsFor(states[n], actions[n], id) {
      var m := SendIsSafe(states, actions, n);
      assert b <= m;
      StaysCancelled(states, actions, j, m, id);
    }
  }

  /** Pausing and resuming a live plan, or cancelling it and updating it with no more hops, its own delay and its own
      first output, leaves every plan as it was. */
  lemma StatementsUndo(db: Db, id: nat)
    requires id in db.plans && !db.plans[id].cancelled
    ensures !db.plans[id].paused ==> Paused(db, id) != db && Resumed(Paused(db, id), id) == db
    ensures Cancelled(db, id) != db
    ensures Updated(Cancelled(db, id), id, db.plans[id].delay, 0, db.plans[id].initial) == db
  {
    var p := db.plans[id];
    assert db.plans[id := p.(paused := true)][id := p] == db.plans[id := p] == db.plans;
    assert db.plans[id := p.(cancelled := true)][id := p] == db.plans;
    assert db.plans[id := p.(paused := true)][id].paused && db.plans[id := p.(cancelled := true)][id].cancelled;
  }
}
