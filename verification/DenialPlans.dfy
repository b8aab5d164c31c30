/** Denial plans and their recorded hops: the two tables, the statements on them, and when a plan is due. */
module DenialPlans {
  import opened Wrappers

  datatype Outpoint = Outpoint(txid: string, vout: int)

  /** A row of denials. Times are in nanoseconds. */
  datatype Plan = Plan(walletId: Option<string>, initial: Outpoint, delay: int, numHops: int, targetSizes: seq<int>,
                       createdAt: int, cancelled: bool, paused: bool)

  /** A row of executed_denials; row ids follow the order of insertion. */
  datatype Execution = Execution(plan: nat, from: Outpoint, to: Outpoint, at: int)

  datatype Db = Db(plans: map<nat, Plan>, executions: seq<Execution>)

  /** A plan as List returns it. */
  datatype Denial = Denial(id: nat, plan: Plan, tip: Outpoint, executions: seq<Execution>, next: Option<int>)

  function ExecutionsOf(es: seq<Execution>, id: nat): seq<Execution> {
    if es == [] then []
    else
      var last := es[|es| - 1];
      ExecutionsOf(es[..|es| - 1], id) + (if last.plan == id then [last] else [])
  }

  /** The distinct transactions the executions paid to. */
  function Hops(es: seq<Execution>): set<string> {
    if es == [] then {} else Hops(es[..|es| - 1]) + {es[|es| - 1].to.txid}
  }

  lemma HopsSnoc(es: seq<Execution>, e: Execution)
    ensures Hops(es + [e]) == Hops(es) + {e.to.txid} && Hops(es + []) == Hops(es)
  {
    assert (es + [e])[..|es|] == es;
    assert es + [] == es;
  }

  function Latest(es: seq<Execution>): int
    requires es != []
  {
    var last := es[|es| - 1].at;
    if |es| == 1 then last
    else
      var before := Latest(es[..|es| - 1]);
      if last > before then last else before
  }

  /** The output of the last execution, or the plan's first output. */
  function Tip(p: Plan, es: seq<Execution>): Outpoint { if es == [] then p.initial else es[|es| - 1].to }

  function LastExecution(p: Plan, es: seq<Execution>): Option<int> {
    if p.cancelled || p.paused || |Hops(es)| >= p.numHops then None
    else if es == [] then Some(p.createdAt)
    else Some(Latest(es))
  }

  function NextExecution(p: Plan, es: seq<Execution>): Option<int> {
    var last := LastExecution(p, es);
    if last.None? then None else Some(last.value + p.delay)
  }

  function View(db: Db, id: nat): Denial
    requires id in db.plans
  {
    var es := ExecutionsOf(db.executions, id);
    Denial(id, db.plans[id], Tip(db.plans[id], es), es, NextExecution(db.plans[id], es))
  }

  // ---------------------------------------------------------------- when a plan is due

  lemma {:induction false} LatestIs(es: seq<Execution>)
    requires es != []
    ensures forall i :: 0 <= i < |es| ==> es[i].at <= Latest(es)
    ensures exists i :: 0 <= i < |es| && es[i].at == Latest(es)
  {
    var n := |es| - 1;
    assert n == 0 || es[n].at > Latest(es[..n]) ==> es[n].at == Latest(es);
    if n > 0 {
      LatestIs(es[..n]);
      var i :| 0 <= i < n && es[..n][i].at == Latest(es[..n]);
      assert es[i].at == Latest(es[..n]);
      assert forall i :: 0 <= i < n ==> es[..n][i] == es[i];
    }
  }

  /** A plan is due at a time exactly when it is neither cancelled nor paused, has hops left, and its delay has passed
      since its creation and since every hop recorded for it. */
  lemma DueIff(p: Plan, es: seq<Execution>, now: int)
    ensures NextExecution(p, es).Some? && NextExecution(p, es).value <= now
       <==> !p.cancelled && !p.paused && |Hops(es)| < p.numHops
            && (es == [] ==> now >= p.createdAt + p.delay)
            && forall i :: 0 <= i < |es| ==> now >= es[i].at + p.delay
  {
    if es != [] {
      LatestIs(es);
    }
  }

  // ---------------------------------------------------------------- the statements

  function Created(db: Db, id: nat, p: Plan): Db { db.(plans := db.plans[id := p]) }

  function Recorded(db: Db, e: Execution): Db { db.(executions := db.executions + [e]) }

  function Cancelled(db: Db, id: nat): Db {
    if id in db.plans then db.(plans := db.plans[id := db.plans[id].(cancelled := true)]) else db
  }

  function Paused(db: Db, id: nat): Db {
    if id in db.plans && !db.plans[id].paused && !db.plans[id].cancelled then
      db.(plans := db.plans[id := db.plans[id].(paused := true)])
    else db
  }

  function Resumed(db: Db, id: nat): Db {
    if id in db.plans && db.plans[id].paused then db.(plans := db.plans[id := db.plans[id].(paused := false)]) else db
  }

  /** Update adds hops, revives a cancelled plan and replaces its first output. */
  function Updated(db: Db, id: nat, delay: int, hops: int, initial: Outpoint): Db {
    if id in db.plans then
      var p := db.plans[id];
      var p' := p.(delay := delay, numHops := p.numHops + hops, initial := initial, cancelled := false);
      db.(plans := db.plans[id := p'])
    else db
  }

  /** The plans List returns, each once, in some order. */
  ghost predicate IsListing(db: Db, excludeCancelled: bool, denials: seq<Denial>) {
    && (forall i :: 0 <= i < |denials| ==>
          denials[i].id in db.plans && denials[i] == View(db, denials[i].id)
          && !(excludeCancelled && db.plans[denials[i].id].cancelled))
    && (forall i, j :: 0 <= i < j < |denials| ==> denials[i].id != denials[j].id)
    && (forall id :: id in db.plans && !(excludeCancelled && db.plans[id].cancelled) ==> Appears(denials, id))
  }

  predicate Appears(denials: seq<Denial>, id: nat) { exists i :: 0 <= i < |denials| && denials[i].id == id }

  class DenialStore {
    var plans: map<nat, Plan>
    var executions: seq<Execution>
    var nextId: nat

    constructor ()
      ensures Contents() == Db(map[], [])
    {
      plans, executions, nextId := map[], [], 0;
    }

    ghost function Contents(): Db
      reads this
    {
      Db(plans, executions)
    }

    ghost predicate Valid()
      reads this
    {
      forall id :: id in plans ==> id < nextId
    }

    method Create(walletId: string, initial: Outpoint, delay: int, numHops: int, targetSizes: seq<int>, now: int)
      returns (id: nat)
      requires Valid()
      modifies this
      ensures Valid() && id !in old(plans)
      ensures var p := Plan(Some(walletId), initial, delay, numHops, targetSizes, now, false, false);
              Contents() == Created(old(Contents()), id, p)
      ensures plans == old(plans)[id := Plan(Some(walletId), initial, delay, numHops, targetSizes, now, false, false)]
      ensures executions == old(executions)
    {
      id := nextId;
      nextId := nextId + 1;
      plans := plans[id := Plan(Some(walletId), initial, delay, numHops, targetSizes, now, false, false)];
    }

    method RecordExecution(id: nat, from: Outpoint, to: Outpoint, now: int)
      modifies this`executions
      ensures Contents() == Recorded(old(Contents()), Execution(id, from, to, now))
      ensures executions == old(executions) + [Execution(id, from, to, now)]
    {
      executions := executions + [Execution(id, from, to, now)];
    }

    method Cancel(id: nat) returns (found: bool)
      modifies this`plans
      ensures Contents() == Cancelled(old(Contents()), id) && plans.Keys == old(plans.Keys)
      ensures found <==> id in old(plans)
      ensures plans == if found then old(plans)[id := old(plans)[id].(cancelled := true)] else old(plans)
    {
      found := id in plans;
      if found {
        plans := plans[id := plans[id].(cancelled := true)];
      }
    }

    method Pause(id: nat) returns (found: bool)
      modifies this`plans
      ensures Contents() == Paused(old(Contents()), id) && plans.Keys == old(plans.Keys)
      ensures found <==> id in old(plans) && !old(plans)[id].paused && !old(plans)[id].cancelled
      ensures plans == if found then old(plans)[id := old(plans)[id].(paused := true)] else old(plans)
    {
      found := id in plans && !plans[id].paused && !plans[id].cancelled;
      if found {
        plans := plans[id := plans[id].(paused := true)];
      }
    }

    method Resume(id: nat) returns (found: bool)
      modifies this`plans
      ensures Contents() == Resumed(old(Contents()), id) && plans.Keys == old(plans.Keys)
      ensures found <==> id in old(plans) && old(plans)[id].paused
      ensures plans == if found then old(plans)[id := old(plans)[id].(paused := false)] else old(plans)
    {
      found := id in plans && plans[id].paused;
      if found {
        plans := plans[id := plans[id].(paused := false)];
      }
    }

    method Update(id: nat, delay: int, numHops: int, initial: Outpoint)
      modifies this`plans
      ensures Contents() == Updated(old(Contents()), id, delay, numHops, initial) && plans.Keys == old(plans.Keys)
      ensures id in plans ==>
                && plans[id].numHops == old(plans)[id].numHops + numHops
                && plans[id] == old(plans)[id].(delay := delay, numHops := plans[id].numHops, initial := initial,
                                                cancelled := false)
      ensures forall k :: k in plans && k != id ==> plans[k] == old(plans)[k]
    {
      if id in plans {
        var p := plans[id];
        p := p.(delay := delay, numHops := p.numHops + numHops, initial := initial, cancelled := false);
        plans := plans[id := p];
      }
    }

    method List(excludeCancelled: bool) returns (denials: seq<Denial>)
      ensures IsListing(Contents(), excludeCancelled, denials)
    {
      hide ExecutionsOf, NextExecution, Tip, Appears;
      denials := [];
      var left := plans.Keys;
      ghost var db := Contents();
      while left != {}
        invariant left <= plans.Keys
        invariant forall i :: 0 <= i < |denials| ==>
          denials[i].id in plans && denials[i].id !in left && denials[i] == View(db, denials[i].id)
          && !(excludeCancelled && plans[denials[i].id].cancelled)
        invariant forall i, j :: 0 <= i < j < |denials| ==> denials[i].id != denials[j].id
        invariant forall id :: id in plans && id !in left && !(excludeCancelled && plans[id].cancelled) ==>
          Appears(denials, id)
        decreases |left|
      {
        var id :| id in left;
        left := left - {id};
        var p := plans[id];
        ghost var before := denials;
        if !(excludeCancelled && p.cancelled) {
          var es := ListExecutions(id);
          denials := denials + [Denial(id, p, Tip(p, es), es, NextExecution(p, es))];
          forall k ensures Appears(denials, k) <==> Appears(before, k) || k == id {
            AppearsMore(before, denials[|before|], k);
          }
        }
      }
    }

    method ListExecutions(id: nat) returns (es: seq<Execution>)
      ensures es == ExecutionsOf(executions, id)
    {
      es := [];
      for i := 0 to |executions|
        invariant es == ExecutionsOf(executions[..i], id)
      {
        assert executions[..i + 1][..i] == executions[..i];
        if executions[i].plan == id {
          es := es + [executions[i]];
        }
      }
      assert executions[..|executions|] == executions;
    }
  }

  lemma AppearsMore(denials: seq<Denial>, d: Denial, id: nat)
    ensures Appears(denials + [d], id) <==> Appears(denials, id) || id == d.id
  {
    var more := denials + [d];
    if Appears(denials, id) {
      var i :| 0 <= i < |denials| && denials[i].id == id;
      assert more[i].id == id;
    }
    if id == d.id {
      assert more[|denials|].id == id;
    }
  }
}
