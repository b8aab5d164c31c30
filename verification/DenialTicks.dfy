/** An uninterrupted tick of the engine: how many hops it adds to each plan. */
module DenialTicks {
  import opened Wrappers
  import opened DenialPlans
  import opened DenialEngine
  import opened DenialRuns

  /** Recording the outputs of one transaction adds at most one hop, to that plan alone; with an output, exactly one if
      the transaction is new. */
  lemma {:induction false} RecordAllHops(db: Db, id: nat, from: Outpoint, txid: string, vouts: seq<int>, at: int,
                                         other: nat)
    ensures var after := RecordAll(db, id, from, txid, vouts, at);
            && after.plans == db.plans
            && (other != id ==> ExecutionsOf(after.executions, other) == ExecutionsOf(db.executions, other))
            && Hops(ExecutionsOf(after.executions, id))
               == Hops(ExecutionsOf(db.executions, id)) + if vouts == [] then {} else {txid}
  {
    hide ExecutionsOf;
    if vouts != [] {
      var n := |vouts| - 1;
      RecordAllHops(db, id, from, txid, vouts[..n], at, other);
      var before := RecordAll(db, id, from, txid, vouts[..n], at);
      var e := Execution(id, from, Outpoint(txid, vouts[n]), at);
      RecordedOf(before, e, id);
      RecordedOf(before, e, other);
      HopsSnoc(ExecutionsOf(before.executions, id), e);
    }
  }

  /** Handling one output of a plan's tip. */
  lemma ProcessedHops(db: Db, u: Utxo, d: Denial, attempt: Attempt, other: nat)
    ensures var after := Processed(db, u, d, attempt);
            && after.plans.Keys == db.plans.Keys
            && (forall id :: id in db.plans ==> after.plans[id].numHops == db.plans[id].numHops)
            && (other != d.id ==> ExecutionsOf(after.executions, other) == ExecutionsOf(db.executions, other))
            && Hops(ExecutionsOf(after.executions, d.id)) == Hops(ExecutionsOf(db.executions, d.id))
               + if u.value >= 10000 && attempt.Seen? && attempt.vouts != [] then {attempt.txid} else {}
  {
    hide ExecutionsOf, Hops;
    if u.value >= 10000 && attempt.Seen? {
      RecordAllHops(db, d.id, u.outpoint, attempt.txid, attempt.vouts, attempt.at, other);
    }
  }

  /** A plan in the queue whose records have not changed since it was listed. */
  predicate Pending(db: Db, d: Denial) {
    d.id in db.plans && d.plan.numHops == db.plans[d.id].numHops && d.executions == ExecutionsOf(db.executions, d.id)
    && d.next == NextExecution(d.plan, d.executions)
  }

  predicate Within(db: Db, id: nat)
    requires id in db.plans
  {
    |Hops(ExecutionsOf(db.executions, id))| <= db.plans[id].numHops
  }

  /** Executing a due plan whose tip is listed once keeps it within its hops and leaves the other plans alone. */
  lemma ExecutedWithin(db: Db, utxos: seq<Utxo>, d: Denial, now: int, attempts: nat -> Attempt, other: nat)
    requires ListedOnce(utxos) && Pending(db, d) && Due(d, now)
    ensures var after := Executed(db, Matching(utxos, d.tip), d, attempts);
            && after.plans.Keys == db.plans.Keys && Within(after, d.id)
            && (forall id :: id in db.plans ==> after.plans[id].numHops == db.plans[id].numHops)
            && (other != d.id ==> ExecutionsOf(after.executions, other) == ExecutionsOf(db.executions, other))
  {
    hide ExecutionsOf, Matching, Hops;
    MatchingAtMostOne(utxos, d.tip);
    DueIff(d.plan, d.executions, now);
    var found := Matching(utxos, d.tip);
    if found != [] {
      assert found[..0] == [] && found[..|found| - 1] == [];
      assert Executed(db, [], d, attempts) == db;
      ProcessedHops(db, found[0], d, attempts(0), other);
      var before := Hops(d.executions);
      Smaller(Hops(ExecutionsOf(Executed(db, found, d, attempts).executions, d.id)),
              before + {if attempts(0).Seen? then attempts(0).txid else ""});
    }
  }

  /** The loop over a queue of pending plans. */
  lemma {:induction false} QueueWithin(db: Db, utxos: seq<Utxo>, denials: seq<Denial>, now: int,
                                       attempts: nat -> nat -> Attempt)
    requires ListedOnce(utxos) && forall id :: id in db.plans ==> Within(db, id)
    requires forall i :: 0 <= i < |denials| ==> Pending(db, denials[i])
    requires forall i, j :: 0 <= i < j < |denials| ==> denials[i].id != denials[j].id
    ensures var after := Checked(db, utxos, denials, now, attempts);
            && after.plans.Keys == db.plans.Keys
            && (forall id :: id in db.plans ==> Within(after, id) && after.plans[id].numHops == db.plans[id].numHops)
            && (forall id :: id in db.plans && !Appears(denials, id) ==>
                  ExecutionsOf(after.executions, id) == ExecutionsOf(db.executions, id))
  {
    hide ExecutionsOf, Matching, Hops, Executed;
    if denials != [] {
      var n := |denials| - 1;
      var d := denials[n];
      QueueWithin(db, utxos, denials[..n], now, attempts);
      var before := Checked(db, utxos, denials[..n], now, attempts);
      assert denials == denials[..n] + [d];
      forall id ensures Appears(denials, id) <==> Appears(denials[..n], id) || id == d.id {
        AppearsMore(denials[..n], d, id);
      }
      assert !Appears(denials[..n], d.id);
      if Due(d, now) {
        assert Pending(before, d);
        forall id | id in db.plans
          ensures var after := Executed(before, Matching(utxos, d.tip), d, attempts(d.id));
                  && after.plans.Keys == db.plans.Keys && Within(after, id)
                  && after.plans[id].numHops == db.plans[id].numHops
                  && (id != d.id ==> ExecutionsOf(after.executions, id) == ExecutionsOf(before.executions, id))
        {
          ExecutedWithin(before, utxos, d, now, attempts(d.id), id);
        }
      }
    }
  }

  /** A listing makes every listed plan pending. */
  lemma ListingPending(db: Db, denials: seq<Denial>)
    requires IsListing(db, true, denials)
    ensures forall i :: 0 <= i < |denials| ==> Pending(db, denials[i])
  {
    hide ExecutionsOf, NextExecution;
  }

  /** A tick over the plans the cleanup lists, with each outpoint listed once, leaves every plan within its hops. */
  lemma TickWithin(db: Db, utxos: seq<Utxo>, denials: seq<Denial>, now: int, attempts: nat -> nat -> Attempt)
    requires IsListing(db, true, denials) && ListedOnce(utxos) && forall id :: id in db.plans ==> Within(db, id)
    ensures var after := Checked(db, utxos, denials, now, attempts);
            after.plans.Keys == db.plans.Keys && forall id :: id in db.plans ==> Within(after, id)
  {
    hide Checked, Within, Pending;
    ListingPending(db, denials);
    QueueWithin(db, utxos, denials, now, attempts);
  }

  // ---------------------------------------------------------------- outpoints listed more than once

  /** Every matching output gets a new transaction of its own, whose output is found. */
  predicate EachSent(found: seq<Utxo>, attempts: nat -> Attempt, known: set<string>) {
    && (forall i :: 0 <= i < |found| ==>
          found[i].value >= 10000 && attempts(i).Seen? && attempts(i).vouts != [] && attempts(i).txid !in known)
    && (forall i, j :: 0 <= i < j < |found| ==> attempts(i).txid != attempts(j).txid)
  }

  function Txids(attempts: nat -> Attempt, n: nat): set<string>
    requires forall i :: 0 <= i < n ==> attempts(i).Seen?
  {
    if n == 0 then {} else Txids(attempts, n - 1) + {attempts(n - 1).txid}
  }

  lemma {:induction false} TxidsAre(attempts: nat -> Attempt, n: nat)
    requires forall i :: 0 <= i < n ==> attempts(i).Seen?
    ensures forall x :: x in Txids(attempts, n) <==> exists i :: 0 <= i < n && attempts(i).txid == x
  {
    if n > 0 {
      TxidsAre(attempts, n - 1);
    }
  }

  lemma {:induction false} ExecutedHops(db: Db, found: seq<Utxo>, d: Denial, attempts: nat -> Attempt)
    requires EachSent(found, attempts, Hops(ExecutionsOf(db.executions, d.id)))
    ensures var before := Hops(ExecutionsOf(db.executions, d.id));
            var after := Hops(ExecutionsOf(Executed(db, found, d, attempts).executions, d.id));
            after == before + Txids(attempts, |found|) && |after| == |before| + |found|
  {
    hide *;
    var before := Hops(ExecutionsOf(db.executions, d.id));
    ExecutedStep(db, found, d, attempts);
    EachSentStep(found, attempts, before);
    if found == [] {
      assert before + {} == before;
    } else {
      var n := |found| - 1;
      var mid := Executed(db, found[..n], d, attempts);
      ExecutedHops(db, found[..n], d, attempts);
      ProcessedHops(mid, found[n], d, attempts(n), d.id);
      assert before + Txids(attempts, n) + {attempts(n).txid} == before + (Txids(attempts, n) + {attempts(n).txid});
    }
  }

  /** The last output's transaction is new. */
  lemma EachSentStep(found: seq<Utxo>, attempts: nat -> Attempt, known: set<string>)
    requires EachSent(found, attempts, known)
    ensures forall i :: 0 <= i < |found| ==> attempts(i).Seen?
    ensures found == [] ==> Txids(attempts, 0) == {}
    ensures found != [] ==>
      var n := |found| - 1;
      && EachSent(found[..n], attempts, known)
      && found[n].value >= 10000 && attempts(n).Seen? && attempts(n).vouts != []
      && attempts(n).txid !in known && attempts(n).txid !in Txids(attempts, n)
      && Txids(attempts, |found|) == Txids(attempts, n) + {attempts(n).txid}
  {
    if found != [] {
      var n := |found| - 1;
      TxidsAre(attempts, n);
    }
  }

  lemma ExecutedStep(db: Db, found: seq<Utxo>, d: Denial, attempts: nat -> Attempt)
    ensures Executed(db, found, d, attempts)
         == if found == [] then db
            else
              var n := |found| - 1;
              Processed(Executed(db, found[..n], d, attempts), found[n], d, attempts(n))
  {
    hide Processed;
  }

  /** When the wallets list a tip several times, and every send goes through, each listing is one recorded hop: the
      plan stays within its hops exactly when it had that many left. */
  lemma OverrunIff(db: Db, utxos: seq<Utxo>, d: Denial, attempts: nat -> Attempt)
    requires d.id in db.plans && EachSent(Matching(utxos, d.tip), attempts, Hops(ExecutionsOf(db.executions, d.id)))
    ensures |Hops(ExecutionsOf(Executed(db, Matching(utxos, d.tip), d, attempts).executions, d.id))|
            <= db.plans[d.id].numHops
       <==> |Hops(ExecutionsOf(db.executions, d.id))| + |Matching(utxos, d.tip)| <= db.plans[d.id].numHops
  {
    hide ExecutionsOf, Hops, Matching, Executed;
    ExecutedHops(db, Matching(utxos, d.tip), d, attempts);
  }

  /** One hop left and the same outpoint listed for two wallet ids, as with a plan without a wallet beside one with the
      enforcer's: two hops are recorded, if the active wallet sends both from whatever outputs it has. */
  lemma ListedTwiceOverruns(u: Utxo)
    requires u.value >= 10000
    ensures var plan := Plan(None, u.outpoint, 1, 1, [], 0, false, false);
            var db := Db(map[0 := plan], []);
            var attempts := (i: nat) => Seen(if i == 0 then "a" else "b", [0], 5);
            |Hops(ExecutionsOf(Executed(db, Matching([u, u], u.outpoint), View(db, 0), attempts).executions, 0))| == 2
  {
    var db := Db(map[0 := Plan(None, u.outpoint, 1, 1, [], 0, false, false)], []);
    var attempts := (i: nat) => Seen(if i == 0 then "a" else "b", [0], 5);
    assert [u, u][..1] == [u] && [u][..0] == [];
    assert Matching([u], u.outpoint) == [u];
    assert Matching([u, u], u.outpoint) == [u, u];
    assert attempts(0).txid == "a" && attempts(1).txid == "b" && "a" != "b";
    ExecutedHops(db, [u, u], View(db, 0), attempts);
  }
}
