/** Concurrent List and Persist calls as interleaved steps: which cached lists can be stale, and for how long. */
module OpReturnRaces {
  import opened Wrappers
  import opened OpReturnCache

  /** A cache entry with what the proofs need to know about it: the number of the write its query had last seen, and
      the step at which it was stored. */
  datatype Stored = Stored(rows: seq<Row>, at: int, seen: nat, step: nat)

  /** A List call under way: an entry was found, a query is needed, or its rows are in hand. */
  datatype Task = Found(limit: int, entry: Stored) | NeedsQuery(limit: int)
    | HasRows(limit: int, rows: seq<Row>, seen: nat)

  /** Write number v turned history[v - 1] into history[v]; `invalidated` maps the writes whose Persist has already
      dropped the cache to the step at which it did. */
  datatype State = State(history: seq<Table>, cache: map<int, Stored>, lists: map<nat, Task>,
                         invalidated: map<nat, nat>,
                         now: int, step: nat)
  {
    function Current(): Table
      requires history != []
    {
      history[|history| - 1]
    }

    function Last(): nat
      requires history != []
    {
      |history| - 1
    }
  }

  datatype Action =
    | Lookup(task: nat, limit: int)
    | ServeHit(task: nat)
    | RejectHit(task: nat)
    | Query(task: nat, rows: seq<Row>)
    | Store(task: nat)
    | Commit(values: seq<Value>)
    | Invalidate(write: nat)
    | Pass(time: nat)

  const INIT := State([map[]], map[], map[], map[], 0, 0)

  ghost predicate Enabled(s: State, a: Action)
    requires s.history != []
  {
    match a
    case Lookup(t, _) => t !in s.lists
    case ServeHit(t) => t in s.lists && s.lists[t].Found? && s.now - s.lists[t].entry.at < TTL
    case RejectHit(t) => t in s.lists && s.lists[t].Found? && s.now - s.lists[t].entry.at >= TTL
    case Query(t, rows) => t in s.lists && s.lists[t].NeedsQuery? && Listing(s.Current(), s.lists[t].limit, rows)
    case Store(t) => t in s.lists && s.lists[t].HasRows?
    case Commit(values) => values != []
    case Invalidate(w) => 0 < w <= s.Last() && w !in s.invalidated
    case Pass(_) => true
  }

  ghost function Apply(s: State, a: Action): State
    requires s.history != [] && Enabled(s, a)
  {
    var s' := s.(step := s.step + 1);
    match a
    case Lookup(t, limit) =>
      s'.(lists := s.lists[t := if limit in s.cache then Found(limit, s.cache[limit]) else NeedsQuery(limit)])
    case ServeHit(t) => s'.(lists := s.lists - {t})
    case RejectHit(t) => s'.(lists := s.lists[t := NeedsQuery(s.lists[t].limit)])
    case Query(t, rows) => s'.(lists := s.lists[t := HasRows(s.lists[t].limit, rows, s.Last())])
    case Store(t) =>
      var task := s.lists[t];
      s'.(cache := s.cache[task.limit := Stored(task.rows, s.now, task.seen, s.step)], lists := s.lists - {t})
    case Commit(values) => s'.(history := s.history + [Upsert(s.Current(), values, s.now)])
    case Invalidate(w) => s'.(cache := map[], invalidated := s.invalidated[w := s.step])
    case Pass(time) => s'.(now := s.now + time)
  }

  /** The states of a run and the actions between them. */
  ghost predicate IsRun(states: seq<State>, actions: seq<Action>) {
    && |states| == |actions| + 1
    && states[0] == INIT
    && forall i :: 0 <= i < |actions| ==> Leads(states[i], actions[i], states[i + 1])
  }

  ghost predicate Leads(s: State, a: Action, s': State) {
    s.history != [] && Enabled(s, a) && s' == Apply(s, a)
  }

  // ---------------------------------------------------------------- what every step keeps

  /** The rows are a listing of the table as it was after write `seen`. */
  ghost predicate Snapshot(s: State, limit: int, rows: seq<Row>, seen: nat) {
    seen < |s.history| && Listing(s.history[seen], limit, rows)
  }

  /** The entry was queried and stored in the past, and every write it missed is either still to invalidate or
      invalidated before the entry was stored. */
  ghost predicate Explained(s: State, limit: int, e: Stored) {
    && Snapshot(s, limit, e.rows, e.seen) && e.at <= s.now
    && forall w :: e.seen < w && w in s.invalidated ==> s.invalidated[w] < e.step
  }

  ghost predicate TaskOk(s: State, t: Task) {
    match t
    case Found(limit, e) => Snapshot(s, limit, e.rows, e.seen) && e.at <= s.now
    case NeedsQuery(_) => true
    case HasRows(limit, rows, seen) => Snapshot(s, limit, rows, seen)
  }

  ghost predicate Inv(s: State) {
    && s.history != []
    && (forall w :: w in s.invalidated ==> 0 < w < |s.history| && s.invalidated[w] < s.step)
    && (forall limit :: limit in s.cache ==> Explained(s, limit, s.cache[limit]))
    && (forall t :: t in s.lists ==> TaskOk(s, s.lists[t]))
  }

  lemma StepKeepsInv(s: State, a: Action)
    requires Inv(s) && Enabled(s, a)
    ensures Inv(Apply(s, a))
  {
    hide Listing, Upsert;
  }

  lemma Initially()
    ensures Inv(INIT) && UpToDate(INIT)
  {
  }

  lemma {:induction false} RunInv(states: seq<State>, actions: seq<Action>, n: nat)
    requires IsRun(states, actions) && n < |states|
    ensures Inv(states[n])
  {
    hide Enabled, Apply, Inv;
    if n == 0 {
      Initially();
    } else {
      RunInv(states, actions, n - 1);
      assert Leads(states[n - 1], actions[n - 1], states[n]);
      StepKeepsInv(states[n - 1], actions[n - 1]);
    }
  }

  /** In every reachable state, a cached list that differs from the table missed a write; and each write it missed is
      one whose Persist has committed but not yet invalidated, or one invalidated before the entry was stored, which
      its query, made before that write, had outlived. */
  lemma StaleEntryExplained(states: seq<State>, actions: seq<Action>, n: nat, limit: int)
    requires IsRun(states, actions) && n < |states| && limit in states[n].cache
    ensures var s := states[n];
            var e := s.cache[limit];
            && s.history != [] && e.seen <= s.Last()
            && (!Listing(s.Current(), limit, e.rows) ==> e.seen < s.Last())
            && forall w :: e.seen < w <= s.Last() ==> w !in s.invalidated || s.invalidated[w] < e.step
  {
    hide Listing;
    RunInv(states, actions, n);
    assert Explained(states[n], limit, states[n].cache[limit]);
  }

  // ---------------------------------------------------------------- what a List call returns

  /** The rows an action hands to the caller of List. */
  ghost function Returned(s: State, a: Action): Option<(int, seq<Row>)>
    requires s.history != [] && Enabled(s, a)
  {
    match a
    case ServeHit(t) => Some((s.lists[t].limit, s.lists[t].entry.rows))
    case Store(t) => Some((s.lists[t].limit, s.lists[t].rows))
    case _ => None
  }

  /** A hit is served less than two seconds after its entry was stored, and whatever is returned was once the table's
      listing. */
  lemma ReturnsAreSnapshots(states: seq<State>, actions: seq<Action>, n: nat)
    requires IsRun(states, actions) && n < |actions|
    ensures var s, a := states[n], actions[n];
            && s.history != [] && Enabled(s, a)
            && (Returned(s, a).Some? ==>
                exists seen: nat :: Snapshot(s, Returned(s, a).value.0, Returned(s, a).value.1, seen))
            && (a.ServeHit? ==> s.lists[a.task].entry.at <= s.now < s.lists[a.task].entry.at + 2_000_000_000)
  {
    hide Listing;
    RunInv(states, actions, n);
    assert Leads(states[n], actions[n], states[n + 1]);
    var s, a := states[n], actions[n];
    if a.ServeHit? || a.Store? {
      assert TaskOk(s, s.lists[a.task]);
    }
  }

  // ---------------------------------------------------------------- runs without overlap

  /** No List call is under way while some Persist is between its commit and its invalidation. */
  predicate NoOverlap(s: State) {
    s.lists == map[] || forall w: nat :: 0 < w < |s.history| ==> w in s.invalidated
  }

  /** Some write after number `seen` has not invalidated the cache yet. */
  ghost predicate Unsettled(s: State, seen: nat) {
    exists w: nat :: seen < w < |s.history| && w !in s.invalidated
  }

  /** Nothing in the cache or in hand is older than the table, unless a Persist is under way. */
  ghost predicate UpToDate(s: State) {
    && s.history != []
    && (forall t :: t in s.lists && s.lists[t].Found? ==> s.lists[t].entry.seen == s.Last())
    && (forall t :: t in s.lists && s.lists[t].HasRows? ==> s.lists[t].seen == s.Last())
    && (forall limit :: limit in s.cache ==> s.cache[limit].seen == s.Last() || Unsettled(s, s.cache[limit].seen))
  }

  lemma StepKeepsUpToDate(s: State, a: Action)
    requires Inv(s) && UpToDate(s) && Enabled(s, a) && NoOverlap(Apply(s, a))
    ensures UpToDate(Apply(s, a))
  {
    hide Listing, Upsert, Explained, TaskOk;
    var s' := Apply(s, a);
    if a.Commit? {
      CommitUnsettles(s, a);
    }
  }

  lemma CommitUnsettles(s: State, a: Action)
    requires Inv(s) && a.Commit? && Enabled(s, a)
    ensures Apply(s, a).lists == map[] || !NoOverlap(Apply(s, a))
    ensures forall limit :: limit in s.cache ==> Unsettled(Apply(s, a), s.cache[limit].seen)
  {
    hide Listing, Upsert;
    var s' := Apply(s, a);
    var w := |s'.history| - 1;
    assert 0 < w < |s'.history| && w !in s'.invalidated;
    forall limit | limit in s.cache ensures Unsettled(s', s.cache[limit].seen) {
      assert Explained(s, limit, s.cache[limit]);
    }
  }

  lemma {:induction false} RunUpToDate(states: seq<State>, actions: seq<Action>, n: nat)
    requires IsRun(states, actions) && n < |states|
    requires forall i :: 0 <= i < |states| ==> NoOverlap(states[i])
    ensures UpToDate(states[n])
  {
    hide Enabled, Apply, Inv, UpToDate, NoOverlap;
    if n == 0 {
      Initially();
    } else {
      RunUpToDate(states, actions, n - 1);
      RunInv(states, actions, n - 1);
      assert Leads(states[n - 1], actions[n - 1], states[n]);
      StepKeepsUpToDate(states[n - 1], actions[n - 1]);
    }
  }

  /** When no List call overlaps a Persist, every List returns the listing of the table as it is. */
  lemma WithoutOverlapCurrent(states: seq<State>, actions: seq<Action>, n: nat)
    requires IsRun(states, actions) && n < |actions|
    requires forall i :: 0 <= i < |states| ==> NoOverlap(states[i])
    ensures var s, a := states[n], actions[n];
            && s.history != [] && Enabled(s, a)
            && (Returned(s, a).Some? ==> Listing(s.Current(), Returned(s, a).value.0, Returned(s, a).value.1))
  {
    hide Listing, NoOverlap;
    RunInv(states, actions, n);
    RunUpToDate(states, actions, n);
    assert Leads(states[n], actions[n], states[n + 1]);
    var s, a := states[n], actions[n];
    if a.ServeHit? || a.Store? {
      assert TaskOk(s, s.lists[a.task]);
    }
  }

  // ---------------------------------------------------------------- the lifetime as a backstop

  /** Steps one after another, from any state. */
  ghost predicate Chained(states: seq<State>, actions: seq<Action>) {
    |states| == |actions| + 1 && forall i :: 0 <= i < |actions| ==> Leads(states[i], actions[i], states[i + 1])
  }

  /** What the action returns, if it returns anything, is a listing of the table as it is. */
  ghost predicate ReturnsCurrent(s: State, a: Action) {
    && s.history != [] && Enabled(s, a)
    && (Returned(s, a).Some? ==> Listing(s.Current(), Returned(s, a).value.0, Returned(s, a).value.1))
  }

  /** The rows that List calls have queried and not stored yet are listings of the table as it is. */
  ghost predicate HeldRowsCurrent(s: State)
    requires s.history != []
  {
    forall k :: k in s.lists && s.lists[k].HasRows? ==> Listing(s.Current(), s.lists[k].limit, s.lists[k].rows)
  }

  /** The entry was stored by time t, or holds a listing of the table. */
  ghost predicate OldOrCurrent(limit: int, e: Stored, t: int, table: Table) {
    e.at <= t || Listing(table, limit, e.rows)
  }

  /** The table has not changed since time t, when no List held other rows than its own. */
  ghost predicate Quiet(s: State, t: int, table: Table) {
    && s.history != [] && s.Current() == table && HeldRowsCurrent(s)
    && (forall limit :: limit in s.cache ==> OldOrCurrent(limit, s.cache[limit], t, table))
    && (forall k :: k in s.lists && s.lists[k].Found? ==>
                    OldOrCurrent(s.lists[k].limit, s.lists[k].entry, t, table))
  }

  lemma QuietStarts(s: State)
    requires Inv(s) && HeldRowsCurrent(s)
    ensures Quiet(s, s.now, s.Current())
  {
    hide Listing, Snapshot;
    forall k | k in s.lists && s.lists[k].Found? ensures s.lists[k].entry.at <= s.now {
      assert TaskOk(s, s.lists[k]);
    }
  }

  lemma StepKeepsQuiet(s: State, a: Action, t: int, table: Table)
    requires Quiet(s, t, table) && Enabled(s, a) && !a.Commit?
    ensures Quiet(Apply(s, a), t, table)
  {
    hide Listing;
  }

  lemma {:induction false} StaysQuiet(states: seq<State>, actions: seq<Action>, n: nat)
    requires Chained(states, actions) && n < |states| && Inv(states[0]) && HeldRowsCurrent(states[0])
    requires forall i :: 0 <= i < n ==> !actions[i].Commit?
    ensures Quiet(states[n], states[0].now, states[0].Current())
  {
    hide Enabled, Apply, HeldRowsCurrent;
    if n == 0 {
      QuietStarts(states[0]);
    } else {
      StaysQuiet(states, actions, n - 1);
      assert Leads(states[n - 1], actions[n - 1], states[n]);
      StepKeepsQuiet(states[n - 1], actions[n - 1], states[0].now, states[0].Current());
    }
  }

  lemma QuietReturnsCurrent(s: State, a: Action, t: int, table: Table)
    requires Quiet(s, t, table) && Enabled(s, a) && s.now >= t + 2_000_000_000
    ensures ReturnsCurrent(s, a)
  {
    hide Listing;
  }

  /** However a run goes on from here without another write, from one lifetime later on every List returns the table's
      rows. */
  ghost predicate CurrentAfterLifetime(s: State) {
    forall states: seq<State>, actions: seq<Action>, n: nat ::
      && Chained(states, actions) && states[0] == s && n < |actions|
      && (forall i :: 0 <= i < n ==> !actions[i].Commit?)
      && states[n].now >= s.now + 2_000_000_000
      ==> ReturnsCurrent(states[n], actions[n])
  }

  /** Rows that no longer list the table can be stored, and returned, however long after the write. */
  lemma HeldRowsSurface(s: State, k: nat, wait: nat)
    requires s.history != [] && k in s.lists && s.lists[k].HasRows? && wait >= 2_000_000_000
    requires !Listing(s.Current(), s.lists[k].limit, s.lists[k].rows)
    ensures !CurrentAfterLifetime(s)
  {
    hide Listing;
    var later := Apply(s, Pass(wait));
    var states, actions := [s, later, Apply(later, Store(k))], [Pass(wait), Store(k)];
    assert Leads(states[0], actions[0], states[1]) && Leads(states[1], actions[1], states[2]);
    assert Chained(states, actions);
    assert !ReturnsCurrent(states[1], actions[1]);
  }

  /** In every reachable state: all results are current again one lifetime later, whatever raced before and however
      the run goes on without a write, exactly when no List holds rows that no longer list the table. */
  lemma CurrentAfterLifetimeIff(states: seq<State>, actions: seq<Action>, m: nat)
    requires IsRun(states, actions) && m < |states|
    ensures states[m].history != []
    ensures CurrentAfterLifetime(states[m]) <==> HeldRowsCurrent(states[m])
  {
    hide Listing, Enabled, Apply, Quiet, ReturnsCurrent, Snapshot, Explained, TaskOk;
    RunInv(states, actions, m);
    var s := states[m];
    if HeldRowsCurrent(s) {
      forall ts: seq<State>, steps: seq<Action>, n: nat |
        && Chained(ts, steps) && ts[0] == s && n < |steps|
        && (forall i :: 0 <= i < n ==> !steps[i].Commit?)
        && ts[n].now >= s.now + 2_000_000_000
        ensures ReturnsCurrent(ts[n], steps[n])
      {
        StaysQuiet(ts, steps, n);
        assert Leads(ts[n], steps[n], ts[n + 1]);
        QuietReturnsCurrent(ts[n], steps[n], s.now, s.Current());
      }
    } else {
      var k :| k in s.lists && s.lists[k].HasRows? && !Listing(s.Current(), s.lists[k].limit, s.lists[k].rows);
      HeldRowsSurface(s, k, 2_000_000_000);
    }
  }

  /** Two seconds after a moment when no List held rows that no longer list the table, and without a write since, every
      List returns the table's rows again, whatever raced before. */
  lemma StaleAtMostTwoSeconds(states: seq<State>, actions: seq<Action>, m: nat, n: nat)
    requires IsRun(states, actions) && m <= n < |actions|
    requires states[m].history != [] && HeldRowsCurrent(states[m])
    requires forall i :: m <= i < n ==> !actions[i].Commit?
    requires states[n].now >= states[m].now + 2_000_000_000
    ensures ReturnsCurrent(states[n], actions[n])
  {
    hide Listing, Enabled, Apply, Leads, HeldRowsCurrent, ReturnsCurrent;
    CurrentAfterLifetimeIff(states, actions, m);
    var ts, steps := states[m..], actions[m..];
    assert Chained(ts, steps);
    assert ReturnsCurrent(ts[n - m], steps[n - m]);
  }

  // ---------------------------------------------------------------- a run that outlives the lifetime

  /** A List queries the empty table, is overtaken by a Persist, and stores its rows only after some time; a second
      List finds them. */
  function Overtaken(value: Value, wait: nat): seq<Action> {
    [Lookup(0, 0), Query(0, []), Commit([value]), Invalidate(1), Pass(wait), Store(0), Lookup(1, 0), ServeHit(1)]
  }

  lemma QueryOvertaken(value: Value, table: Table)
    requires table == Upsert(map[], [value], 0)
    ensures Leads(INIT, Lookup(0, 0), State([map[]], map[], map[0 := NeedsQuery(0)], map[], 0, 1))
    ensures var held := map[0 := HasRows(0, [], 0)];
            var queried := State([map[]], map[], held, map[], 0, 2);
            var written := State([map[], table], map[], held, map[], 0, 3);
            && Leads(State([map[]], map[], map[0 := NeedsQuery(0)], map[], 0, 1), Query(0, []), queried)
            && Leads(queried, Commit([value]), written)
            && Leads(written, Invalidate(1), State([map[], table], map[], held, map[1 := 3], 0, 4))
  {
    hide Upsert;
    assert [map[]] + [table] == [map[], table];
  }

  lemma StoredLate(history: seq<Table>, wait: nat)
    requires history != []
    ensures var held, stale := map[0 := HasRows(0, [], 0)], Stored([], wait, 0, 5);
            var waited := State(history, map[], held, map[1 := 3], wait, 5);
            var stored := State(history, map[0 := stale], map[], map[1 := 3], wait, 6);
            var found := State(history, map[0 := stale], map[1 := Found(0, stale)], map[1 := 3], wait, 7);
            && Leads(State(history, map[], held, map[1 := 3], 0, 4), Pass(wait), waited)
            && Leads(waited, Store(0), stored) && Returned(waited, Store(0)) == Some((0, []))
            && Leads(stored, Lookup(1, 0), found)
            && Leads(found, ServeHit(1), State(history, map[0 := stale], map[], map[1 := 3], wait, 8))
            && Returned(found, ServeHit(1)) == Some((0, []))
  {
  }

  lemma OneRow(value: Value)
    ensures var table := Upsert(map[], [value], 0); value.key in table && !Listing(table, 0, [])
  {
    assert [value][..0] == [];
  }

  /** With a List this slow, any time after the only write both calls return no rows of a table that has one. */
  lemma SlowListSurfaces(value: Value, wait: nat) returns (states: seq<State>)
    ensures IsRun(states, Overtaken(value, wait))
    ensures states[2].now == states[3].now && states[5].now == states[2].now + wait
    ensures states[5].history != [] && states[7].history == states[5].history
    ensures value.key in states[5].Current() && !Listing(states[5].Current(), 0, [])
    ensures Leads(states[5], Store(0), states[6]) && Returned(states[5], Store(0)) == Some((0, []))
    ensures Leads(states[7], ServeHit(1), states[8]) && Returned(states[7], ServeHit(1)) == Some((0, []))
  {
    hide Leads, Enabled, Apply, Returned, Listing, Upsert;
    var table := Upsert(map[], [value], 0);
    OneRow(value);
    QueryOvertaken(value, table);
    StoredLate([map[], table], wait);
    var before, after := [map[]], [map[], table];
    var held, stale := map[0 := HasRows(0, [], 0)], Stored([], wait, 0, 5);
    states := [
      INIT,
      State(before, map[], map[0 := NeedsQuery(0)], map[], 0, 1),
      State(before, map[], held, map[], 0, 2),
      State(after, map[], held, map[], 0, 3),
      State(after, map[], held, map[1 := 3], 0, 4),
      State(after, map[], held, map[1 := 3], wait, 5),
      State(after, map[0 := stale], map[], map[1 := 3], wait, 6),
      State(after, map[0 := stale], map[1 := Found(0, stale)], map[1 := 3], wait, 7),
      State(after, map[0 := stale], map[], map[1 := 3], wait, 8)
    ];
  }
}
