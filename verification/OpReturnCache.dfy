/** The OP_RETURN table and its read-through list cache, one call at a time. */
module OpReturnCache {
  import opened Wrappers

  /** Lifetime of a cached list, in nanoseconds. */
  const TTL := 2_000_000_000

  datatype Key = Key(txid: string, vout: int)

  datatype Row = Row(key: Key, data: seq<int>, fee: int, height: Option<nat>, createdAt: int)

  /** A value to persist; without a creation time it gets the current one. */
  datatype Value = Value(key: Key, data: seq<int>, fee: int, height: Option<nat>, createdAt: Option<int>)

  type Table = map<Key, Row>

  /** INSERT ... ON CONFLICT (txid, vout) DO UPDATE, which keeps the creation time of an existing row. */
  function Upsert(t: Table, values: seq<Value>, now: int): Table {
    if values == [] then t
    else
      var before := Upsert(t, values[..|values| - 1], now);
      var v := values[|values| - 1];
      if v.key in before then before[v.key := before[v.key].(data := v.data, fee := v.fee, height := v.height)]
      else before[v.key := Row(v.key, v.data, v.fee, v.height, if v.createdAt.Some? then v.createdAt.value else now)]
  }

  predicate Keyed(t: Table) { forall k :: k in t ==> t[k].key == k }

  predicate Listed(rows: seq<Row>, k: Key) { exists i :: 0 <= i < |rows| && rows[i].key == k }

  function Cap(t: Table, limit: int): nat { if 0 < limit < |t| then limit else |t| }

  /** The newest rows of the table, at most `limit` of them when that is positive; ties in any order. */
  ghost predicate Listing(t: Table, limit: int, rows: seq<Row>) {
    && |rows| == Cap(t, limit)
    && (forall i :: 0 <= i < |rows| ==> rows[i].key in t && rows[i] == t[rows[i].key])
    && (forall i, j :: 0 <= i < j < |rows| ==> rows[i].key != rows[j].key && rows[i].createdAt >= rows[j].createdAt)
    && (forall k, i :: k in t && !Listed(rows, k) && 0 <= i < |rows| ==> rows[i].createdAt >= t[k].createdAt)
  }

  datatype Entry = Entry(rows: seq<Row>, at: int)

  class OpReturns {
    var table: Table
    var cache: map<int, Entry>

    /** Every cached list is the one the table would give. */
    ghost predicate Valid()
      reads this
    {
      Keyed(table) && forall limit :: limit in cache ==> Listing(table, limit, cache[limit].rows)
    }

    constructor ()
      ensures Valid() && table == map[] && cache == map[]
    {
      table, cache := map[], map[];
    }

    /** The SELECT behind List. */
    method Query(limit: int) returns (rows: seq<Row>)
      requires Keyed(table)
      ensures Listing(table, limit, rows)
    {
      assert Picked(table, [], table);
      hide Listed;
      rows := [];
      var left := table;
      while |rows| < Cap(table, limit)
        invariant |rows| + |left| == |table| && |rows| <= Cap(table, limit)
        invariant Picked(table, rows, left)
        decreases |left|
      {
        var k := Newest(left);
        PickedMore(table, rows, left, k);
        rows := rows + [left[k]];
        left := left - {k};
      }
    }

    method Newest(t: Table) returns (k: Key)
      requires t != map[]
      ensures k in t && forall other :: other in t ==> t[other].createdAt <= t[k].createdAt
    {
      var left := t.Keys;
      k :| k in left;
      left := left - {k};
      while left != {}
        invariant k in t && left <= t.Keys
        invariant forall other :: other in t && other !in left ==> t[other].createdAt <= t[k].createdAt
        decreases |left|
      {
        var next :| next in left;
        left := left - {next};
        k := if t[next].createdAt > t[k].createdAt then next else k;
      }
    }

    /** `checked` is the clock when the cached entry is examined, `stored` the clock when rows are put in the cache. */
    method List(limit: int, checked: int, stored: int) returns (rows: seq<Row>)
      requires Valid()
      modifies this`cache
      ensures Valid() && Listing(table, limit, rows)
      ensures |rows| == if 0 < limit < |table| then limit else |table|
      ensures forall i :: 0 <= i < |rows| ==> rows[i].key in table && rows[i] == table[rows[i].key]
      ensures forall i, j :: 0 <= i < j < |rows| ==>
                rows[i].key != rows[j].key && rows[i].createdAt >= rows[j].createdAt
      ensures forall k, i :: k in table && 0 <= i < |rows| && (forall j :: 0 <= j < |rows| ==> rows[j].key != k) ==>
                rows[i].createdAt >= table[k].createdAt
      ensures var hit := limit in old(cache) && checked - old(cache[limit].at) < 2_000_000_000;
              if hit then rows == old(cache[limit].rows) && cache == old(cache)
              else cache == old(cache)[limit := Entry(rows, stored)]
    {
      if limit in cache && checked - cache[limit].at < TTL {
        return cache[limit].rows;
      }
      rows := Query(limit);
      cache := cache[limit := Entry(rows, stored)];
    }

    method Persist(values: seq<Value>, now: int)
      requires Valid()
      modifies this
      ensures Valid() && table == Upsert(old(table), values, now)
      ensures cache == if values == [] then old(cache) else map[]
    {
      if values == [] {
        return;
      }
      UpsertKeyed(table, values, now);
      table := Upsert(table, values, now);
      InvalidateCaches();
    }

    method InvalidateCaches()
      modifies this`cache
      ensures cache == map[]
    {
      cache := map[];
    }
  }

  /** The rows are the newest of the table in order, and `left` is the rest of it. */
  ghost predicate Picked(t: Table, rows: seq<Row>, left: Table) {
    && (forall k :: k in left ==> k in t && left[k] == t[k])
    && (forall k :: k in t ==> (k in left <==> !Listed(rows, k)))
    && (forall i :: 0 <= i < |rows| ==> rows[i].key in t && rows[i] == t[rows[i].key])
    && (forall i, j :: 0 <= i < j < |rows| ==> rows[i].key != rows[j].key && rows[i].createdAt >= rows[j].createdAt)
    && (forall k, i :: k in left && 0 <= i < |rows| ==> rows[i].createdAt >= left[k].createdAt)
  }

  lemma PickedMore(t: Table, rows: seq<Row>, left: Table, k: Key)
    requires Keyed(t) && Picked(t, rows, left) && k in left
    requires forall other :: other in left ==> left[other].createdAt <= left[k].createdAt
    ensures Picked(t, rows + [left[k]], left - {k})
  {
    var more := rows + [left[k]];
    forall key ensures Listed(more, key) <==> Listed(rows, key) || key == k {
      ListedMore(rows, left[k], key);
    }
    forall i | 0 <= i < |rows| ensures rows[i].key != k && rows[i].createdAt >= left[k].createdAt {
      assert Listed(rows, rows[i].key);
    }
  }

  lemma ListedMore(rows: seq<Row>, r: Row, k: Key)
    ensures Listed(rows + [r], k) <==> Listed(rows, k) || k == r.key
  {
    var more := rows + [r];
    if Listed(rows, k) {
      var i :| 0 <= i < |rows| && rows[i].key == k;
      assert more[i].key == k;
    }
    if k == r.key {
      assert more[|rows|].key == k;
    }
  }

  lemma {:induction false} UpsertKeyed(t: Table, values: seq<Value>, now: int)
    requires Keyed(t)
    ensures Keyed(Upsert(t, values, now))
  {
    if values != [] {
      UpsertKeyed(t, values[..|values| - 1], now);
    }
  }

  /** A persisted value is what a later reader finds under its key, unless a later value of the batch replaced it. */
  lemma {:induction false} UpsertTakes(t: Table, values: seq<Value>, now: int, i: nat)
    requires i < |values| && forall j :: i < j < |values| ==> values[j].key != values[i].key
    ensures var r, v := Upsert(t, values, now), values[i];
            v.key in r && r[v.key].data == v.data && r[v.key].fee == v.fee && r[v.key].height == v.height
    ensures values[i].key in t ==> Upsert(t, values, now)[values[i].key].createdAt == t[values[i].key].createdAt
  {
    var front := values[..|values| - 1];
    UpsertKeeps(t, front, now);
    if i < |front| {
      UpsertTakes(t, front, now, i);
    }
  }

  /** Upserting never drops a row or changes its creation time. */
  lemma {:induction false} UpsertKeeps(t: Table, values: seq<Value>, now: int)
    ensures forall k :: k in t ==> k in Upsert(t, values, now) && Upsert(t, values, now)[k].createdAt == t[k].createdAt
  {
    if values != [] {
      UpsertKeeps(t, values[..|values| - 1], now);
    }
  }

  /** The first value for a new key makes its row, created at the time given with it or now... */
  lemma {:induction false} UpsertCreates(t: Table, values: seq<Value>, now: int, i: nat)
    requires i < |values| && values[i].key !in t && forall j :: 0 <= j < i ==> values[j].key != values[i].key
    ensures var r, v := Upsert(t, values, now), values[i];
            v.key in r && r[v.key].createdAt == match v.createdAt case Some(at) => at case None => now
  {
    var front := values[..|values| - 1];
    if i < |front| {
      UpsertCreates(t, front, now, i);
    } else {
      UpsertRest(t, front, now, values[i].key);
    }
  }

  /** ...and rows under other keys are left alone. */
  lemma {:induction false} UpsertRest(t: Table, values: seq<Value>, now: int, k: Key)
    requires forall j :: 0 <= j < |values| ==> values[j].key != k
    ensures var r := Upsert(t, values, now);
            (k in r <==> k in t) && (k in t ==> r[k] == t[k])
  {
    if values != [] {
      UpsertRest(t, values[..|values| - 1], now, k);
    }
  }
}
