/** The record store of db.js: the two tables the server reads, and the
    prepared queries as functions of the table contents. The column values the
    queries round or average (temperature, humidity, battery levels, message
    text) are an opaque payload. */
module Store {
  import opened JsValues
  import opened Seqs

  /** A row of `measurements` or `debug_messages`. */
  datatype Row = Row(id: int, nodeId: int, timestamp: int, payload: string)

  /** The database: both tables in storage order and the ids of the known
      nodes (the `nodes` table the measurement and debug queries join with). */
  datatype Db = Db(measurements: seq<Row>, debugMessages: seq<Row>, nodes: set<int>)

  /** The object `{timestamp, lastId}` the broadcaster hands to a fetch. */
  datatype FetchArgs = FetchArgs(timestamp: JsNum, lastId: JsNum)

  /** `id` is the primary key of both tables. */
  predicate UniqueIds(t: seq<Row>) {
    forall i, j :: 0 <= i < j < |t| ==> t[i].id != t[j].id
  }

  predicate WellFormed(db: Db) {
    UniqueIds(db.measurements) && UniqueIds(db.debugMessages)
  }

  predicate IdsAscending(rs: seq<Row>) {
    forall i, j :: 0 <= i < j < |rs| ==> rs[i].id < rs[j].id
  }

  function ById(r: Row): int { r.id }

  function ByTimestamp(r: Row): int { r.timestamp }

  function ByNewest(r: Row): int { -r.timestamp }

  /** `WHERE timestamp > @timestamp AND id > @id`, together with the inner
      join that drops rows of unknown nodes. */
  predicate Selected(nodes: set<int>, r: Row, timestamp: int, id: int) {
    r.nodeId in nodes && r.timestamp > timestamp && r.id > id
  }

  /** `WHERE @start <= timestamp AND timestamp < @end`. */
  predicate InWindow(r: Row, start: int, end: int) {
    start <= r.timestamp < end
  }

  /** Rows drawn from a table with a primary key and ordered by id have
      strictly increasing ids. */
  lemma AscendingById(r: seq<Row>, t: seq<Row>)
    requires SortedBy(r, ById) && multiset(r) <= multiset(t)
    ensures UniqueIds(t) ==> IdsAscending(r)
  {
    if UniqueIds(t) {
      assert NoDup(t);
      NoDupOfSubMultiset(r, t);
      forall i, j | 0 <= i < j < |r| ensures r[i].id < r[j].id {
        assert ById(r[i]) <= ById(r[j]);
        assert r[i] in multiset(r) && r[j] in multiset(r);
        var a :| 0 <= a < |t| && t[a] == r[i];
        var b :| 0 <= b < |t| && t[b] == r[j];
        assert a != b;
        assert t[a].id != t[b].id;
      }
    }
  }

  /** The `measurements` query: rows of known nodes newer than both
      `timestamp` and `id`, ordered by id. */
  function Measurements(db: Db, timestamp: int, id: int): (r: seq<Row>)
    ensures forall x :: x in r <==> x in db.measurements && Selected(db.nodes, x, timestamp, id)
    ensures multiset(r) <= multiset(db.measurements)
    ensures SortedBy(r, ById)
    ensures WellFormed(db) ==> IdsAscending(r)
  {
    var matching := Filter(db.measurements, (x: Row) => Selected(db.nodes, x, timestamp, id));
    var sorted := SortBy(matching, ById);
    AscendingById(sorted, db.measurements);
    sorted
  }

  /** `getMeasurements({timestamp, lastId})`: a falsy argument becomes -1. */
  function GetMeasurements(db: Db, args: FetchArgs): seq<Row> {
    Measurements(db, OrElse(args.timestamp, -1), OrElse(args.lastId, -1))
  }

  /** An absent or zero argument is the same as -1: no lower bound on ids
      (or on timestamps, which are positive). */
  lemma GetMeasurementsFalsyIsMinusOne(db: Db, timestamp: JsNum, lastId: JsNum)
    ensures !Truthy(lastId) ==> GetMeasurements(db, FetchArgs(timestamp, lastId)) == Measurements(db, OrElse(timestamp, -1), -1)
    ensures !Truthy(timestamp) ==> GetMeasurements(db, FetchArgs(timestamp, lastId)) == Measurements(db, -1, OrElse(lastId, -1))
    ensures Truthy(timestamp) && Truthy(lastId) ==> GetMeasurements(db, FetchArgs(timestamp, lastId)) == Measurements(db, timestamp.n, lastId.n)
  {
  }

  /** The `debugMessages` query: rows of known nodes newer than `timestamp`
      and `id`, newest first, at most `limit` of them when `limit` is not
      negative (SQLite reads a negative LIMIT as no limit). A matching row is
      left out only when the limit is reached, and then it is no newer than
      any row returned. */
  function DebugMessages(db: Db, timestamp: int, id: int, limit: int): (r: seq<Row>)
    ensures forall i :: 0 <= i < |r| ==> r[i] in db.debugMessages && Selected(db.nodes, r[i], timestamp, id)
    ensures multiset(r) <= multiset(db.debugMessages)
    ensures SortedBy(r, ByNewest)
    ensures limit >= 0 ==> |r| <= limit
    ensures forall x :: x in db.debugMessages && Selected(db.nodes, x, timestamp, id) && x !in r ==>
              0 <= limit == |r| && forall i :: 0 <= i < |r| ==> x.timestamp <= r[i].timestamp
  {
    var sorted := SortBy(Filter(db.debugMessages, (x: Row) => Selected(db.nodes, x, timestamp, id)), ByNewest);
    LimitKeepsPrefix(sorted, limit, ByNewest);
    Limit(sorted, limit)
  }

  /** The `debugMessages` query with `ORDER BY m.id` in place of
      `ORDER BY m.timestamp DESC`: the same rows, oldest id first, so that a
      limit keeps the rows a cursor reaches first. */
  function DebugMessagesById(db: Db, timestamp: int, id: int, limit: int): (r: seq<Row>)
    ensures forall i :: 0 <= i < |r| ==> r[i] in db.debugMessages && Selected(db.nodes, r[i], timestamp, id)
    ensures multiset(r) <= multiset(db.debugMessages)
    ensures SortedBy(r, ById)
    ensures WellFormed(db) ==> IdsAscending(r)
    ensures limit >= 0 ==> |r| <= limit
    ensures forall x :: x in db.debugMessages && Selected(db.nodes, x, timestamp, id) && x !in r ==>
              0 <= limit == |r| && forall i :: 0 <= i < |r| ==> r[i].id <= x.id
  {
    var sorted := SortBy(Filter(db.debugMessages, (x: Row) => Selected(db.nodes, x, timestamp, id)), ById);
    LimitKeepsPrefix(sorted, limit, ById);
    AscendingById(Limit(sorted, limit), db.debugMessages);
    Limit(sorted, limit)
  }

  /** `getDebugMessages({timestamp, limit, lastId})`: each falsy argument
      becomes -1. */
  function GetDebugMessages(db: Db, timestamp: JsNum, limit: JsNum, lastId: JsNum): seq<Row> {
    DebugMessages(db, OrElse(timestamp, -1), OrElse(lastId, -1), OrElse(limit, -1))
  }

  /** Without a limit every matching debug message is returned. */
  lemma GetDebugMessagesUnlimited(db: Db, timestamp: JsNum, lastId: JsNum, x: Row)
    requires x in db.debugMessages && Selected(db.nodes, x, OrElse(timestamp, -1), OrElse(lastId, -1))
    ensures x in GetDebugMessages(db, timestamp, Undefined, lastId)
    ensures x in GetDebugMessages(db, timestamp, Num(0), lastId)
  {
  }

  /** The `rawMeasurements` query (`getRawMeasurements` passes its arguments
      through): rows in the window [start, end), ordered by timestamp. There
      is no join with `nodes` here. */
  function RawMeasurements(db: Db, start: int, end: int): (r: seq<Row>)
    ensures forall x :: x in r <==> x in db.measurements && InWindow(x, start, end)
    ensures multiset(r) <= multiset(db.measurements)
    ensures SortedBy(r, ByTimestamp)
  {
    var sorted := SortBy(Filter(db.measurements, (x: Row) => InWindow(x, start, end)), ByTimestamp);
    sorted
  }

  /** The GROUP BY key of the `averageMeasurements` query: the time bucket and
      the node. A bucket is NULL (`None`) when the period is 0, because SQLite
      divides by zero to NULL. */
  datatype GroupKey = GroupKey(bucket: Option<int>, nodeId: int)

  /** One output row of `averageMeasurements`: its key and the rows whose
      values it averages. */
  datatype Group = Group(key: GroupKey, members: seq<Row>)

  function Abs(x: int): nat {
    if x < 0 then -x else x
  }

  /** SQLite's integer division, which truncates toward zero. */
  function TruncDiv(a: int, b: int): int
    requires b != 0
  {
    if (a < 0) == (b < 0) then Abs(a) / Abs(b) else -(Abs(a) / Abs(b))
  }

  /** `@period * CAST(timestamp / @period AS INT)`. */
  function Bucket(timestamp: int, period: int): Option<int> {
    if period == 0 then None else Some(period * TruncDiv(timestamp, period))
  }

  function KeyOf(r: Row, period: int): GroupKey {
    GroupKey(Bucket(r.timestamp, period), r.nodeId)
  }

  /** The ORDER BY position of a key (all keys are NULL, or none is). */
  function BucketOrder(k: GroupKey): int {
    if k.bucket.Some? then k.bucket.value else 0
  }

  /** For a positive period and a non-negative time, the bucket is the
      multiple of the period at or just below the time. */
  lemma BucketBounds(timestamp: int, period: int, k: nat)
    requires period > 0 && period * k <= timestamp < period * (k + 1)
    ensures Bucket(timestamp, period) == Some(period * k)
  {
    var q := timestamp / period;
    assert TruncDiv(timestamp, period) == q;
    assert timestamp == period * q + timestamp % period;
    MulCancel(period, k, q + 1);
    MulCancel(period, q, k + 1);
  }

  /** Multiplying by a positive number keeps a strict order, both ways. */
  lemma MulCancel(p: int, a: int, b: int)
    requires p > 0
    ensures p * a < p * b <==> a < b
  {
    assert p * b - p * a == p * (b - a);
  }

  /** A negative period groups exactly as its absolute value does. */
  lemma BucketIgnoresSign(timestamp: int, period: int)
    ensures Bucket(timestamp, -period) == Bucket(timestamp, period)
  {
    if period != 0 {
      var q := Abs(timestamp) / Abs(period);
      assert Abs(-period) == Abs(period);
      assert TruncDiv(timestamp, -period) == -TruncDiv(timestamp, period);
      if (timestamp < 0) == (period < 0) {
        assert TruncDiv(timestamp, period) == q;
        assert -period * -q == period * q;
      } else {
        assert TruncDiv(timestamp, period) == -q;
        assert -period * q == period * -q;
      }
    }
  }

  /** Times before 1970 round toward zero, not down: for a positive period
      and a time at or below zero, the bucket is the multiple of the period
      at or just above the time. */
  lemma BucketTruncatesTowardZero(timestamp: int, period: int, k: nat)
    requires period > 0 && -(period * (k + 1)) < timestamp <= -(period * k)
    ensures Bucket(timestamp, period) == Some(-(period * k))
  {
    var u := -timestamp;
    BucketBounds(u, period, k);
    assert TruncDiv(u, period) == u / period;
    if timestamp < 0 {
      assert TruncDiv(timestamp, period) == -(u / period);
      assert period * -(u / period) == -(period * (u / period));
    } else {
      assert u == 0;
      MulCancel(period, 0, k);
    }
  }

  /** The key of each row, in row order. */
  function KeysOf(rows: seq<Row>, period: int): (ks: seq<GroupKey>)
    ensures |ks| == |rows| && forall i :: 0 <= i < |rows| ==> ks[i] == KeyOf(rows[i], period)
  {
    seq(|rows|, i requires 0 <= i < |rows| => KeyOf(rows[i], period))
  }

  /** The distinct keys of `rows`, ordered by bucket. */
  function GroupKeys(rows: seq<Row>, period: int): (keys: seq<GroupKey>)
    ensures NoDup(keys)
    ensures SortedBy(keys, BucketOrder)
    ensures forall x :: x in rows ==> KeyOf(x, period) in keys
    ensures forall k :: k in keys ==> k in KeysOf(rows, period)
  {
    var keys := SortBy(Dedup(KeysOf(rows, period)), BucketOrder);
    NoDupOfSubMultiset(keys, Dedup(KeysOf(rows, period)));
    KeysCoverRows(rows, period, keys);
    keys
  }

  lemma KeysCoverRows(rows: seq<Row>, period: int, keys: seq<GroupKey>)
    requires forall k :: k in keys <==> k in KeysOf(rows, period)
    ensures forall x :: x in rows ==> KeyOf(x, period) in keys
  {
    forall x | x in rows ensures KeyOf(x, period) in keys {
      var k :| 0 <= k < |rows| && rows[k] == x;
      assert KeysOf(rows, period)[k] in KeysOf(rows, period);
    }
  }

  /** A key among the rows' keys belongs to some row. */
  lemma KeyComesFromRow(rows: seq<Row>, period: int, key: GroupKey) returns (j: nat)
    requires key in KeysOf(rows, period)
    ensures j < |rows| && KeyOf(rows[j], period) == key
  {
    var ks := KeysOf(rows, period);
    j :| 0 <= j < |ks| && ks[j] == key;
  }

  function GroupOf(rows: seq<Row>, key: GroupKey, period: int): (g: Group)
    ensures g.key == key
    ensures forall x :: x in g.members <==> x in rows && KeyOf(x, period) == key
  {
    Group(key, Filter(rows, (x: Row) => KeyOf(x, period) == key))
  }

  /** Every key found among `rows` has at least one member. */
  lemma GroupsNonEmpty(rows: seq<Row>, keys: seq<GroupKey>, r: seq<Group>, period: int)
    requires forall k :: k in keys ==> k in KeysOf(rows, period)
    requires |r| == |keys|
    requires forall i :: 0 <= i < |r| ==> forall x :: x in r[i].members <==> x in rows && KeyOf(x, period) == keys[i]
    ensures forall i :: 0 <= i < |r| ==> r[i].members != []
  {
    forall i | 0 <= i < |r| ensures r[i].members != [] {
      assert keys[i] in keys;
      var j := KeyComesFromRow(rows, period, keys[i]);
      assert rows[j] in r[i].members;
    }
  }

  /** Every key found among `rows` is the key of some group. */
  lemma GroupsComplete(rows: seq<Row>, keys: seq<GroupKey>, r: seq<Group>, period: int)
    requires forall x :: x in rows ==> KeyOf(x, period) in keys
    requires |r| == |keys| && forall i :: 0 <= i < |r| ==> r[i].key == keys[i]
    ensures forall x :: x in rows ==> exists i :: 0 <= i < |r| && r[i].key == KeyOf(x, period)
  {
    forall x | x in rows ensures exists i :: 0 <= i < |r| && r[i].key == KeyOf(x, period) {
      var i :| 0 <= i < |keys| && keys[i] == KeyOf(x, period);
      assert r[i].key == KeyOf(x, period);
    }
  }

  /** `rows` grouped by key, one group per key, ordered by bucket. */
  function Groups(rows: seq<Row>, period: int): (r: seq<Group>)
    ensures forall i, j :: 0 <= i < j < |r| ==> BucketOrder(r[i].key) <= BucketOrder(r[j].key)
    ensures forall i, j :: 0 <= i < j < |r| ==> r[i].key != r[j].key
    ensures forall x :: x in rows ==> exists i :: 0 <= i < |r| && r[i].key == KeyOf(x, period)
    ensures forall i :: 0 <= i < |r| ==> r[i].members != []
    ensures forall i :: 0 <= i < |r| ==> forall x :: x in r[i].members <==> x in rows && KeyOf(x, period) == r[i].key
  {
    var keys := GroupKeys(rows, period);
    var r := GroupsOf(rows, keys, period);
    GroupsComplete(rows, keys, r, period);
    GroupsNonEmpty(rows, keys, r, period);
    r
  }

  /** One group per key, in the order of `keys`. */
  function GroupsOf(rows: seq<Row>, keys: seq<GroupKey>, period: int): (r: seq<Group>)
    ensures |r| == |keys|
    ensures forall i :: 0 <= i < |r| ==> r[i].key == keys[i]
    ensures forall i :: 0 <= i < |r| ==> forall x :: x in r[i].members <==> x in rows && KeyOf(x, period) == keys[i]
  {
    seq(|keys|, i requires 0 <= i < |keys| => GroupOf(rows, keys[i], period))
  }

  /** The `averageMeasurements` query (`getAverageMeasurements` passes its
      arguments through): the rows in [start, end) grouped by bucket and
      node, one group per key, ordered by bucket. */
  function AverageMeasurements(db: Db, start: int, end: int, period: int): (r: seq<Group>)
    ensures forall i, j :: 0 <= i < j < |r| ==> BucketOrder(r[i].key) <= BucketOrder(r[j].key)
    ensures forall i, j :: 0 <= i < j < |r| ==> r[i].key != r[j].key
    ensures forall x :: x in db.measurements && InWindow(x, start, end) ==>
              exists i :: 0 <= i < |r| && r[i].key == KeyOf(x, period)
    ensures forall i :: 0 <= i < |r| ==> r[i].members != []
    ensures forall i :: 0 <= i < |r| ==> forall x :: x in r[i].members <==>
              x in db.measurements && InWindow(x, start, end) && KeyOf(x, period) == r[i].key
  {
    var rows := Filter(db.measurements, (x: Row) => InWindow(x, start, end));
    assert forall x :: x in rows <==> x in db.measurements && InWindow(x, start, end);
    Groups(rows, period)
  }
}
