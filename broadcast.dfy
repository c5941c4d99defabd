/** The live delta-sync broadcaster of app.js: a `WebSocketWrapper` per
    connected client, holding the cursor `lastId`; a `WebSocketHandler` per
    topic, holding the list `cacheList` of wrappers and the topic's fetch; and
    the timer tick that asks every handler to poll once. */
module Broadcast {
  import opened JsValues
  import opened Seqs
  import opened Store

  /** `defaultIntervalInSeconds`: how far back a fetch looks when it has
      neither a time nor a cursor. */
  const DefaultIntervalInSeconds := 2 * 60

  /** How one `ws.send` ended: the callback reported success, the callback
      reported an error, or the call threw. */
  datatype SendOutcome = Delivered | ErrorCallback | Thrown

  /** The state of one wrapper and its socket: the cursor, whether the socket
      is still open, and the messages it has delivered, in order. */
  datatype Subscriber = Subscriber(lastId: int, open: bool, delivered: seq<Row>)

  /** `send(m)` when the socket's answer is `outcome`: a message at or below
      the cursor is skipped; a delivered one moves the cursor to its id; a
      failed one closes the socket and leaves the cursor where it was. */
  function Step(s: Subscriber, m: Row, outcome: SendOutcome): Subscriber {
    if s.lastId < m.id then
      if outcome == Delivered then s.(lastId := m.id, delivered := s.delivered + [m])
      else s.(open := false)
    else s
  }

  /** `rows.forEach((m) => cws.send(m))`; the k-th send ends with `outcome(k)`. */
  function Offer(s: Subscriber, rows: seq<Row>, outcome: nat -> SendOutcome): Subscriber
    decreases |rows|
  {
    if rows == [] then s
    else Step(Offer(s, rows[..|rows| - 1], outcome), rows[|rows| - 1], outcome(|rows| - 1))
  }

  /** A wrapper's invariant: it has delivered messages in strictly increasing
      id order, and its cursor is the id of the last one it delivered. */
  predicate Consistent(s: Subscriber) {
    IdsAscending(s.delivered) && (s.delivered != [] ==> s.delivered[|s.delivered| - 1].id == s.lastId)
  }

  /** The rows a subscriber at cursor `c` accepts, in their order. */
  function Newer(rows: seq<Row>, c: int): (r: seq<Row>)
    ensures forall x :: x in r <==> x in rows && x.id > c
  {
    if rows == [] then []
    else
      var p := rows[..|rows| - 1];
      var m := rows[|rows| - 1];
      assert rows == p + [m];
      Newer(p, c) + (if m.id > c then [m] else [])
  }

  lemma {:induction false} NewerAscending(rows: seq<Row>, c: int)
    requires IdsAscending(rows)
    ensures IdsAscending(Newer(rows, c))
  {
    if rows != [] {
      var p := rows[..|rows| - 1];
      var m := rows[|rows| - 1];
      assert IdsAscending(p);
      NewerAscending(p, c);
      var q := Newer(p, c);
      forall i | 0 <= i < |q| ensures q[i].id < m.id {
        assert q[i] in p;
      }
    }
  }

  lemma StepKeepsConsistent(s: Subscriber, m: Row, outcome: SendOutcome)
    requires Consistent(s)
    ensures Consistent(Step(s, m, outcome))
  {
    var d := s.delivered;
    assert forall i :: 0 <= i < |d| ==> d[i].id <= s.lastId by {
      forall i | 0 <= i < |d| ensures d[i].id <= s.lastId {
        assert i == |d| - 1 || d[i].id < d[|d| - 1].id;
      }
    }
  }

  /** Offering any rows with any outcomes keeps a wrapper consistent. */
  lemma {:induction false} OfferKeepsConsistent(s: Subscriber, rows: seq<Row>, outcome: nat -> SendOutcome)
    requires Consistent(s)
    ensures Consistent(Offer(s, rows, outcome))
  {
    if rows != [] {
      OfferKeepsConsistent(s, rows[..|rows| - 1], outcome);
      StepKeepsConsistent(Offer(s, rows[..|rows| - 1], outcome), rows[|rows| - 1], outcome(|rows| - 1));
    }
  }

  /** Whatever the outcomes: the cursor never goes back, it moves only to the
      id of a message just delivered, what was delivered before stays, every
      newly delivered message is one of `rows` above the old cursor, and a
      closed socket stays closed. */
  lemma {:induction false} OfferMonotone(s: Subscriber, rows: seq<Row>, outcome: nat -> SendOutcome)
    ensures var r := Offer(s, rows, outcome);
      && r.lastId >= s.lastId
      && |s.delivered| <= |r.delivered| && r.delivered[..|s.delivered|] == s.delivered
      && (forall i :: |s.delivered| <= i < |r.delivered| ==> r.delivered[i] in rows && r.delivered[i].id > s.lastId)
      && (r.lastId != s.lastId ==> |r.delivered| > |s.delivered| && r.delivered[|r.delivered| - 1].id == r.lastId)
      && (r.open ==> s.open)
  {
    if rows != [] {
      var p := rows[..|rows| - 1];
      OfferMonotone(s, p, outcome);
      var t := Offer(s, p, outcome);
      var m := rows[|rows| - 1];
      var r := Step(t, m, outcome(|rows| - 1));
      assert forall x :: x in p ==> x in rows;
      if t.lastId < m.id && outcome(|rows| - 1) == Delivered {
        assert r.delivered == t.delivered + [m];
        assert r.delivered[..|t.delivered|] == t.delivered;
        assert r.delivered[..|s.delivered|] == t.delivered[..|s.delivered|];
      }
    }
  }

  /** A subscriber offers nothing new when every row is at or below its cursor. */
  lemma {:induction false} OfferSkipsStale(s: Subscriber, rows: seq<Row>, outcome: nat -> SendOutcome)
    requires forall x :: x in rows ==> x.id <= s.lastId
    ensures Offer(s, rows, outcome) == s
  {
    if rows != [] {
      assert rows[|rows| - 1] in rows;
      assert forall x :: x in rows[..|rows| - 1] ==> x in rows;
      OfferSkipsStale(s, rows[..|rows| - 1], outcome);
    }
  }

  /** When rows come in increasing id order and every send succeeds, the
      subscriber receives exactly the rows above its cursor, in order, and
      its cursor ends at the last of them. */
  lemma {:induction false} OfferDeliversNewer(s: Subscriber, rows: seq<Row>, outcome: nat -> SendOutcome)
    requires IdsAscending(rows)
    requires forall k :: 0 <= k < |rows| ==> outcome(k) == Delivered
    ensures Offer(s, rows, outcome).delivered == s.delivered + Newer(rows, s.lastId)
    ensures Offer(s, rows, outcome).open == s.open
    ensures Offer(s, rows, outcome).lastId ==
      if Newer(rows, s.lastId) == [] then s.lastId else Newer(rows, s.lastId)[|Newer(rows, s.lastId)| - 1].id
  {
    if rows != [] {
      var n := |rows| - 1;
      var p := rows[..n];
      var m := rows[n];
      OfferDeliversNewer(s, p, outcome);
      var t := Offer(s, p, outcome);
      var q := Newer(p, s.lastId);
      assert Offer(s, rows, outcome) == Step(t, m, Delivered);
      assert Newer(rows, s.lastId) == q + (if m.id > s.lastId then [m] else []);
      if q != [] {
        assert q[|q| - 1] in p;
      }
      StepDelivers(s, t, q, m);
    }
  }

  /** The last step of `OfferDeliversNewer`: a delivered row above the cursor
      extends what was delivered so far. */
  lemma StepDelivers(s: Subscriber, t: Subscriber, q: seq<Row>, m: Row)
    requires t.delivered == s.delivered + q && t.open == s.open
    requires t.lastId == if q == [] then s.lastId else q[|q| - 1].id
    requires q != [] ==> s.lastId < q[|q| - 1].id < m.id
    ensures var q' := q + (if m.id > s.lastId then [m] else []);
      && Step(t, m, Delivered).delivered == s.delivered + q'
      && Step(t, m, Delivered).open == s.open
      && Step(t, m, Delivered).lastId == if q' == [] then s.lastId else q'[|q'| - 1].id
  {
    if m.id > s.lastId {
      assert (s.delivered + q) + [m] == s.delivered + (q + [m]);
    }
  }

  /** One more row offered is one more `Step`. */
  lemma OfferSnoc(s: Subscriber, rows: seq<Row>, k: nat, outcome: nat -> SendOutcome)
    requires k < |rows|
    ensures Offer(s, rows[..k + 1], outcome) == Step(Offer(s, rows[..k], outcome), rows[k], outcome(k))
  {
    assert rows[..k + 1][..k] == rows[..k];
  }

  /** A whole topic offered the same rows: subscriber j's sends end as
      `outcome(j)` says. */
  function OfferEach(subs: seq<Subscriber>, rows: seq<Row>, outcome: nat -> nat -> SendOutcome): (r: seq<Subscriber>)
    ensures |r| == |subs|
    ensures forall j :: 0 <= j < |subs| ==> r[j] == Offer(subs[j], rows, outcome(j))
  {
    seq(|subs|, j requires 0 <= j < |subs| => Offer(subs[j], rows, outcome(j)))
  }

  /** One poll keeps every subscriber of the topic consistent. */
  lemma OfferEachKeepsConsistent(subs: seq<Subscriber>, rows: seq<Row>, outcome: nat -> nat -> SendOutcome)
    requires forall j :: 0 <= j < |subs| ==> Consistent(subs[j])
    ensures forall j :: 0 <= j < |subs| ==> Consistent(OfferEach(subs, rows, outcome)[j])
  {
    forall j | 0 <= j < |subs| ensures Consistent(OfferEach(subs, rows, outcome)[j]) {
      OfferKeepsConsistent(subs[j], rows, outcome(j));
    }
  }

  /** Offering the same ascending rows a second time, after every send of the
      first round succeeded, changes nothing: a repeated fetch with no new data
      sends nothing. */
  lemma RedeliveryIsIdempotent(s: Subscriber, rows: seq<Row>, first: nat -> SendOutcome, second: nat -> SendOutcome)
    requires IdsAscending(rows)
    requires forall k :: 0 <= k < |rows| ==> first(k) == Delivered
    ensures Offer(Offer(s, rows, first), rows, second) == Offer(s, rows, first)
  {
    OfferDeliversNewer(s, rows, first);
    var r := Offer(s, rows, first);
    var q := Newer(rows, s.lastId);
    forall x | x in rows ensures x.id <= r.lastId {
      if x.id > s.lastId {
        assert x in q;
        var i :| 0 <= i < |q| && q[i] == x;
        assert i == |q| - 1 || q[i].id < q[|q| - 1].id;
      } else if q != [] {
        assert q[|q| - 1] in q;
      }
    }
    OfferSkipsStale(r, rows, second);
  }

  /** `Math.min` over a non-empty list of cursors. */
  function Min(s: seq<int>): (m: int)
    requires s != []
    ensures m in s && forall x :: x in s ==> m <= x
  {
    if |s| == 1 then s[0]
    else
      var t := Min(s[1..]);
      assert forall x :: x in s ==> x == s[0] || x in s[1..];
      if s[0] <= t then s[0] else t
  }

  /** The store call a handler is built with: the measurements handler gets
      `db.getMeasurements`, the debug handler `db.getDebugMessages`. */
  type FetchFn = (Db, FetchArgs) -> seq<Row>

  /** `db.getDebugMessages` as the broadcaster calls it: never with a limit. */
  function DebugFetch(db: Db, args: FetchArgs): seq<Row> {
    GetDebugMessages(db, args.timestamp, Undefined, args.lastId)
  }

  /** The debug fetch with the query ordered by id (`DebugMessagesById`). */
  function DebugFetchById(db: Db, args: FetchArgs): seq<Row> {
    DebugMessagesById(db, OrElse(args.timestamp, -1), OrElse(args.lastId, -1), -1)
  }

  /** `doFetch({timestamp, lastId})`: the arguments `this.fetch` is called
      with. They pass through when the timestamp is truthy or the cursor is
      above -1; otherwise the fetch looks back over the last two minutes, with
      no cursor. */
  function FetchRequest(args: FetchArgs, nowMs: int): FetchArgs {
    if Truthy(args.timestamp) || (args.lastId.Num? && args.lastId.n > -1) then args
    else FetchArgs(Num(nowMs / 1000 - DefaultIntervalInSeconds), Undefined)
  }

  /** The rows a poll fans out: none when it issued no fetch. */
  function Fetched(fetch: FetchFn, db: Db, call: Option<FetchArgs>): seq<Row> {
    if call.Some? then fetch(db, call.value) else []
  }

  /** The cursor a connection starts with: the `id` parameter, or -1 when it
      is absent or not a number. */
  function SeedLastId(query: Params): int {
    ToNumber(Param(query, "id"), Num(-1)).n
  }

  /** The lower time bound a connection asks for: the `timestamp` parameter,
      or `undefined`. */
  function SeedTimestamp(query: Params): JsNum {
    ToNumber(Param(query, "timestamp"), Undefined)
  }

  /** The store call of a new connection's catch-up fetch. */
  function CatchUpRequest(query: Params, nowMs: int): FetchArgs {
    FetchRequest(FetchArgs(SeedTimestamp(query), Num(SeedLastId(query))), nowMs)
  }

  /** The store call of one poll over subscribers with these cursors: none
      without subscribers, otherwise one at the smallest cursor. */
  function PollRequest(cursors: seq<int>, nowMs: int): Option<FetchArgs> {
    if cursors == [] then None
    else Some(FetchRequest(FetchArgs(Undefined, Num(Min(cursors))), nowMs))
  }

  /** `this.cacheList.filter((e) => e !== cws)`. */
  function Without<T(==)>(s: seq<T>, x: T): (r: seq<T>)
    ensures forall i :: 0 <= i < |r| ==> r[i] in s && r[i] != x
    ensures forall i :: 0 <= i < |s| && s[i] != x ==> s[i] in r
  {
    if s == [] then []
    else
      assert s == [s[0]] + s[1..];
      (if s[0] == x then [] else [s[0]]) + Without(s[1..], x)
  }

  /** Removing an element that is not there changes nothing. */
  lemma {:induction false} WithoutAbsent<T>(s: seq<T>, x: T)
    requires x !in s
    ensures Without(s, x) == s
  {
    if s != [] {
      assert x !in s[1..];
      WithoutAbsent(s[1..], x);
      assert s == [s[0]] + s[1..];
    }
  }

  /** Removing twice is removing once. */
  lemma WithoutIdempotent<T>(s: seq<T>, x: T)
    ensures Without(Without(s, x), x) == Without(s, x)
  {
    var r := Without(s, x);
    assert x !in r;
    WithoutAbsent(r, x);
  }

  /** In a list without repetitions, removing the element at `k` splices it
      out and keeps every other element in its place in the order. */
  lemma {:induction false} WithoutAt<T>(s: seq<T>, k: nat)
    requires NoDup(s) && k < |s|
    ensures Without(s, s[k]) == s[..k] + s[k + 1..]
  {
    var x := s[k];
    if k == 0 {
      assert x !in s[1..];
      WithoutAbsent(s[1..], x);
    } else {
      assert s[1..][k - 1] == x;
      assert s[0] != x;
      NoDupTail(s);
      WithoutAt(s[1..], k - 1);
      Splice(s, k);
    }
  }

  lemma NoDupTail<T>(s: seq<T>)
    requires NoDup(s) && s != []
    ensures NoDup(s[1..])
  {
    assert forall i :: 0 <= i < |s| - 1 ==> s[1..][i] == s[i + 1];
  }

  /** Splicing out position `k` of `s` is keeping its head and splicing out
      position `k - 1` of its tail. */
  lemma Splice<T>(s: seq<T>, k: nat)
    requires 1 <= k < |s|
    ensures [s[0]] + (s[1..][..k - 1] + s[1..][k..]) == s[..k] + s[k + 1..]
  {
    assert s[..k] == [s[0]] + s[1..][..k - 1];
    assert s[k + 1..] == s[1..][k..];
  }

  lemma {:induction false} WithoutKeepsNoDup<T>(s: seq<T>, x: T)
    requires NoDup(s)
    ensures NoDup(Without(s, x))
  {
    if s != [] {
      WithoutKeepsNoDup(s[1..], x);
      assert s[0] !in s[1..];
      assert s[0] !in Without(s[1..], x);
    }
  }

  /** A connected client (`WebSocketWrapper`): the socket and the cursor. */
  class WebSocketWrapper {
    var lastId: int
    /** False once `this.ws.close()` has been called. */
    var open: bool
    /** The messages the socket confirmed as sent, in order. */
    var delivered: seq<Row>

    function State(): Subscriber
      reads this
    {
      Subscriber(lastId, open, delivered)
    }

    constructor (lastId: int)
      ensures State() == Subscriber(lastId, true, [])
    {
      this.lastId := lastId;
      open := true;
      delivered := [];
    }

    /** `send(m)`: forwards `m` only when its id is above the cursor. */
    method Send(m: Row, outcome: SendOutcome)
      modifies this
      ensures State() == Step(old(State()), m, outcome)
      ensures m.id <= old(lastId) ==> lastId == old(lastId) && open == old(open) && delivered == old(delivered)
      ensures old(lastId) < m.id && outcome == Delivered ==>
        lastId == m.id && open == old(open) && delivered == old(delivered) + [m]
      ensures old(lastId) < m.id && outcome != Delivered ==>
        lastId == old(lastId) && !open && delivered == old(delivered)
    {
      if lastId < m.id {
        match outcome
        case Delivered =>
          delivered := delivered + [m];
          lastId := m.id;
        case ErrorCallback =>
          open := false;
        case Thrown =>
          open := false;
      }
    }

    /** `rows.forEach((m) => cws.send(m))`; the k-th send ends with `outcome(k)`. */
    method SendAll(rows: seq<Row>, outcome: nat -> SendOutcome)
      modifies this
      ensures State() == Offer(old(State()), rows, outcome)
    {
      var k := 0;
      while k < |rows|
        invariant 0 <= k <= |rows|
        invariant State() == Offer(old(State()), rows[..k], outcome)
      {
        OfferSnoc(old(State()), rows, k, outcome);
        Send(rows[k], outcome(k));
        k := k + 1;
      }
      assert rows[..|rows|] == rows;
    }
  }

  /** One topic (`WebSocketHandler`): its subscribers and its fetch. */
  class WebSocketHandler {
    const fetch: FetchFn
    var cacheList: seq<WebSocketWrapper>

    ghost predicate Valid()
      reads this
    {
      NoDup(cacheList)
    }

    /** The cursors of the subscribers, in list order. */
    function Cursors(): (cs: seq<int>)
      reads this, cacheList
      ensures |cs| == |cacheList| && forall j :: 0 <= j < |cacheList| ==> cs[j] == cacheList[j].lastId
    {
      seq(|cacheList|, j requires 0 <= j < |cacheList| reads this, cacheList => cacheList[j].lastId)
    }

    /** The subscribers' states, in list order. */
    function States(): (ss: seq<Subscriber>)
      reads this, cacheList
      ensures |ss| == |cacheList| && forall j :: 0 <= j < |cacheList| ==> ss[j] == cacheList[j].State()
    {
      seq(|cacheList|, j requires 0 <= j < |cacheList| reads this, cacheList => cacheList[j].State())
    }

    constructor (fetch: FetchFn)
      ensures this.fetch == fetch && cacheList == [] && Valid()
    {
      this.fetch := fetch;
      cacheList := [];
    }

    /** A client connects with these query parameters: its wrapper is seeded
        from `timestamp` and `id`, appended to the list, and offered, alone,
        the rows of a catch-up fetch. */
    method Connect(query: Params, db: Db, nowMs: int, outcome: nat -> SendOutcome)
      returns (cws: WebSocketWrapper, call: FetchArgs)
      requires Valid()
      modifies this
      ensures Valid() && fresh(cws)
      ensures cacheList == old(cacheList) + [cws]
      ensures forall i :: 0 <= i < |old(cacheList)| ==> unchanged(old(cacheList)[i])
      ensures call == CatchUpRequest(query, nowMs)
      ensures cws.State() == Offer(Subscriber(SeedLastId(query), true, []), fetch(db, call), outcome)
    {
      var timestamp := ToNumber(Param(query, "timestamp"), Undefined);
      var lastId := ToNumber(Param(query, "id"), Num(-1)).n;
      cws := new WebSocketWrapper(lastId);
      cacheList := cacheList + [cws];
      call := FetchRequest(FetchArgs(timestamp, Num(lastId)), nowMs);
      cws.SendAll(fetch(db, call), outcome);
      assert cacheList[|cacheList| - 1] == cws;
    }

    /** The socket of `cws` closed: the wrapper leaves the list. */
    method Close(cws: WebSocketWrapper)
      requires Valid()
      modifies this
      ensures Valid()
      ensures cacheList == Without(old(cacheList), cws)
    {
      WithoutKeepsNoDup(cacheList, cws);
      cacheList := Without(cacheList, cws);
    }

    /** `update()`: one poll. With no subscriber nothing is fetched; otherwise
        one fetch at the smallest cursor, and every row is offered to every
        subscriber in list order. The send of row k to subscriber j ends with
        `outcome(j)(k)`. */
    method Update(db: Db, nowMs: int, outcome: nat -> nat -> SendOutcome)
      returns (call: Option<FetchArgs>, rows: seq<Row>)
      requires Valid()
      modifies cacheList
      ensures Valid()
      ensures call == PollRequest(old(Cursors()), nowMs)
      ensures rows == Fetched(fetch, db, call)
      ensures States() == OfferEach(old(States()), rows, outcome)
    {
      if |cacheList| == 0 {
        call := None;
        rows := [];
        return;
      }
      var lastId := Min(Cursors());
      var args := FetchRequest(FetchArgs(Undefined, Num(lastId)), nowMs);
      call := Some(args);
      rows := fetch(db, args);
      var k := 0;
      while k < |rows|
        invariant 0 <= k <= |rows|
        invariant Valid()
        invariant forall j :: 0 <= j < |cacheList| ==>
          cacheList[j].State() == Offer(old(cacheList[j].State()), rows[..k], outcome(j))
      {
        forall j | 0 <= j < |cacheList|
          ensures Offer(old(cacheList[j].State()), rows[..k + 1], outcome(j)) ==
            Step(Offer(old(cacheList[j].State()), rows[..k], outcome(j)), rows[k], outcome(j)(k))
        {
          OfferSnoc(old(cacheList[j].State()), rows, k, outcome(j));
        }
        Publish(rows[k], k, outcome);
        k := k + 1;
      }
      assert rows[..|rows|] == rows;
      assert forall j :: 0 <= j < |cacheList| ==> States()[j] == OfferEach(old(States()), rows, outcome)[j];
    }

    /** `this.cacheList.forEach((cws) => cws.send(m))`, where `m` is the k-th
        row of the fetch. */
    method Publish(m: Row, k: nat, outcome: nat -> nat -> SendOutcome)
      requires Valid()
      modifies cacheList
      ensures Valid()
      ensures forall j :: 0 <= j < |cacheList| ==>
        cacheList[j].State() == Step(old(cacheList[j].State()), m, outcome(j)(k))
    {
      var i := 0;
      while i < |cacheList|
        invariant 0 <= i <= |cacheList|
        invariant Valid()
        invariant forall j :: 0 <= j < i ==> cacheList[j].State() == Step(old(cacheList[j].State()), m, outcome(j)(k))
        invariant forall j :: i <= j < |cacheList| ==> cacheList[j].State() == old(cacheList[j].State())
      {
        cacheList[i].Send(m, outcome(i)(k));
        i := i + 1;
      }
    }
  }

  /** One timer tick: `update()` on the measurements handler, then on the
      debug handler. */
  method Tick(measurements: WebSocketHandler, debug: WebSocketHandler, db: Db, nowMs: int,
              outcomeM: nat -> nat -> SendOutcome, outcomeD: nat -> nat -> SendOutcome)
    returns (callM: Option<FetchArgs>, rowsM: seq<Row>, callD: Option<FetchArgs>, rowsD: seq<Row>)
    requires measurements != debug && measurements.Valid() && debug.Valid()
    requires forall w :: w in measurements.cacheList ==> w !in debug.cacheList
    modifies measurements.cacheList, debug.cacheList
    ensures measurements.Valid() && debug.Valid()
    ensures callM == PollRequest(old(measurements.Cursors()), nowMs) && rowsM == Fetched(measurements.fetch, db, callM)
    ensures callD == PollRequest(old(debug.Cursors()), nowMs) && rowsD == Fetched(debug.fetch, db, callD)
    ensures measurements.States() == OfferEach(old(measurements.States()), rowsM, outcomeM)
    ensures debug.States() == OfferEach(old(debug.States()), rowsD, outcomeD)
  {
    assert forall j :: 0 <= j < |debug.cacheList| ==> debug.cacheList[j] !in measurements.cacheList;
    assert forall j :: 0 <= j < |measurements.cacheList| ==> measurements.cacheList[j] !in debug.cacheList;
    callM, rowsM := measurements.Update(db, nowMs, outcomeM);
    callD, rowsD := debug.Update(db, nowMs, outcomeD);
  }

  /** The server's tick: the measurements handler fetches with
      `getMeasurements` and the debug handler with `getDebugMessages`. */
  method ServerTick(measurements: WebSocketHandler, debug: WebSocketHandler, db: Db, nowMs: int,
                    outcomeM: nat -> nat -> SendOutcome, outcomeD: nat -> nat -> SendOutcome)
    returns (callM: Option<FetchArgs>, rowsM: seq<Row>, callD: Option<FetchArgs>, rowsD: seq<Row>)
    requires measurements != debug && measurements.Valid() && debug.Valid()
    requires forall w :: w in measurements.cacheList ==> w !in debug.cacheList
    requires measurements.fetch == GetMeasurements && debug.fetch == DebugFetch
    modifies measurements.cacheList, debug.cacheList
    ensures callM == PollRequest(old(measurements.Cursors()), nowMs) && rowsM == Fetched(GetMeasurements, db, callM)
    ensures callD == PollRequest(old(debug.Cursors()), nowMs) && rowsD == Fetched(DebugFetch, db, callD)
    ensures measurements.States() == OfferEach(old(measurements.States()), rowsM, outcomeM)
    ensures debug.States() == OfferEach(old(debug.States()), rowsD, outcomeD)
  {
    callM, rowsM, callD, rowsD := Tick(measurements, debug, db, nowMs, outcomeM, outcomeD);
  }
}
