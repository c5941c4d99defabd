/** What the broadcaster delivers when its fetch is the store's: how a new
    connection is seeded, what one shared poll gives each subscriber, and
    how the debug topic's ordering interacts with the cursor. */
module Delivery {
  import opened JsValues
  import opened Seqs
  import opened Store
  import opened Broadcast

  /** Every send succeeds. */
  function AllDelivered(k: nat): SendOutcome {
    Delivered
  }

  function Max(a: int, b: int): int {
    if a <= b then b else a
  }

  /** In an id-ascending sequence the tail holds every element but the
      first. */
  lemma AscendingTail(a: seq<Row>)
    requires IdsAscending(a) && a != []
    ensures forall x :: x in a[1..] <==> x in a && x != a[0]
  {
    assert a == [a[0]] + a[1..];
    assert forall x :: x in a[1..] ==> x.id > a[0].id;
  }

  /** Two id-ascending sequences with the same elements start alike. */
  lemma AscendingHead(a: seq<Row>, b: seq<Row>)
    requires IdsAscending(a) && IdsAscending(b) && a != [] && b != []
    requires forall x :: x in a <==> x in b
    ensures a[0] == b[0]
  {
    assert a[0] in b && b[0] in a;
    var i :| 0 <= i < |b| && b[i] == a[0];
    var k :| 0 <= k < |a| && a[k] == b[0];
    assert a[0].id <= a[k].id;
  }

  /** Two id-ascending sequences with the same elements are the same
      sequence. */
  lemma {:induction false} AscendingUnique(a: seq<Row>, b: seq<Row>)
    requires IdsAscending(a) && IdsAscending(b)
    requires forall x :: x in a <==> x in b
    ensures a == b
  {
    assert a == [] <==> b == [] by {
      if a != [] { assert a[0] in b; }
      if b != [] { assert b[0] in a; }
    }
    if a != [] {
      AscendingHead(a, b);
      AscendingTail(a);
      AscendingTail(b);
      AscendingUnique(a[1..], b[1..]);
      assert a == [a[0]] + a[1..] && b == [b[0]] + b[1..];
    }
  }

  /** The rows above cursor `c` among those a fetch at cursor `a` returns are
      the rows a fetch at the larger of the two cursors returns. */
  lemma NewerOfMeasurements(db: Db, timestamp: int, a: int, c: int)
    requires WellFormed(db)
    ensures Newer(Measurements(db, timestamp, a), c) == Measurements(db, timestamp, Max(a, c))
  {
    NewerAscending(Measurements(db, timestamp, a), c);
    AscendingUnique(Newer(Measurements(db, timestamp, a), c), Measurements(db, timestamp, Max(a, c)));
  }

  lemma NewerOfDebugById(db: Db, timestamp: int, a: int, c: int)
    requires WellFormed(db)
    ensures Newer(DebugMessagesById(db, timestamp, a, -1), c) == DebugMessagesById(db, timestamp, Max(a, c), -1)
  {
    NewerAscending(DebugMessagesById(db, timestamp, a, -1), c);
    AscendingUnique(Newer(DebugMessagesById(db, timestamp, a, -1), c), DebugMessagesById(db, timestamp, Max(a, c), -1));
  }

  /** A subscriber offered the rows of a measurements fetch at cursor `a`,
      every send succeeding, receives exactly the rows a fetch at the larger
      of `a` and its own cursor returns. */
  lemma OfferOfMeasurements(db: Db, timestamp: int, a: int, s: Subscriber, outcome: nat -> SendOutcome)
    requires WellFormed(db)
    requires forall k :: 0 <= k < |Measurements(db, timestamp, a)| ==> outcome(k) == Delivered
    ensures Offer(s, Measurements(db, timestamp, a), outcome).delivered
      == s.delivered + Measurements(db, timestamp, Max(a, s.lastId))
  {
    OfferDeliversNewer(s, Measurements(db, timestamp, a), outcome);
    NewerOfMeasurements(db, timestamp, a, s.lastId);
  }

  lemma OfferOfDebugById(db: Db, timestamp: int, a: int, s: Subscriber, outcome: nat -> SendOutcome)
    requires WellFormed(db)
    requires forall k :: 0 <= k < |DebugMessagesById(db, timestamp, a, -1)| ==> outcome(k) == Delivered
    ensures Offer(s, DebugMessagesById(db, timestamp, a, -1), outcome).delivered
      == s.delivered + DebugMessagesById(db, timestamp, Max(a, s.lastId), -1)
  {
    OfferDeliversNewer(s, DebugMessagesById(db, timestamp, a, -1), outcome);
    NewerOfDebugById(db, timestamp, a, s.lastId);
  }

  /** How a connection is seeded: `id` and `timestamp` are read with
      `toNumber`, so a missing or non-numeric `id` is -1 and a missing or
      non-numeric `timestamp` is `undefined`. */
  lemma SeedFromQuery(query: Params)
    ensures "id" in query && ParseInt(query["id"]).Some? ==> SeedLastId(query) == ParseInt(query["id"]).value
    ensures "id" !in query || ParseInt(query["id"]).None? ==> SeedLastId(query) == -1
    ensures "timestamp" in query && ParseInt(query["timestamp"]).Some? ==>
      SeedTimestamp(query) == Num(ParseInt(query["timestamp"]).value)
    ensures "timestamp" !in query || ParseInt(query["timestamp"]).None? ==> SeedTimestamp(query) == Undefined
  {
    if "id" !in query || ParseInt(query["id"]).None? {
      ToNumberDefault(Param(query, "id"), Num(-1));
    }
    if "timestamp" !in query || ParseInt(query["timestamp"]).None? {
      ToNumberDefault(Param(query, "timestamp"), Undefined);
    }
  }

  /** A client that connects without parameters starts at cursor -1, and its
      catch-up fetch looks back two minutes from now. */
  lemma ConnectWithoutParameters(nowMs: int)
    ensures SeedLastId(map[]) == -1
    ensures CatchUpRequest(map[], nowMs) == FetchArgs(Num(nowMs / 1000 - DefaultIntervalInSeconds), Undefined)
  {
    SeedFromQuery(map[]);
  }

  /** A client that reconnects with `?id=n`, the id of the last measurement
      it saw, is sent exactly the measurements after it, in id order, and
      nothing it already has, when every send succeeds. */
  lemma ReconnectResumesWithoutGap(db: Db, n: nat, nowMs: int, outcome: nat -> SendOutcome)
    requires WellFormed(db)
    requires forall k :: 0 <= k < |GetMeasurements(db, CatchUpRequest(map["id" := Show(n)], nowMs))| ==> outcome(k) == Delivered
    ensures CatchUpRequest(map["id" := Show(n)], nowMs) == FetchArgs(Undefined, Num(n))
    ensures Offer(Subscriber(SeedLastId(map["id" := Show(n)]), true, []),
                  GetMeasurements(db, CatchUpRequest(map["id" := Show(n)], nowMs)), outcome).delivered
            == Measurements(db, -1, n)
  {
    var q: Params := map["id" := Show(n)];
    assert Show(n) + "" == Show(n);
    ToNumberOfShow(n, "", Num(-1));
    assert SeedLastId(q) == n;
    SeedFromQuery(q);
    assert GetMeasurements(db, CatchUpRequest(q, nowMs)) == Measurements(db, -1, OrElse(Num(n), -1));
    assert Max(OrElse(Num(n), -1), n) == n;
    OfferOfMeasurements(db, -1, OrElse(Num(n), -1), Subscriber(n, true, []), outcome);
  }

  /** The rows a poll at these cursors gets from a fetch function. */
  lemma PollFetches(fetch: FetchFn, db: Db, cursors: seq<int>, nowMs: int)
    requires cursors != [] && Min(cursors) > -1
    ensures Fetched(fetch, db, PollRequest(cursors, nowMs)) == fetch(db, FetchArgs(Undefined, Num(Min(cursors))))
  {
  }

  /** One poll serves every subscriber: when the smallest cursor is above
      -1, the single fetch at that cursor gives each subscriber exactly the
      measurements above its own cursor, in id order, when every send
      succeeds. */
  lemma SharedFetchServesEachSubscriber(db: Db, cursors: seq<int>, s: Subscriber, nowMs: int, outcome: nat -> SendOutcome)
    requires WellFormed(db)
    requires s.lastId in cursors && Min(cursors) > -1
    requires forall k :: 0 <= k < |Fetched(GetMeasurements, db, PollRequest(cursors, nowMs))| ==> outcome(k) == Delivered
    ensures PollRequest(cursors, nowMs) == Some(FetchArgs(Undefined, Num(Min(cursors))))
    ensures Offer(s, Fetched(GetMeasurements, db, PollRequest(cursors, nowMs)), outcome).delivered
      == s.delivered + Measurements(db, -1, s.lastId)
  {
    var a := OrElse(Num(Min(cursors)), -1);
    PollFetches(GetMeasurements, db, cursors, nowMs);
    assert GetMeasurements(db, FetchArgs(Undefined, Num(Min(cursors)))) == Measurements(db, -1, a);
    assert Max(a, s.lastId) == s.lastId;
    OfferOfMeasurements(db, -1, a, s, outcome);
  }

  /** When some subscriber is at cursor -1 (or below), the poll falls back to
      the two-minute window, and every subscriber, however far ahead, is
      offered only that window; when every send succeeds, it receives the
      rows of the window above its own cursor. */
  lemma FallbackServesWindow(db: Db, cursors: seq<int>, s: Subscriber, nowMs: int, outcome: nat -> SendOutcome)
    requires WellFormed(db)
    requires s.lastId in cursors && Min(cursors) <= -1
    requires forall k :: 0 <= k < |Fetched(GetMeasurements, db, PollRequest(cursors, nowMs))| ==> outcome(k) == Delivered
    ensures PollRequest(cursors, nowMs) == Some(FetchArgs(Num(nowMs / 1000 - DefaultIntervalInSeconds), Undefined))
    ensures Offer(s, Fetched(GetMeasurements, db, PollRequest(cursors, nowMs)), outcome).delivered
      == s.delivered + Measurements(db, OrElse(Num(nowMs / 1000 - DefaultIntervalInSeconds), -1), Max(-1, s.lastId))
  {
    var t := OrElse(Num(nowMs / 1000 - DefaultIntervalInSeconds), -1);
    assert Fetched(GetMeasurements, db, PollRequest(cursors, nowMs)) == Measurements(db, t, -1);
    OfferOfMeasurements(db, t, -1, s, outcome);
  }

  /** With the debug query ordered by id, one poll serves every debug
      subscriber exactly the messages above its cursor, when every send
      succeeds. */
  lemma SharedDebugFetchByIdServesEachSubscriber(db: Db, cursors: seq<int>, s: Subscriber, nowMs: int, outcome: nat -> SendOutcome)
    requires WellFormed(db)
    requires s.lastId in cursors && Min(cursors) > -1
    requires forall k :: 0 <= k < |Fetched(DebugFetchById, db, PollRequest(cursors, nowMs))| ==> outcome(k) == Delivered
    ensures Offer(s, Fetched(DebugFetchById, db, PollRequest(cursors, nowMs)), outcome).delivered
      == s.delivered + DebugMessagesById(db, -1, s.lastId, -1)
  {
    var a := OrElse(Num(Min(cursors)), -1);
    PollFetches(DebugFetchById, db, cursors, nowMs);
    assert DebugFetchById(db, FetchArgs(Undefined, Num(Min(cursors)))) == DebugMessagesById(db, -1, a, -1);
    assert Max(a, s.lastId) == s.lastId;
    OfferOfDebugById(db, -1, a, s, outcome);
  }

  /** Two debug messages of node 1 whose ids and times agree in order. */
  function FirstMessage(): Row { Row(5, 1, 100, "first") }
  function SecondMessage(): Row { Row(6, 1, 101, "second") }
  function TwoMessages(): Db { Db([], [FirstMessage(), SecondMessage()], {1}) }

  /** As written, the debug query returns the two messages newest first. */
  lemma DebugQueryNewestFirst(nowMs: int)
    ensures DebugFetch(TwoMessages(), PollRequest([4], nowMs).value) == [SecondMessage(), FirstMessage()]
  {
    DebugPollAt(TwoMessages(), 4, nowMs);
    NewestFirstOfTwo();
  }

  /** A poll from a single subscriber at a positive cursor `c` asks the debug
      query for the messages above `c`, at any time and without a limit. */
  lemma DebugPollAt(db: Db, c: int, nowMs: int)
    requires c > 0
    ensures DebugFetch(db, PollRequest([c], nowMs).value) == DebugMessages(db, -1, c, -1)
    ensures DebugFetchById(db, PollRequest([c], nowMs).value) == DebugMessagesById(db, -1, c, -1)
  {
    var args := PollRequest([c], nowMs).value;
    assert Min([c]) == c;
    assert args == FetchArgs(Undefined, Num(c));
    assert OrElse(args.timestamp, -1) == -1 && OrElse(args.lastId, -1) == c;
  }

  lemma NewestFirstOfTwo()
    ensures DebugMessages(TwoMessages(), -1, 4, -1) == [SecondMessage(), FirstMessage()]
  {
    var db := TwoMessages();
    var r := DebugMessages(db, -1, 4, -1);
    assert FirstMessage() in r && SecondMessage() in r;
    SubMultisetShorter(r, db.debugMessages);
    TwoInOrder(r, SecondMessage(), FirstMessage(), ByNewest);
  }

  /** The subscriber at cursor 4 is sent message 6 first, its cursor jumps to
      6, message 5 is skipped, and no later offer can ever deliver it. */
  lemma DebugNewestFirstSkipsMessage(later: seq<Row>, outcome: nat -> SendOutcome)
    ensures Offer(Subscriber(4, true, []), [SecondMessage(), FirstMessage()], AllDelivered)
      == Subscriber(6, true, [SecondMessage()])
    ensures FirstMessage() !in Offer(Subscriber(6, true, [SecondMessage()]), later, outcome).delivered
  {
    assert [SecondMessage(), FirstMessage()][..1] == [SecondMessage()];
    assert [SecondMessage()][..0] == [];
    var t := Offer(Subscriber(6, true, [SecondMessage()]), later, outcome);
    OfferMonotone(Subscriber(6, true, [SecondMessage()]), later, outcome);
    assert t.delivered == [SecondMessage()] + t.delivered[1..];
  }

  /** With the query ordered by id, the same poll returns the two messages
      oldest first. */
  lemma DebugQueryById(nowMs: int)
    ensures DebugFetchById(TwoMessages(), PollRequest([4], nowMs).value) == [FirstMessage(), SecondMessage()]
  {
    DebugPollAt(TwoMessages(), 4, nowMs);
    OldestFirstOfTwo();
  }

  lemma OldestFirstOfTwo()
    ensures DebugMessagesById(TwoMessages(), -1, 4, -1) == [FirstMessage(), SecondMessage()]
  {
    var db := TwoMessages();
    var r := DebugMessagesById(db, -1, 4, -1);
    assert FirstMessage() in r && SecondMessage() in r;
    SubMultisetShorter(r, db.debugMessages);
    TwoInOrder(r, FirstMessage(), SecondMessage(), ById);
  }

  /** ... and the subscriber at cursor 4 is sent both, in id order. */
  lemma DebugByIdDeliversBoth()
    ensures Offer(Subscriber(4, true, []), [FirstMessage(), SecondMessage()], AllDelivered)
      == Subscriber(6, true, [FirstMessage(), SecondMessage()])
  {
    assert [FirstMessage(), SecondMessage()][..1] == [FirstMessage()];
    assert [FirstMessage()][..0] == [];
  }
}
