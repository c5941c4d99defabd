/** The decision logic of the REST routes in app.js: which store query a
    request runs, or why it is refused with status 400. */
module Routes {
  import opened JsValues
  import opened Store
  import opened Broadcast

  /** `maxSteps` of `/average`. */
  const MaxSteps := 20000
  /** `maxInterval` of `/raw`: three days, in seconds. */
  const MaxRawInterval := 3 * 24 * 60 * 60
  /** Below this total period `/bulk` returns raw rows: one week. */
  const RawBulkLimit := 7 * 24 * 60 * 60
  /** Below this total period `/bulk` averages per hour: three weeks. */
  const HourlyBulkLimit := 21 * 24 * 60 * 60
  const Hour := 60 * 60
  const FourHours := 4 * 60 * 60

  /** Why a request is answered with status 400. */
  datatype Reason = MissingParameters | TooManySteps | IntervalTooLong | MissingPeriod

  /** The store call a request runs. */
  datatype StoreQuery =
    | LatestMeasurements(args: FetchArgs)
    | Raw(start: int, end: int)
    | Average(start: int, end: int, period: int)

  datatype Answer = BadRequest(reason: Reason) | Run(query: StoreQuery)

  /** A numeric query parameter read with `toNumber(req.query[name])`, whose
      default is `undefined`. */
  function NumParam(query: Params, name: string): JsNum {
    ToNumber(Param(query, name), Undefined)
  }

  /** `GET /api/measurements`: the same choice as the websocket catch-up,
      answered once. */
  function MeasurementsRoute(query: Params, nowMs: int): StoreQuery {
    var timestamp := NumParam(query, "timestamp");
    var lastId := ToNumber(Param(query, "id"), Num(-1)).n;
    if Truthy(timestamp) || lastId > -1 then LatestMeasurements(FetchArgs(timestamp, Num(lastId)))
    else LatestMeasurements(FetchArgs(Num(nowMs / 1000 - DefaultIntervalInSeconds), Undefined))
  }

  /** The REST route and a new websocket connection with the same parameters
      ask the store for the same rows. */
  lemma MeasurementsRouteIsCatchUp(query: Params, nowMs: int)
    ensures MeasurementsRoute(query, nowMs) == LatestMeasurements(CatchUpRequest(query, nowMs))
  {
  }

  /** `numSteps > maxSteps`, with JavaScript's division of numbers. */
  predicate StepsExceeded(start: int, end: int, period: int)
    requires period != 0
  {
    (end - start) as real / period as real > MaxSteps as real
  }

  /** The step limit in integers: for a positive period the window may hold
      at most `MaxSteps` periods; for a negative period the quotient is
      negative unless the window is reversed. */
  lemma StepsExceededIff(start: int, end: int, period: int)
    requires period != 0
    ensures period > 0 ==> (StepsExceeded(start, end, period) <==> end - start > MaxSteps * period)
    ensures period < 0 ==> (StepsExceeded(start, end, period) <==> end - start < MaxSteps * period)
  {
    var q := (end - start) as real / period as real;
    assert q * period as real == (end - start) as real;
    if period > 0 {
      assert q > MaxSteps as real <==> q * period as real > MaxSteps as real * period as real;
    } else {
      assert q > MaxSteps as real <==> q * period as real < MaxSteps as real * period as real;
    }
  }

  /** `GET /api/measurements/average`. */
  function AverageRoute(query: Params): Answer {
    var start := NumParam(query, "start");
    var end := NumParam(query, "end");
    var period := NumParam(query, "period");
    if !Truthy(start) || !Truthy(end) || !Truthy(period) then BadRequest(MissingParameters)
    else if StepsExceeded(start.n, end.n, period.n) then BadRequest(TooManySteps)
    else Run(Average(start.n, end.n, period.n))
  }

  /** `/average` runs the query exactly when all three parameters are
      non-zero numbers within the step limit, and then with those numbers. */
  lemma AverageRouteDecision(query: Params)
    ensures AverageRoute(query).BadRequest? && AverageRoute(query).reason == MissingParameters <==>
      !Truthy(NumParam(query, "start")) || !Truthy(NumParam(query, "end")) || !Truthy(NumParam(query, "period"))
    ensures AverageRoute(query).Run? <==>
      && Truthy(NumParam(query, "start")) && Truthy(NumParam(query, "end")) && Truthy(NumParam(query, "period"))
      && !StepsExceeded(NumParam(query, "start").n, NumParam(query, "end").n, NumParam(query, "period").n)
    ensures AverageRoute(query).Run? ==>
      var q := AverageRoute(query).query;
      && q.Average?
      && Num(q.start) == NumParam(query, "start") && Num(q.end) == NumParam(query, "end")
      && Num(q.period) == NumParam(query, "period") && q.start != 0 && q.end != 0 && q.period != 0
      && (q.period > 0 ==> q.end - q.start <= MaxSteps * q.period)
      && (q.period < 0 ==> q.end - q.start >= MaxSteps * q.period)
  {
    var period := NumParam(query, "period");
    if Truthy(NumParam(query, "start")) && Truthy(NumParam(query, "end")) && Truthy(period) {
      StepsExceededIff(NumParam(query, "start").n, NumParam(query, "end").n, period.n);
    }
  }

  /** The guard as corrected: the number of steps counted with the period's
      magnitude, which is the bucket width the query actually uses
      (`BucketIgnoresSign`). */
  function AverageRouteCorrected(query: Params): Answer {
    var start := NumParam(query, "start");
    var end := NumParam(query, "end");
    var period := NumParam(query, "period");
    if !Truthy(start) || !Truthy(end) || !Truthy(period) then BadRequest(MissingParameters)
    else if StepsExceeded(start.n, end.n, Abs(period.n)) then BadRequest(TooManySteps)
    else Run(Average(start.n, end.n, period.n))
  }

  /** The corrected guard answers a positive period as the route does, and
      refuses a negative period exactly when it refuses its magnitude; so any
      accepted query covers at most `MaxSteps` buckets of the width it groups
      by. */
  lemma AverageRouteCorrectedDecision(query: Params)
    ensures Truthy(NumParam(query, "period")) && NumParam(query, "period").n > 0 ==>
      AverageRouteCorrected(query) == AverageRoute(query)
    ensures AverageRouteCorrected(query).Run? ==>
      var q := AverageRouteCorrected(query).query;
      && q.Average? && q.period != 0
      && q.end - q.start <= MaxSteps * Abs(q.period)
      && forall t :: Bucket(t, q.period) == Bucket(t, Abs(q.period))
  {
    var start := NumParam(query, "start");
    var end := NumParam(query, "end");
    var period := NumParam(query, "period");
    if Truthy(start) && Truthy(end) && Truthy(period) {
      StepsExceededIff(start.n, end.n, Abs(period.n));
      forall t ensures Bucket(t, period.n) == Bucket(t, Abs(period.n)) {
        BucketIgnoresSign(t, Abs(period.n));
      }
    }
  }

  /** The query string `start=1&end=100000000&period=<period>`. */
  function StepsQuery(period: int): Params {
    map["start" := Show(1), "end" := Show(100000000), "period" := Show(period)]
  }

  lemma StepsQueryParams(period: int)
    ensures NumParam(StepsQuery(period), "start") == Num(1)
    ensures NumParam(StepsQuery(period), "end") == Num(100000000)
    ensures NumParam(StepsQuery(period), "period") == Num(period)
  {
    var q := StepsQuery(period);
    assert Show(1) + "" == Show(1) && Show(100000000) + "" == Show(100000000) && Show(period) + "" == Show(period);
    assert Param(q, "start") == Some(Show(1) + "");
    assert Param(q, "end") == Some(Show(100000000) + "");
    assert Param(q, "period") == Some(Show(period) + "");
    ToNumberOfShow(1, "", Undefined);
    ToNumberOfShow(100000000, "", Undefined);
    ToNumberOfShow(period, "", Undefined);
  }

  /** As written, a period of -1 over 10^8 seconds passes the step limit that
      refuses a period of 1, although both group into one-second buckets. */
  lemma NegativePeriodPassesStepLimit()
    ensures AverageRoute(StepsQuery(-1)) == Run(Average(1, 100000000, -1))
    ensures AverageRoute(StepsQuery(1)) == BadRequest(TooManySteps)
    ensures forall t :: Bucket(t, -1) == Bucket(t, 1)
  {
    StepsQueryParams(-1);
    StepsQueryParams(1);
    StepsExceededIff(1, 100000000, -1);
    StepsExceededIff(1, 100000000, 1);
    forall t ensures Bucket(t, -1) == Bucket(t, 1) {
      BucketIgnoresSign(t, 1);
    }
  }

  /** The corrected guard refuses both. */
  lemma NegativePeriodRefusedWhenCorrected()
    ensures AverageRouteCorrected(StepsQuery(-1)) == BadRequest(TooManySteps)
    ensures AverageRouteCorrected(StepsQuery(1)) == BadRequest(TooManySteps)
  {
    StepsQueryParams(-1);
    StepsQueryParams(1);
    StepsExceededIff(1, 100000000, 1);
  }

  /** `GET /api/measurements/raw`. */
  function RawRoute(query: Params): Answer {
    var start := NumParam(query, "start");
    var end := NumParam(query, "end");
    if !Truthy(start) || !Truthy(end) then BadRequest(MissingParameters)
    else if end.n - start.n > MaxRawInterval then BadRequest(IntervalTooLong)
    else Run(Raw(start.n, end.n))
  }

  /** `/raw` runs the query exactly when both bounds are non-zero numbers at
      most three days apart, and every row it then returns lies in a window
      of at most three days. */
  lemma RawRouteDecision(query: Params, db: Db)
    ensures RawRoute(query).Run? <==>
      Truthy(NumParam(query, "start")) && Truthy(NumParam(query, "end"))
      && NumParam(query, "end").n - NumParam(query, "start").n <= MaxRawInterval
    ensures RawRoute(query).Run? ==>
      var q := RawRoute(query).query;
      && q == Raw(NumParam(query, "start").n, NumParam(query, "end").n)
      && forall x :: x in RawMeasurements(db, q.start, q.end) ==> q.start <= x.timestamp < q.start + MaxRawInterval
  {
  }

  /** `GET /api/measurements/bulk`: the last `period` seconds up to now, raw
      below a week, in hourly buckets below three weeks, in four-hour buckets
      beyond. */
  function BulkRoute(query: Params, nowMs: int): Answer {
    var totalPeriod := NumParam(query, "period");
    if !Truthy(totalPeriod) then BadRequest(MissingPeriod)
    else
      var end := nowMs / 1000;
      var start := end - totalPeriod.n;
      if totalPeriod.n < RawBulkLimit then Run(Raw(start, end))
      else if totalPeriod.n < HourlyBulkLimit then Run(Average(start, end, Hour))
      else Run(Average(start, end, FourHours))
  }

  /** Every bulk query covers exactly the requested period up to the current
      second, and the query kind follows the thresholds. */
  lemma BulkRouteDecision(query: Params, nowMs: int)
    ensures BulkRoute(query, nowMs).BadRequest? <==> !Truthy(NumParam(query, "period"))
    ensures BulkRoute(query, nowMs).Run? ==>
      var p := NumParam(query, "period").n;
      var q := BulkRoute(query, nowMs).query;
      && !q.LatestMeasurements?
      && q.end == nowMs / 1000 && q.end - q.start == p
      && (q.Raw? <==> p < RawBulkLimit)
      && (q.Average? ==> q.period == (if p < HourlyBulkLimit then Hour else FourHours))
  {
  }

  /** Bulk averages in hourly buckets always stay within the `/average` step
      limit; four-hour buckets stay within it exactly up to 288000000 seconds
      (about nine years), beyond which `/bulk` runs a query `/average` would
      refuse. */
  lemma BulkAverageStepLimit(query: Params, nowMs: int)
    requires BulkRoute(query, nowMs).Run? && BulkRoute(query, nowMs).query.Average?
    ensures var q := BulkRoute(query, nowMs).query;
      q.period == Hour ==> !StepsExceeded(q.start, q.end, q.period)
    ensures var q := BulkRoute(query, nowMs).query;
      q.period == FourHours ==> (StepsExceeded(q.start, q.end, q.period) <==> q.end - q.start > 288000000)
  {
    var q := BulkRoute(query, nowMs).query;
    StepsExceededIff(q.start, q.end, q.period);
  }

  /** Bulk serves raw windows of up to a week, where `/raw` refuses anything
      longer than three days. */
  lemma BulkRawBeyondRawLimit(query: Params, nowMs: int)
    requires BulkRoute(query, nowMs).Run? && BulkRoute(query, nowMs).query.Raw?
    ensures var q := BulkRoute(query, nowMs).query;
      && q.end - q.start < RawBulkLimit
      && (q.start != 0 && q.end != 0 ==>
           (q.end - q.start > MaxRawInterval <==>
            RawRoute(map["start" := Show(q.start), "end" := Show(q.end)]) == BadRequest(IntervalTooLong)))
  {
    var q := BulkRoute(query, nowMs).query;
    var r: Params := map["start" := Show(q.start), "end" := Show(q.end)];
    assert Show(q.start) + "" == Show(q.start) && Show(q.end) + "" == Show(q.end);
    assert Param(r, "start") == Some(Show(q.start) + "");
    assert Param(r, "end") == Some(Show(q.end) + "");
    ToNumberOfShow(q.start, "", Undefined);
    ToNumberOfShow(q.end, "", Undefined);
  }

  /** A negative bulk period is not refused: it runs a raw query over a
      reversed window, which returns nothing. */
  lemma BulkNegativePeriodIsEmpty(query: Params, nowMs: int, db: Db)
    requires Truthy(NumParam(query, "period")) && NumParam(query, "period").n < 0
    ensures BulkRoute(query, nowMs).Run? && BulkRoute(query, nowMs).query.Raw?
    ensures RawMeasurements(db, BulkRoute(query, nowMs).query.start, BulkRoute(query, nowMs).query.end) == []
  {
    var q := BulkRoute(query, nowMs).query;
    var r := RawMeasurements(db, q.start, q.end);
    assert forall i :: 0 <= i < |r| ==> r[i] in r && !InWindow(r[i], q.start, q.end);
  }
}
