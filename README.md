# Humidity server: live delta-sync broadcaster

This project models the part of the humidity sensor server that pushes new
rows to websocket clients and answers the measurement REST routes.

- **app.js**: a `WebSocketWrapper` per connected client keeps a cursor
  `lastId` and forwards only rows whose id is above it.
- **app.js**: a `WebSocketHandler` per topic (`/ws/measurements`,
  `/ws/debug`) keeps the list `cacheList` of wrappers and works in three
  steps:
  - it seeds each new connection from the `id` and `timestamp` query
    parameters;
  - it sends the connection a catch-up fetch;
  - on every timer tick it polls its fetch once, at the smallest cursor of
    all its wrappers, and fans every returned row out to every wrapper.
- **db.js**: the queries behind those fetches are modelled as functions of
  the table contents. This covers the falsy→−1 mapping of the arguments,
  SQLite's `LIMIT` (a negative limit means none) and its truncating integer
  division.
- **app.js**: the guards of `/api/measurements`, `/average`, `/raw` and
  `/bulk` decide which query a request runs, or why it gets status 400.

Files and modules:

- `seqs.dfy` (`Seqs`): filtering, duplicate removal, a stable insertion
  sort and SQL `LIMIT` on sequences.
- `js_values.dfy` (`JsValues`): JavaScript truthiness, `||` defaults,
  `Number.parseInt(s, 10)` and `toNumber`.
- `store.dfy` (`Store`): the rows, the database and the prepared queries.
- `broadcast.dfy` (`Broadcast`):
  - the subscriber state and what one `send` does to it;
  - the fetch arguments;
  - the classes `WebSocketWrapper` and `WebSocketHandler`;
  - the timer tick `Tick`.
- `delivery.dfy` (`Delivery`): what a subscriber receives when the fetch
  is the store's: catch-up, reconnects, the shared poll, and the ordering
  of the debug topic.
- `routes.dfy` (`Routes`): the REST decision logic.

The classes keep the source's shape:

- A wrapper's fields `lastId`, `open` and `delivered` are updated in place
  by `Send`.
- A handler's `cacheList` is a field that `Connect` and `Close` reassign.
- `Update` and `Publish` change the wrappers in the list and nothing else.
- Each method is tied to a pure specification:
  - `Step` for one send;
  - `Offer` for a sequence of sends;
  - `OfferEach` for one poll of a whole topic;
  - `PollRequest` and `CatchUpRequest` for the fetch arguments.

  The delivery properties are lemmas about those functions.

`Date.now()` is the parameter `nowMs`. How each `ws.send` ends is also a
parameter: the callback reports success, the callback reports an error, or
the call throws.

## Model

`doFetch` (app.js:81-89, `Broadcast.FetchRequest`) has no contract of its own. Its two branches are stated by `Delivery.ConnectWithoutParameters` and `Delivery.ReconnectResumesWithoutGap` for a connection, and by `Delivery.FallbackServesWindow` and `Delivery.SharedFetchServesEachSubscriber` for a poll.

| member | source | states |
|---|---|---|
| JsValues.ToNumber | app.js:54-57 | text that `parseInt` reads gives exactly its parse; text it reads as NaN gives the default; a numeric default always gives a number |
| JsValues.ParseIntOfShow | app.js:55 | `parseInt` reads back the decimal text of every integer, also when non-digit text follows it |
| JsValues.ParseIntSkipsWhiteSpace | app.js:55 | leading white space does not change what `parseInt` reads |
| JsValues.ParseIntNaN | app.js:55-56 | text whose first visible character is neither a sign nor a digit is NaN |
| JsValues.ToNumberOfShow | app.js:54-57 | `toNumber` of a well-formed number is that number, whatever the default |
| JsValues.ToNumberDefault | app.js:54-57 | a missing parameter, or one with no digits, gives the default |
| Seqs.LimitKeepsPrefix | db.js:92-93 | `LIMIT n` keeps a sorted prefix of at most n rows (all rows when n is negative); a row is dropped only when exactly n are kept, and then every kept row ranks no later than it |
| Store.Measurements | db.js:29-42 | exactly the rows of known nodes newer than both the timestamp and the id, in id order, each once when ids are unique; strictly ascending ids when ids are unique |
| Store.GetMeasurementsFalsyIsMinusOne | db.js:113-116 | an absent or zero `lastId` is -1 whatever the timestamp, an absent or zero `timestamp` is -1 whatever the id, and non-zero arguments are used as given |
| Store.DebugMessages | db.js:82-93 | only matching debug rows, newest first, at most `limit` of them; a matching row is missing only when the limit is reached, and then it is no newer than any returned row |
| Store.DebugMessagesById | db.js:82-93 | the same query ordered by id: ids strictly ascending, same limit guarantee with "no larger id" in place of "no newer" |
| Store.GetDebugMessagesUnlimited | db.js:128-132 | without a limit (absent or 0, both read as -1) every matching debug message is returned |
| Store.RawMeasurements | db.js:57-67 | exactly the rows in [start, end), no join with nodes, ordered by timestamp |
| Store.BucketBounds | db.js:47 | for a positive period and a non-negative time, the bucket is the multiple of the period at or just below the time |
| Store.BucketIgnoresSign | db.js:47 | a negative period groups exactly as its magnitude does |
| Store.BucketTruncatesTowardZero | db.js:47 | for a positive period and a time at or below zero, the bucket is the multiple of the period at or just above the time: times before 1970 are rounded toward zero, not down |
| Store.GroupKeys | db.js:54-55 | the group keys are distinct, ordered by bucket, every row's key is among them and each comes from a row |
| Store.Groups | db.js:54-55 | one non-empty group per key, ordered by bucket, whose members are exactly the rows with that key |
| Store.AverageMeasurements | db.js:44-55 | the rows in [start, end) grouped by (bucket, node): keys distinct and ordered by bucket, each row in exactly its key's group, no empty group |
| Broadcast.StepKeepsConsistent | app.js:35-51 | one send keeps a wrapper's delivered ids strictly ascending and its cursor equal to the last delivered id |
| Broadcast.OfferKeepsConsistent | app.js:75-77 | a whole catch-up keeps a wrapper consistent, whatever the send outcomes |
| Broadcast.OfferEachKeepsConsistent | app.js:95-97 | one poll keeps every subscriber of the topic consistent |
| Broadcast.OfferMonotone | app.js:35-51 | the cursor never decreases and moves only to the id of a message just delivered; earlier deliveries stay; new ones are rows above the old cursor; a closed socket stays closed |
| Broadcast.OfferSkipsStale | app.js:36 | rows at or below the cursor change nothing |
| Broadcast.OfferDeliversNewer | app.js:35-51 | with ascending ids and successful sends, a wrapper delivers exactly the rows above its cursor, in order, and its cursor ends at the last of them |
| Broadcast.RedeliveryIsIdempotent | app.js:36-44 | offering the same ascending rows again after a successful round sends nothing |
| Broadcast.Min | app.js:93 | `Math.min` of the cursors is one of them and no larger than any |
| Broadcast.Without | app.js:72 | the filtered list keeps every element but the closed wrapper and adds none |
| Broadcast.WithoutAbsent | app.js:72 | closing a wrapper not in the list leaves it unchanged |
| Broadcast.WithoutIdempotent | app.js:72 | a second close event changes nothing |
| Broadcast.WithoutAt | app.js:72 | in a list without repetitions, closing splices out that one wrapper and keeps the others in order |
| Broadcast.WithoutKeepsNoDup | app.js:72 | the list stays free of repetitions |
| Broadcast.WebSocketWrapper.constructor | app.js:30-33 | a new wrapper holds the given cursor, is open, and has delivered nothing |
| Broadcast.WebSocketWrapper.Send | app.js:35-51 | a row at or below the cursor is skipped; a delivered row moves the cursor to its id and is appended; a failed send closes the socket and keeps the cursor |
| Broadcast.WebSocketWrapper.SendAll | app.js:75-77 | the wrapper ends in `Offer` of its old state over the rows |
| Broadcast.WebSocketHandler.constructor | app.js:60-62 | a handler starts with no wrapper and the given fetch |
| Broadcast.WebSocketHandler.Connect | app.js:64-78 | the fresh wrapper is appended and seeded from `id`; the catch-up call is `CatchUpRequest`; only the new wrapper is offered its rows, the others are untouched |
| Broadcast.WebSocketHandler.Close | app.js:71-73 | the wrapper leaves the list, which stays free of repetitions |
| Broadcast.WebSocketHandler.Update | app.js:91-99 | no wrapper: no fetch; otherwise one fetch at the smallest cursor, and each wrapper ends in `Offer` of its old state over the fetched rows |
| Broadcast.WebSocketHandler.Publish | app.js:95-97 | one row is sent to every wrapper in the list, each taking one `Step` |
| Broadcast.Tick | app.js:236-238 | one tick polls both topics, each as its own `Update` would, and neither disturbs the other's wrappers |
| Broadcast.ServerTick | app.js:102-105 | with the handlers wired as the server wires them, the tick's measurements rows are `getMeasurements` at the poll's call and its debug rows `getDebugMessages` at that call |
| Delivery.NewerOfMeasurements | db.js:41-42 | the rows above cursor c among those fetched at cursor a are the rows a fetch at max(a, c) returns |
| Delivery.OfferOfMeasurements | app.js:95-97 | when every send succeeds, a subscriber offered a measurements fetch at cursor a receives exactly the rows a fetch at the larger of a and its own cursor returns |
| Delivery.SeedFromQuery | app.js:65-66 | the cursor is the parsed `id` or -1; the timestamp is the parsed `timestamp` or undefined |
| Delivery.ConnectWithoutParameters | app.js:81-88 | a connection without parameters starts at -1 and its catch-up looks back two minutes from now |
| Delivery.ReconnectResumesWithoutGap | app.js:64-78 | when every send succeeds, a client reconnecting with `?id=n` is sent exactly the measurements after n, in id order |
| Delivery.SharedFetchServesEachSubscriber | app.js:91-98 | when every cursor is above -1 and every send succeeds, the one shared fetch gives each subscriber exactly the measurements above its own cursor |
| Delivery.FallbackServesWindow | app.js:81-98 | when some cursor is -1, the poll falls back to the two-minute window for every subscriber; when every send succeeds, each receives the window's rows above its own cursor |
| Delivery.DebugQueryNewestFirst | db.js:92 | as written, two debug messages come back newest (highest id) first |
| Delivery.DebugNewestFirstSkipsMessage | app.js:36-44 | with send callbacks applied at once, sent in that order, the older message is skipped and can never be delivered afterwards |
| Delivery.SharedDebugFetchByIdServesEachSubscriber | db.js:82-93 | with the debug query ordered by id and every send succeeding, one poll gives each debug subscriber exactly the messages above its cursor |
| Delivery.DebugQueryById | db.js:82-93 | ordered by id, the same poll returns the two messages oldest first |
| Delivery.DebugByIdDeliversBoth | app.js:35-51 | ...and both are delivered, in id order |
| Routes.MeasurementsRouteIsCatchUp | app.js:107-119 | `GET /api/measurements` asks the store for the same rows as a websocket catch-up with the same parameters |
| Routes.StepsExceededIff | app.js:126-131 | `numSteps > maxSteps` in integers: end - start > 20000·period for a positive period, the reverse for a negative one |
| Routes.AverageRouteDecision | app.js:121-137 | "parameters required" exactly when a parameter is missing or zero; the query runs exactly when all three are non-zero and `numSteps` is at most 20000, and then with the parsed numbers; this bounds the window to 20000 periods for a positive period, and only from below for a negative one |
| Routes.AverageRouteCorrectedDecision | app.js:121-137 | the corrected guard agrees with the route for positive periods, and every query it accepts spans at most 20000 buckets of the width it groups by |
| Routes.NegativePeriodPassesStepLimit | app.js:124-131 | as written, period -1 over 10^8 s is accepted while period 1 is refused, though both group into one-second buckets |
| Routes.NegativePeriodRefusedWhenCorrected | app.js:124-131 | the corrected guard refuses both |
| Routes.RawRouteDecision | app.js:139-153 | the query runs exactly when both bounds are non-zero and at most three days apart, and then returns rows within that window |
| Routes.BulkRouteDecision | app.js:161-179 | 400 exactly when the period is missing or zero; otherwise the window ends at the current second and spans exactly the period: raw below a week, hourly below three weeks, four-hourly beyond |
| Routes.BulkAverageStepLimit | app.js:171-177 | hourly bulk averages always pass the `/average` step limit; four-hourly ones pass it exactly up to 288000000 s |
| Routes.BulkRawBeyondRawLimit | app.js:171-172 | bulk serves raw windows of up to a week; with non-zero bounds, `/raw` refuses such a window exactly when it is longer than three days |
| Routes.BulkNegativePeriodIsEmpty | app.js:164-172 | a negative bulk period is not refused; it runs a raw query over a reversed window, which returns nothing |

## Left out

- HTTP and Express plumbing: headers, logging, request ids, status codes
  other than the 400 decision, and JSON serialisation of the rows.
- The SQLite engine (better-sqlite3) itself. The queries are functions of
  the table contents, and the rows' measured values are an opaque payload.
  So `ROUND`, `AVG` and the floating point values they produce are not
  modelled; `AverageMeasurements` returns the groups whose values are
  averaged.
- `setInterval` timing. `Broadcast.Tick` models one tick; the 500 ms period
  is not modelled.
- The node endpoints (`/api/nodes`, `/api/node/:nodeId` GET and PUT,
  `updateNodeName`) and `/api/measurements/newest`. They do not take part
  in the broadcaster.
- The join with `nodes` beyond membership of the node id. Node names are
  not modelled.
- `Broadcast.WebSocketWrapper.Send`: the send callback runs at once. In the
  source, `this.lastId` is set in an asynchronous callback, after all
  `forEach` sends have been issued; interleavings of callbacks are not
  modelled.
- `Broadcast.WebSocketWrapper.Send`: `ws.close()` is modelled as the flag
  `open`. Sending on a closed socket is folded into the outcome parameter.
- `Broadcast.WebSocketHandler.Connect` and `Broadcast.WebSocketHandler.Close`:
  registering the `close` listener is not modelled. `Close` is the listener's
  body, called explicitly.
- A fetch that throws (a database error) is not modelled.
- `Routes.StepsExceededIff`: JavaScript numbers are IEEE doubles. The model
  uses exact integers and exact real division. `parseInt` results above
  2^53 and rounding of `numSteps` are not modelled.
- Query parameters given more than once (Express turns them into arrays)
  are not modelled. A parameter is one string.
- Ties in `ORDER BY m.timestamp`: the model breaks them by storage order
  (a stable sort); SQLite does not promise an order for ties.

## Findings

| source | as written | input that shows it | evidently intended | confidence | as-written member | corrected member |
|---|---|---|---|---|---|---|
| db.js:92 | the debug query is ordered `m.timestamp DESC`, but the debug topic delivers through the same id cursor as the measurements topic, which only works on rows in ascending id order | debug messages 5 (time 100) and 6 (time 101) of node 1, one subscriber at cursor 4: the poll returns 6 then 5; sending 6 moves the cursor to 6, so 5 is skipped and never sent (with the real asynchronous callbacks, both are sent and the cursor ends at 5, so 6 is sent again on the next poll) | order the debug query by `m.id`, as the measurements query is | medium, not executed | Delivery.DebugNewestFirstSkipsMessage | Delivery.SharedDebugFetchByIdServesEachSubscriber |
| app.js:124-131 | the step limit divides by the signed period, so a negative period makes `numSteps` negative and always passes, while the query groups by the period's magnitude | `start=1&end=100000000&period=-1` is accepted; `period=1` over the same window is refused, and both group into one-second buckets | count the steps with the period's magnitude | medium, not executed | Routes.NegativePeriodPassesStepLimit | Routes.AverageRouteCorrectedDecision |
