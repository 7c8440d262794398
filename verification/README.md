# Polymarket price alerts — a Dafny model of the alert lifecycle

This project models the core of a small price-alert service for Polymarket
prediction markets. A user watches one outcome of a market and names a
threshold and a direction ("above" or "below"). The service keeps the alert
*active* until a poll observes a price at or past the threshold, then moves
it to the *completed* container. Around that lifecycle sit the alert
validator, the paged market listing and its cache and search, the creation
handlers with their duplicate check, the market-detail projection, and the
front-end form rules.

Every handler is modelled as a pure function over immutable values. The
outside world enters only as oracle parameters. A page request, a price
fetch, a store read or write and a Telegram call each either yield a value
or throw (`Wrappers.Result`, `Wrappers.StoreCall`). New ids and timestamps
are parameters too.

Modules, following the program's structure:

- `JsValues` (js.dfy): the JavaScript values documents carry, and the
  operators the code applies to them: truthiness, `typeof`,
  `Number.isInteger`, `===` (NaN equals nothing) and `<`/`<=`.
- `Alerts` (alerts.dfy): alert documents, `isValidAlert`, and the
  `(marketId, outcomeIndex, threshold, direction)` duplicate tuple.
- `AlertStore` (store.dfy): the active and completed containers, with upsert
  and delete by `(id, marketId)`.
- `Markets` (markets.dfy): bounded paging, projection to `{id, question}`,
  and `marketExists`.
- `MarketCache` (cache.dfy): the server's `updateCache` and `/api/markets`
  search.
- `Creation` (creation.dfy): the `createActiveAlert` and `createAlert`
  handlers.
- `Poll` (poll.dfy): the `pollAlerts` and `pollActiveAlerts` ticks.
- `Queries` (queries.dfy): `getActiveAlerts`, `getMarketById` and the
  server's `/api/markets/:id`.
- `LegacyServer` (server.dfy): the Express/socket.io server's in-memory
  registry, its socket `createAlert`, connection re-binding and cron tick.
- `Frontend` (frontend.dfy): the React form and alert list.
- `Seqs` and `Wrappers`: order-preserving filter and subsequence, and
  result types.

## Behaviour modelled as the code has it

- `marketExists` is `async`, and no caller awaits it. The expression
  `!marketExists(id)` is therefore `!<Promise>`, which is always false
  (`Markets.MarketExistsCall`, `Markets.UnawaitedExistsIsTruthy`). So the
  unknown-market skip of both poll ticks never fires. The "not found"
  response of `createActiveAlert` cannot be produced. The `getActiveAlerts`
  filter is exactly the validity filter.
- `isValidAlert` checks types only, plus the open threshold range (0, 1).
  It accepts an empty `marketId` and a negative integer `outcomeIndex`:
  neither a non-empty `marketId` nor a non-negative `outcomeIndex` is
  checked.
- The two poll functions compare inclusively (`<=` / `>=`). The server's
  cron tick compares strictly (`<` / `>`) and only flips a `triggered`
  flag. These are kept as two functions, `Poll.InclusiveHit` and
  `LegacyServer.StrictHit`.
- `pollActiveAlerts` sends the Telegram message *before* writing the
  completed record, so a rejected call leaves the alert active. A non-ok
  Telegram response is only logged.
- The duplicate checks compare with `===`. The two sides never come from
  the same parse, so an object-valued field never matches
  (`Alerts.FieldEq`).
- `createAlert` checks only a truthy `marketId` and a numeric `threshold`.
  Its duplicate check runs over all stored alerts, not only the active
  ones.
- The socket `createAlert` handler does no validation at all.
- A price index past the outcome list makes `parseFloat(undefined)`
  return NaN. That comparison is false, so the alert is simply not hit.

## Model

| member | source | states |
|---|---|---|
| `Alerts.Decode` | backend/shared.js:96-105 | a document reads as a typed alert exactly when `isValidAlert` holds, and the typed alert re-encodes to the same document with a threshold strictly inside (0, 1) |
| `Alerts.EncodeDecode` | backend/shared.js:96-105 | a typed alert is valid iff its threshold is strictly between 0 and 1, and then it decodes back to itself |
| `Alerts.ThresholdBoundsExcluded` | backend/shared.js:102-103 | thresholds exactly 0 and exactly 1 are rejected |
| `Alerts.TypeOnlyChecks` | backend/shared.js:98-100 | an empty market id and a negative integer outcome index are accepted |
| `Alerts.MatchIgnoresId` | backend/createActiveAlert/index.js:31-37 | the duplicate test ignores the stored document's id and is symmetric |
| `Alerts.ObjectFieldsNeverMatch` | backend/createAlert/index.js:14-21 | an object-valued index or threshold on either side never matches |
| `Alerts.NoDupTuplesSubseq` | backend/pollAlerts/index.js:35-41 | removing documents from a container keeps "at most one alert per tuple" |
| `Alerts.NoDupTuplesAppend` | backend/createActiveAlert/index.js:31-45 | appending an alert whose tuple has no duplicate keeps "at most one alert per tuple" |
| `AlertStore.Upsert` | backend/shared.js:77-79 | after an upsert the document is present, it is the only one under its key, and every other key's documents are untouched |
| `AlertStore.Delete` | backend/pollAlerts/index.js:41 | a delete removes exactly the documents under the key and keeps the rest in order |
| `AlertStore.KeysAfterWrites` | backend/pollAlerts/index.js:35-41 | an upsert adds its key to the stored keys; a delete removes exactly its key |
| `Markets.PaginateOffsets` | backend/shared.js:55-56 | page k is requested at offset k·PAGE, never at or beyond MAXPG pages, and at least one page is requested |
| `Markets.PaginateStops` | backend/shared.js:57-59 | every requested page but the last was full; the last one was empty, short or threw, unless the page bound was reached |
| `Markets.PaginateResult` | backend/shared.js:56-58 | the listing succeeds iff no page request threw, and then it is the requested batches concatenated in order |
| `Markets.FetchAllPages` | backend/shared.js:52-60 | the `for` loop with its two `break`s computes the same run as the recursive paging definition |
| `Markets.Project` | backend/shared.js:61 | the projection keeps length and order and copies `id` and `question` of each market |
| `Markets.GetAllActiveMarkets` | backend/shared.js:52-62 | the listing fails iff paging fails, and otherwise is the in-order projection of every market on the requested pages |
| `Markets.MarketExistsSettled` | backend/shared.js:110-113 | the awaited result is true iff some fetched market has the id, and the call throws iff the listing throws |
| `Markets.MarketExistsCall` | backend/shared.js:110 | the un-awaited call yields an object (a Promise) |
| `Markets.UnawaitedExistsIsTruthy` | backend/pollAlerts/index.js:21 | that object is truthy, so `!marketExists(id)` is false for every id |
| `MarketCache.UpdateCache` | backend/server.js:56-79 | a throwing page leaves the cache and the refresh counter unchanged; success replaces the cache with one summary per fetched market and advances the counter |
| `MarketCache.UpdateCacheContents` | backend/server.js:59-69 | a successful refresh requests at most MAX_PAGES pages and holds the in-order projection of every market on them |
| `MarketCache.Search` | backend/server.js:94-102 | at most 20 results, in cache order; without a term, the first 20 cached markets; with a term, the first 20 of the in-order matches (markets whose lower-cased question contains the lower-cased term), or all of them when fewer |
| `MarketCache.SearchExample` | backend/server.js:94-102 | in a cache holding only "Will X happen?", the term "x" finds that market and the term "zz" finds nothing |
| `Creation.CreateActiveAlert` | backend/createActiveAlert/index.js:9-48 | 400 with "Invalid alert payload." iff the probe fails `isValidAlert`; 409 iff a valid request meets an active alert with the same tuple; 201 with the request's fields under the new id iff neither and both store calls succeed; only a 201 changes the store |
| `Creation.ValidationPrecedesStore` | backend/createActiveAlert/index.js:13-31 | an invalid request gets the same 400 whatever the store holds or does, and nothing is written |
| `Creation.CreateActiveAppendsOne` | backend/createActiveAlert/index.js:43-47 | when the new key is not already stored, a successful creation appends exactly the new alert |
| `Creation.CreateActiveKeepsTuplesUnique` | backend/createActiveAlert/index.js:31-45 | creation keeps the active container at most one alert per tuple |
| `Creation.CreatedIsDuplicate` | backend/createActiveAlert/index.js:31-37 | an alert just written is found by the duplicate check for its own request |
| `Creation.CreateActiveTwice` | backend/createActiveAlert/index.js:31-47 | the same valid request twice gives 201, then 409 with no second write |
| `Creation.CreateAlert` | backend/createAlert/index.js:4-31 | 400 iff `marketId` is falsy or `threshold` is not a number; 409 iff a stored alert has the same tuple; 201 with the upserted alert otherwise; only a 201 changes the store |
| `Creation.CreateAlertAcceptsOutOfRange` | backend/createAlert/index.js:8-11 | a threshold of 5, a missing index and an unknown direction are accepted and stored, though `isValidAlert` refuses the result |
| `Creation.CreateAlertTwice` | backend/createAlert/index.js:14-30 | the same request twice gives 201, then 409 with no second write |
| `Poll.InclusiveHitMeaning` | backend/pollAlerts/index.js:30-31 | for a valid alert a numeric price hits iff `price <= threshold` ("below") or `price >= threshold` ("above"); a NaN price never hits |
| `Poll.InclusiveHitExample` | backend/pollAlerts/index.js:30-31 | a "below 0.30" alert hits at 0.30 and not at 0.31 |
| `Poll.Classify` | backend/pollAlerts/index.js:16-49 | an alert is skipped iff it is invalid; the unknown-market skip never happens; it counts as a hit iff its price fetch succeeds and the inclusive test holds; on a hit, it stops at the notification iff `pollActiveAlerts` gets a rejected Telegram call; it moves iff it is a hit, the notification did not stop it, and both writes succeed |
| `Poll.Step` | backend/pollAlerts/index.js:33-41 | only a written completed record changes the stores; the record is the alert plus `completedAt` and the observed price; after a move the alert's key is gone from active; after a failed delete it stays active; the calls are made in the order upsert, then delete |
| `Poll.TelegramNotOkIsHarmless` | backend/pollActiveAlerts/index.js:30-32 | a non-ok Telegram response gives exactly the outcome of a delivered one |
| `Poll.NotifyFirst` | backend/pollActiveAlerts/index.js:56-69 | on a hit the Telegram message is the first call; if it throws, both containers are untouched |
| `Poll.RunOutcomes` | backend/pollAlerts/index.js:16-49 | every alert of the list read at tick start is processed exactly once, in order, and its outcome depends only on that alert and its own calls |
| `Poll.RunActive` | backend/pollAlerts/index.js:35-41 | after the tick an active document remains iff it was there and no alert with its key completed its move |
| `Poll.RunCompleted` | backend/pollAlerts/index.js:35-39 | after the tick the completed keys are the earlier ones plus the keys whose record was written |
| `Poll.TickLosesNothing` | backend/pollAlerts/index.js:35-41 | after a tick every previously active alert is still active or has a completed record |
| `Poll.TickMovesHits` | backend/pollActiveAlerts/index.js:62-69 | an alert whose move succeeded is absent from active and present in completed after the tick |
| `Poll.TickKeepsUntriggered` | backend/pollAlerts/index.js:17-33 | an alert that no move touched is still active after the tick |
| `Poll.TickKeepsTuplesUnique` | backend/pollAlerts/index.js:12-51 | a tick keeps the active container at most one alert per tuple |
| `Queries.GetActiveAlerts` | backend/getActiveAlerts/index.js:4-10 | the result is an in-order subsequence of the active list whose members are exactly its valid alerts; a throwing read escapes |
| `Queries.ActiveAlertsAreTheValidOnes` | backend/getActiveAlerts/index.js:6-8 | the filter equals the plain `isValidAlert` filter |
| `Queries.ZipFrom` | backend/getMarketById/index.js:22-26 | one entry per label; entry i has id i, label `outcomes[i]`, and price `outcomePrices[i]`, or undefined past the prices |
| `Queries.ZipRoundTrip` | backend/getMarketById/index.js:22-26 | the labels come back in order, and so do the prices when there is one per label |
| `Queries.GetMarketById` | backend/getMarketById/index.js:5-29 | a non-ok upstream gives exactly 502; otherwise `id` and `question` are copied and the outcomes are the label/price zip, entry by entry |
| `Queries.ServerMarketById` | backend/server.js:108-136 | the same 502 and projection, and a network failure gives exactly 500 |
| `LegacyServer.Rebind` | backend/server.js:167-171 | every persisted alert, in order, bound to the socket with `triggered` false |
| `LegacyServer.Connect` | backend/server.js:163-171 | a connection keeps the persisted list and replaces the in-memory list by every persisted alert, in order, on the new socket with `triggered` false |
| `LegacyServer.SocketCreate` | backend/server.js:173-205 | a persisted duplicate tuple gives an error with nothing changed; otherwise both lists gain exactly the new alert, in memory with `triggered` false |
| `LegacyServer.SocketCreateTwice` | backend/server.js:177-203 | the same payload twice is stored once and refused the second time |
| `LegacyServer.ConventionsDiffer` | backend/server.js:219-222 | a strict hit is an inclusive hit, and the two differ only when the price equals the threshold |
| `LegacyServer.BoundaryExample` | backend/server.js:219-222 | "below 0.30" at price 0.30 completes in the poll functions but does not fire in the cron tick |
| `LegacyServer.FiringPositions` | backend/server.js:216-223 | the positions whose alert is untriggered, priced, and strictly crossing, each once, in increasing order |
| `LegacyServer.CronFrom` | backend/server.js:216-234 | alerts and sockets are unchanged; an alert ends triggered iff it was, or it was untriggered and its price strictly crossed; every event comes from such a newly fired alert; a throwing fetch skips only its alert |
| `LegacyServer.CronEvents` | backend/server.js:223-229 | the loop emits exactly one `alertTriggered` event per firing alert, to its socket with its market, outcome and price, in list order |
| `LegacyServer.CronTick` | backend/server.js:215-235 | the tick keeps the persisted list, fires exactly the untriggered alerts whose price strictly crosses, and emits one event per firing alert, in list order, and no other |
| `LegacyServer.ReconnectReArms` | backend/server.js:167-171 | after a reconnect, a persisted alert whose price strictly crosses fires again, even if it fired before |
| `Frontend.Sanitize` | frontend/src/App.js:283-286 | the field holds the first two digits typed, or all of them when fewer than two were typed, and nothing else |
| `Frontend.SanitizeIdempotent` | frontend/src/App.js:283-286 | sanitising twice equals sanitising once |
| `Frontend.Threshold` | frontend/src/App.js:94 | `0.<digits>` lies in [0, 1) |
| `Frontend.ThresholdOfDigits` | frontend/src/App.js:94 | "" is 0, "d" is d/10, "de" is (10d+e)/100, so the threshold lies in [0, 0.99] |
| `Frontend.CheckThreshold` | frontend/src/App.js:97-113 | no detail means no error; "above" is accepted iff price < threshold ≤ 0.99; otherwise iff 0.01 ≤ threshold < price; a NaN price leaves only the 0.99 or 0.01 bound |
| `Frontend.EnabledSubmitPassesValidation` | frontend/src/App.js:98-113 | with detail and a non-negative price, an enabled submit sends a threshold strictly inside (0, 1) that passes the backend validator |
| `Frontend.UncheckedZeroThreshold` | frontend/src/App.js:95-113 | without detail, or with a NaN price and "above", a zero threshold is not flagged, though the backend refuses it |
| `Frontend.Submit` | frontend/src/App.js:116-170 | a listed duplicate sends no request and keeps the list; otherwise the form's payload is sent; the list grows by exactly the enriched, untriggered created alert iff the create and its detail fetch succeed |
| `Frontend.SubmitTwice` | frontend/src/App.js:119-131 | after an alert is listed, submitting the same form again sends nothing |
| `Frontend.Enrich` | frontend/src/App.js:156-161 | the listed alert keeps the created alert's fields and is untriggered |
| `Frontend.EnrichAll` | frontend/src/App.js:40-52 | each raw alert, in order, is enriched with its own detail |
| `Frontend.Load` | frontend/src/App.js:21-58 | a failed fetch leaves the list as it was; otherwise the list is an in-order subsequence of the enriched alerts, holding every valid one and only valid, untriggered ones |

## Left out

- HTTP, socket and timer plumbing is left out: Express routing, socket.io
  emits and rooms, the Azure Functions `context`, the `node-cron`
  schedules, and all logging. Each handler is a function that returns a
  response or result value.
- Network and storage are oracle parameters. This covers `fetch` to
  Polymarket and Telegram, the Cosmos DB client, and `alerts.json` reads
  and writes. The model assumes a failed store write leaves its container
  unchanged. The server's `writeFileSync` is taken to succeed.
- `listActiveAlerts`, `upsertActiveAlert`, `upsertCompletedAlert`,
  `deleteActiveAlert` and `listCompletedAlerts` are called by the handlers
  but not exported by backend/shared.js. They are modelled as upsert and
  delete by `(id, marketId)` on a pair of sequences.
- Parsing and formatting are not modelled: `JSON.parse`, `parseFloat` and
  `toFixed`. Upstream arrays arrive parsed. Prices are JavaScript numbers,
  possibly NaN. The front end's displayed price is an input.
- `fetchPrice` internals are not modelled. It yields a number or throws.
  Its reference to an undefined `resp` (backend/shared.js:86) still ends
  in a throw.
- Each un-awaited `marketExists` call still starts a full market listing.
  Its result, or its rejection, is never observed, so it is not modelled.
- Ids (`Date.now()`) and timestamps are parameters. Their uniqueness is
  not claimed, so a colliding id makes an upsert replace a document.
- Concurrency is not modelled: overlapping ticks, racing creations, and a
  connection re-binding `alertsInMemory` while a cron tick awaits.
- React rendering, `Notification` permission, the `setTimeout` status
  clearing, and the browser's `required` form checks are left out.
- The pass-through handlers are left out: backend/getMarkets,
  backend/getAlerts and backend/getCompletedAlerts.
- The `+Infinity`, `-Infinity` and `-0` numbers are left out.
- JsValues.ToNumber: a non-empty string or an object converts to NaN in
  the model. JavaScript would parse numeric text, or call `valueOf`. This
  only matters for unvalidated socket payloads in the cron tick.
- MarketCache.Search: lower-casing is ASCII-only. A `q` given twice, which
  arrives as an array and throws, is not modelled.
- Frontend.Threshold: defined only for digit strings. The form field never
  holds anything else.
- Frontend.Enrich: an outcome index is looked up only as an integer, not
  as a general property key.
- Queries.GetMarketById: a JSON parse failure of the upstream strings is
  not modelled.
