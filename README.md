# Copy-trading engine: a Dafny model

This project models the core of a copy-trading service for a stock broker.
A *parent* account places an order; the server submits it to the broker,
stores it in the parent's order history, broadcasts a `new_order` event and
copies the order to each of the parent's active *child* accounts. Children
are linked, listed and removed through the child-account routes. A periodic
sweep marks pending orders as complete. The web client keeps a filtered
orders table that follows the server through two socket listeners.

Modules: `Auth`, `Trading` and `OrdersTable` follow one source file each;
`JsText` and `Orders` are shared by them; `ClientSync` holds lemmas that
span the server and the client:

- `JsText` (`js_text.dfy`): the JavaScript semantics the code relies on.
  This covers `undefined` and truthiness, `a || b`, `split`, `includes`,
  `toLowerCase`, `parseInt` of a number, `findIndex` and `filter`.
- `Auth` (`auth.dfy`): the `authenticateToken` middleware, as a pure function
  from the `authorization` header to a 401 or a principal.
- `Orders` (`orders.dfy`): the order record shared by server and client.
- `Trading` (`trading.dfy`): the route handlers of `server/routes/trading.js`.
  The class `TradingDesk` holds the two module-level maps `orderHistory` and
  `childAccountMappings`. Its methods are the handlers and the sweep. The
  class also keeps two ghost logs: every `io.emit` and every broker call.
  Each method is proved against pure specification functions (`FanOut`,
  `PrependAll`, `MarkCancelled`, `Upsert`, `RemoveChild`, `SweepAll`,
  `SweepLog`), and the lemmas state the properties of those functions.
- `OrdersTable` (`orders_table.dfy`): `applyFilters` and the two socket
  reducers of `src/components/OrdersTable.tsx`.
- `ClientSync` (`client_sync.dfy`): lemmas relating the server's stored
  lists to what a client's table shows after folding in the broadcast
  events.

Inputs the code gets from outside become parameters:

- The broker's place, cancel and profile endpoints are oracle functions.
- The two `Date.now()` readings in `POST /orders` are `tagClock` and
  `recordClock`; ISO timestamps are string parameters, one per clock
  reading (`connectedAt` and `lastSync` in `POST /child-accounts`).
- `Math.random()` in the sweep is an oracle `completes(user, index)`.

Behaviour of the code that a reader might not expect, modelled as written:

- A child whose copy is rejected is only logged. The code never sets
  `is_active` to false, and there is no deactivation operation.
- The placement response carries no per-child fan-out summary; the message
  only depends on the caller's role.
- The quantity check is JavaScript truthiness (`!quantity`). A negative
  quantity passes; only a missing or zero quantity gives 400. The quantity
  sent and stored is `parseInt(quantity)`, so a fraction is truncated and a
  quantity strictly between -1 and 1, such as 0.5, passes the check but is
  sent to the broker and stored as 0 (`Trading.FractionalQuantitySentAsZero`).
- Re-adding a child replaces the old record at its existing position.
- `DELETE /orders/:orderId` sends the broker `DELETE /order/cancel` without the order id. The request helper attaches a body only to POST and PUT (`server/routes/trading.js:27-30`), so the `{ order_id }` argument is dropped. The model's cancel oracle sees only the token, and the call log records only the token. The local list is still updated when the broker accepts.
- The child tag is built from the raw request tag. An untagged request
  therefore gives child tags `"undefined_child_<id>"`, not the generated
  `copy_trading_<time>` tag (`Trading.ChildTag`).

## Model

| member | source | states |
|---|---|---|
| JsText.Split | server/middleware/auth.js:3 | `split` always yields at least one part |
| JsText.SplitJoin | server/middleware/auth.js:3 | joining the parts with the separator restores the string, and no part contains the separator |
| JsText.SecondFieldIff | server/middleware/auth.js:3 | element [1] of the split is `t` exactly when the string reads `a + sep + t + rest`, with no separator in `a` or `t` and `rest` empty or starting with the separator |
| JsText.ContainsIff | server/middleware/auth.js:17 | `includes(sub)` holds exactly when `sub` occurs at some index |
| JsText.ToLower | src/components/OrdersTable.tsx:84 | same length, each character lower-cased, no upper-case letter left |
| JsText.Decimal | server/routes/trading.js:191 | the rendered clock reading is non-empty and all digits |
| JsText.DecimalInjective | server/routes/trading.js:191 | different clock readings render as different text |
| JsText.Truncate | server/routes/trading.js:187 | `parseInt` of a number in plain notation truncates toward zero: the result is within one of the number, on the same side of zero |
| JsText.FindIndex | server/routes/trading.js:320 | the result is the first index whose element satisfies the predicate; none exactly when no element does |
| JsText.KeepSelects | server/routes/trading.js:453 | `filter` keeps exactly the satisfying elements, each as often as it occurs, in their order, and never lengthens the list |
| JsText.KeepCounts | server/routes/trading.js:453 | each satisfying element occurs in the result as often as in the list, every other element not at all |
| JsText.KeepKeep | src/components/OrdersTable.tsx:82-93 | two filters in a row are one filter by the conjunction |
| JsText.KeepIdempotent | src/components/OrdersTable.tsx:82-93 | filtering twice by the same predicate is filtering once |
| Auth.BearerToken | server/middleware/auth.js:2-3 | no token without a truthy header; a token is non-empty, holds no space and is one of the header's space-separated parts |
| Auth.Authenticate | server/middleware/auth.js:1-23 | 401 exactly when no usable token is present; otherwise the token is non-empty, has no space, and the user id is `"user_"` followed by a prefix of the token of length `min(8, |token|)` |
| Auth.MissingHeaderRejected | server/middleware/auth.js:2-7 | a missing or empty header gives 401 "Access token required" and no principal |
| Auth.TokenIsSecondWord | server/middleware/auth.js:3-7 | a header is accepted with token `t` exactly when `t` is non-empty and is the text between the first and second space, so `"Bearer"` and `"Bearer  x"` are rejected |
| Auth.UserIdFromFirstEightChars | server/middleware/auth.js:15 | tokens that agree on their first eight characters give the same user id |
| Auth.RoleDetection | server/middleware/auth.js:17 | the role is Parent exactly when `"parent"` occurs in the token, Child otherwise |
| Trading.HasRequiredFields | server/routes/trading.js:178 | a body that passes has a present, non-zero quantity; a zero or missing quantity is refused |
| Trading.NonZeroQuantityAccepted | server/routes/trading.js:178 | any non-zero quantity, negative and fractional ones included, passes wherever the rest of the body does |
| Trading.OrderData | server/routes/trading.js:186-199 | every text field sent to the broker is non-empty; the quantity is the number truncated toward zero, so it is 0 exactly when the number lies strictly between -1 and 1; the tag is the request's truthy tag or starts with `copy_trading_`; validity defaults to DAY |
| Trading.FractionalQuantitySentAsZero | server/routes/trading.js:178-187 | some body passes the required-fields check and is still sent with quantity 0 |
| Trading.DefaultTagsDistinct | server/routes/trading.js:191 | two untagged placements at different clock readings get different default tags |
| Trading.NewOrder | server/routes/trading.js:208-234 | the stored order has the first broker id, status pending, the caller as owner, nothing filled and everything pending (so filled + pending = quantity), validity defaulting to DAY, disclosed quantity and trigger price defaulting to 0, and its trading fields equal to the request sent to the broker |
| Trading.ChildTag | server/routes/trading.js:258 | the child tag ends with the child's id after `_child_`, and is `undefined_child_<id>` for an untagged request |
| Trading.ChildTagsDistinct | server/routes/trading.js:258 | different children of one placement get different tags |
| Trading.Replica | server/routes/trading.js:264-271 | the replica has the child's first id and ids, the child as owner, the parent's id as `parent_order_id`, tag `tag + "_child_" + childId`, and every other field copied from the parent order |
| Trading.CopyToChild | server/routes/trading.js:251-285 | one iteration: no call exactly for an inactive child, otherwise one call with the child's token and tagged request; a replica exactly when the broker accepts, owned by the child, pointing at the parent order, balanced when the parent is |
| Trading.FanOut | server/routes/trading.js:250-286 | the fan-out makes at most one broker call per child and records at most one replica per call; all replicas are balanced when the parent order is |
| Trading.FanOutConcat | server/routes/trading.js:250-286 | each child's part of the fan-out depends on that child alone: the trace over `a + b` is the trace over `a` followed by the trace over `b` |
| Trading.ChildFailureIsolated | server/routes/trading.js:282-284 | a child whose copy the broker rejects adds its call and nothing else; the children before and after it are copied as if it were absent |
| Trading.InactiveChildSkipped | server/routes/trading.js:251 | an inactive child is skipped: no broker call and no replica |
| Trading.ReplicasExactly | server/routes/trading.js:250-286 | the replicas are exactly the copies for the active children whose broker call succeeded |
| Trading.NewestFirstMembers | server/routes/trading.js:238 | a user's new orders in the history are exactly the run's orders owned by that user, each as often as it occurs in the run |
| Trading.NewestFirstIsReversedKeep | server/routes/trading.js:238 | a user's new orders are the run filtered by owner and reversed, newest on top |
| Trading.PrependAllHistory | server/routes/trading.js:273-276 | after prepending a run of orders, each user's history is that user's orders from the run, newest first, in front of the old history |
| Trading.PlacementHistory | server/routes/trading.js:237-239 | after a placement the caller's history is its own order in front of the old one (with its own replicas, if any, on top) and every user without a replica keeps its history |
| Trading.PrependAllBalanced | server/routes/trading.js:237-276 | storing balanced orders keeps every stored order balanced |
| Trading.PrependAllConcat | server/routes/trading.js:237-276 | storing two runs one after the other is storing their concatenation |
| Trading.NewOrderEvents | server/routes/trading.js:279 | one `new_order` event per stored replica, in order |
| Trading.RecordThen | server/routes/trading.js:250-286 | recording the effects of two traces in turn is recording the combined trace |
| Trading.MarkCancelled | server/routes/trading.js:322-324 | only the status of the order at the index changes, to cancelled; every other order is untouched and balance is kept |
| Trading.CancelAgainSameList | server/routes/trading.js:319-324 | cancelling the same id again finds the same order and leaves the list as it is |
| Trading.Upsert | server/routes/trading.js:418-428 | the new child is in the list; an entry with the same id is replaced where it stands, otherwise the child is appended; other entries stay; unique child ids stay unique |
| Trading.NewChild | server/routes/trading.js:406-416 | the stored child is active, holds the given token and the two separate timestamps, zero value and P&L, a non-empty name and e-mail, and the profile's truthy id |
| Trading.RemoveChild | server/routes/trading.js:451-454 | no entry with the id is left, every other entry stays, in order |
| Trading.RemoveChildIdempotent | server/routes/trading.js:451-454 | removing twice is removing once |
| Trading.RemoveChildKeepsUnique | server/routes/trading.js:451-454 | removal keeps child ids unique |
| Trading.Completed | server/routes/trading.js:522-525 | a completed order is complete, fully filled at its price with nothing pending, otherwise unchanged, and balanced |
| Trading.SweepOrders | server/routes/trading.js:517-531 | one user's swept list keeps its length and ids; each order stays or was pending and is now its completion; non-pending orders stay |
| Trading.SweepAll | server/routes/trading.js:516-531 | the sweep keeps every user and every list's length |
| Trading.SweepEvents | server/routes/trading.js:519-528 | no more events than orders; each is an `order_update` carrying a complete, balanced order |
| Trading.SweepOutcome | server/routes/trading.js:516-531 | the sweep keeps every user and every list's length and order; each order stays as it was or was pending and is now complete with filled = quantity, pending = 0 and average price = price, other fields unchanged; non-pending orders are untouched |
| Trading.SweepBalanced | server/routes/trading.js:522-525 | the sweep keeps every stored order balanced |
| Trading.SweepEventsAreCompletions | server/routes/trading.js:519-528 | every sweep event is an `order_update` carrying the completion of a pending order of that list whose draw succeeded |
| Trading.TradingDesk.constructor | server/routes/trading.js:9-10 | both maps and both logs start empty |
| Trading.TradingDesk.PlaceOrder | server/routes/trading.js:147-305 | 400 with no broker call and no change when a required field is falsy; 500 with one broker call and no stored order when the broker rejects; otherwise the order is stored, `new_order` is emitted, and the fan-out (only for a parent) is recorded; the registry is not touched |
| Trading.TradingDesk.CopyToChildren | server/routes/trading.js:245-287 | the loop's store, events and broker calls are exactly those of `FanOut` over the children, in list order |
| Trading.TradingDesk.CopyToChildAccount | server/routes/trading.js:251-285 | one iteration: the store, events and broker calls change exactly as `CopyToChild` says |
| Trading.TradingDesk.CancelOrder | server/routes/trading.js:308-337 | the upstream cancel is called first, with the caller's token and no order id; on failure nothing changes; on success the caller's first order with the id is cancelled and an `order_update` emitted, or nothing changes for an unknown id, and the response is success either way |
| Trading.TradingDesk.GetChildAccounts | server/routes/trading.js:375-387 | 403 exactly for a non-parent; otherwise the parent's children, which have unique ids |
| Trading.TradingDesk.AddChildAccount | server/routes/trading.js:389-442 | 403 for a non-parent, 400 for missing fields, both without a broker call; 400 when the profile check fails; otherwise the verified child is upserted under the parent |
| Trading.TradingDesk.RemoveChildAccount | server/routes/trading.js:444-461 | 403 for a non-parent; otherwise the entries with the id are filtered out of the parent's list |
| Trading.TradingDesk.Sweep | server/routes/trading.js:513-537 | the store becomes `SweepAll` of the old store, every user is visited once, and the events are the completions of each visited list; the registry and broker log are untouched |
| Trading.TradingDesk.SweepUsers | server/routes/trading.js:516-533 | the loop over the users visits each key once and sweeps its list |
| Trading.TradingDesk.SweepUser | server/routes/trading.js:517-531 | one user's list is swept in list order and exactly its completion events are emitted |
| OrdersTable.ApplyFilters | src/components/OrdersTable.tsx:80-96 | the three stages amount to one filter by `Matches`: an order stays when it meets every criterion not set to 'all' |
| OrdersTable.StagesAreKeep | src/components/OrdersTable.tsx:81-93 | the status, type and product stages in a row are one filter by `Matches` |
| OrdersTable.FilterSelectsExactly | src/components/OrdersTable.tsx:80-95 | the table shows exactly the orders that meet every criterion not set to 'all', each as often as it occurs, in their original order, never more than the list holds |
| OrdersTable.FilterIdentityIff | src/components/OrdersTable.tsx:81-95 | the filter leaves the list unchanged exactly when every order passes it; the all-'all' filter always does |
| OrdersTable.FilterIdempotent | src/components/OrdersTable.tsx:80-95 | filtering the filtered list again changes nothing |
| OrdersTable.StatusCaseIgnored | src/components/OrdersTable.tsx:84 | an order and the same order with its status lower-cased pass the same filters |
| OrdersTable.UppercaseStatusSelectsNothing | src/components/OrdersTable.tsx:84 | a status criterion containing an upper-case letter matches no order |
| OrdersTable.ApplyOrderUpdate | src/components/OrdersTable.tsx:44-50 | the update keeps the list's length and every position's order id |
| OrdersTable.UpdateReplacesById | src/components/OrdersTable.tsx:44-50 | entries with the update's id become the update, all others stay; the update appears exactly when some entry had its id |
| OrdersTable.UpdateUnknownIdIsNoOp | src/components/OrdersTable.tsx:44-50 | an update for an id the list does not hold changes nothing |
| OrdersTable.UpdateIdempotent | src/components/OrdersTable.tsx:44-50 | receiving the same update twice is receiving it once |
| OrdersTable.UpdateKeepsUniqueIds | src/components/OrdersTable.tsx:44-50 | an update keeps unique order ids unique |
| OrdersTable.UpdateAtUniquePosition | src/components/OrdersTable.tsx:44-50 | with unique ids, the update replaces the single entry with its id |
| OrdersTable.PrependNewOrder | src/components/OrdersTable.tsx:55 | the new order is on top, the length grows by one, and the rest is the previous list |
| JsText.Reversed | src/components/OrdersTable.tsx:55 | the newest-first order of a run: same length, element `i` is the `i`-th from the end |
| ClientSync.BroadcastShowsEveryNewOrder | src/components/OrdersTable.tsx:53-56 | since `new_order` is broadcast, a client's list receives every placed order, whoever placed it, newest on top |
| ClientSync.OwnViewMatchesServer | src/components/OrdersTable.tsx:53-56 | restricted to one user's orders, the received `new_order` events build what the server prepends to that user's history |
| ClientSync.PlaceOrderMirrored | server/routes/trading.js:237-279 | a client of user `u` that held `u`'s history and keeps only `u`'s orders ends up, after a placement's events, with exactly the history the server stores for `u` |
| ClientSync.CancelMirrored | server/routes/trading.js:319-327 | the `order_update` emitted by a cancel turns a client's copy of the list (unique ids) into the server's new list |
| ClientSync.SweepMirrored | server/routes/trading.js:516-531 | the sweep's `order_update` events turn a client's copy of a list (unique ids) into the swept list the server stores |

## Left out

- Broker HTTP calls (`makeUpstoxCall`, `makeUpstoxV3Call`): network I/O, modelled as oracle functions. A reply that is not a proper id list (missing `data`, an empty `order_ids`) is not modelled: the oracle's ids are non-empty.
- Socket.IO: `io.emit` is a ghost event log. Connection, rooms and delivery are not modelled; a client is assumed to receive every event in emission order.
- The positions, portfolio, market-data and subscribe routes: they only reshape broker JSON or return mock data.
- `GET /orders`: it reshapes the broker's order list and, when the broker call fails, returns the caller's stored history unchanged. It is read-only and changes no state.
- OAuth token exchange, client-side authentication, socket and timer lifecycle, and all rendering (number and date formatting, CSV export).
- Prices are copied, never computed with, so a real number stands for the float. Numeric body fields are JSON numbers or absent; numeric strings, `NaN` and infinities are not modelled.
- Trading.OrderData: `parseInt` works on the number's text, so numbers that JavaScript writes in exponent notation (magnitude at least 1e21, or non-zero below 1e-6) give the mantissa's leading digits (`parseInt(1e21)` is 1, `parseInt(5e-7)` is 5). The model truncates them like any other number.
- Request fields of a non-string type (for example an `instrument_token` that is a number, on which `split` would throw) are not modelled.
- JsText.ToLower: lower-cases ASCII letters only, not the full Unicode mapping of `toLowerCase`.
- Concurrency: handlers run to completion one at a time. The interleaving of two requests at the broker `await`s is not modelled.
- Trading.TradingDesk.Sweep: visits the users in some order, each once. JavaScript `Map` iteration follows key insertion order, which the model does not track.
- Trading.TradingDesk.SweepUsers: its loop picks any user not yet visited, where the source follows `Map` insertion order; only the order of the emitted events can differ.
- The 403 `catch` in the auth middleware and the 500 `catch` blocks of the child-account routes: they cannot be reached for string inputs.
- Logging (`console.log`, `console.error`).
