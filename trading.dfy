/** The copy-trading engine of server/routes/trading.js: order placement with
    fan-out to the parent's active child accounts, cancellation, the child
    account registry and the periodic status sweep, over the two in-memory
    maps `orderHistory` and `childAccountMappings`.

    The broker is an oracle passed in as a function; every call made to it is
    recorded in a ghost log, and every `io.emit` in a ghost event log. */
module Trading {
  import opened JsText
  import opened Orders
  import opened Auth

  // ===========================================================================
  // Requests, replies and records

  /** The broker's `order_ids`: the first one is the primary id. */
  type OrderIds = ids: seq<string> | |ids| > 0 witness [""]

  /** `req.body` of `POST /orders`, parsed from JSON; absent fields are None.
      The two quantities are JSON numbers, so they may carry a fraction.
      `is_amo` and `slice` are their truthiness (`Boolean(x)`). */
  datatype OrderBody = OrderBody(
    quantity: Option<real>,
    product: Option<string>,
    validity: Option<string>,
    price: Option<Price>,
    tag: Option<string>,
    instrument_token: Option<string>,
    order_type: Option<string>,
    transaction_type: Option<string>,
    disclosed_quantity: Option<real>,
    trigger_price: Option<Price>,
    is_amo: bool,
    slice: bool,
    trading_symbol: Option<string>)

  /** `orderData`: what is sent to the broker's place-order endpoint. */
  datatype OrderRequest = OrderRequest(
    quantity: int,
    product: string,
    validity: string,
    price: Price,
    tag: string,
    instrument_token: string,
    order_type: string,
    transaction_type: string,
    disclosed_quantity: int,
    trigger_price: Price,
    is_amo: bool,
    slice: bool)

  datatype PlaceReply = Accepted(order_ids: OrderIds) | Rejected(message: Option<string>)
  datatype CancelReply = CancelAccepted | CancelRejected(message: Option<string>)
  datatype Profile = Profile(user_id: Option<string>, user_name: Option<string>, email: Option<string>)
  datatype ProfileReply = ProfileFound(profile: Profile) | ProfileRejected

  /** The broker's place-order endpoint, called with an access token. */
  type Broker = (string, OrderRequest) -> PlaceReply

  datatype BrokerCall =
    | PlaceCall(access_token: string, request: OrderRequest)
    /** The cancel request carries the token only: the request helper
        attaches a body to POST and PUT, never to this DELETE. */
    | CancelCall(access_token: string)
    | ProfileCall(access_token: string)

  /** What `io.emit` broadcasts. */
  datatype Event = NewOrderEvent(order: Order) | OrderUpdateEvent(order: Order)

  datatype ChildAccount = ChildAccount(
    user_id: string,
    user_name: string,
    email: string,
    access_token: string,
    is_active: bool,
    connected_at: string,
    last_sync: string,
    portfolio_value: int,
    day_pnl: int)

  /** `req.body` of `POST /child-accounts`. */
  datatype ChildBody = ChildBody(user_id: Option<string>, access_token: Option<string>)

  datatype PlaceResponse =
    | MissingFields                              // 400
    | PlacementFailed(error: string)             // 500
    | Placed(order: Order, message: string)      // success
  datatype CancelResponse = CancelFailed(error: string) | CancelSucceeded
  datatype ChildListResponse = ListForbidden | ChildList(children: seq<ChildAccount>)
  datatype AddChildResponse =
    | AddForbidden                               // 403
    | MissingChildFields                         // 400
    | VerificationFailed                         // 400
    | ChildAdded(child: ChildAccount)
  datatype RemoveChildResponse = RemoveForbidden | ChildRemoved

  // ===========================================================================
  // Shaping a placement request

  /** `!quantity` is false: the quantity is present and non-zero. */
  predicate QuantityTruthy(q: Option<real>) {
    q.Some? && q.value != 0.0
  }

  /** The guard that answers 400 when it fails. Every field is only
      checked for truthiness: a negative quantity passes. */
  predicate HasRequiredFields(b: OrderBody): (ok: bool)
    ensures ok ==> b.quantity.Some? && b.quantity.value != 0.0
    ensures b.quantity == Some(0.0) || b.quantity.None? ==> !ok
  {
    && Truthy(b.instrument_token)
    && QuantityTruthy(b.quantity)
    && Truthy(b.order_type)
    && Truthy(b.transaction_type)
    && Truthy(b.product)
  }

  /** Only zero and a missing quantity are refused: any other quantity,
      negative ones included, passes wherever the rest of the body does. */
  lemma NonZeroQuantityAccepted(b: OrderBody, q: real)
    requires HasRequiredFields(b) && q != 0.0
    ensures HasRequiredFields(b.(quantity := Some(q)))
  {
  }

  /** A quantity strictly between -1 and 1, such as 0.5, passes `!quantity`
      but is sent to the broker, and stored, as 0. */
  lemma FractionalQuantitySentAsZero(now: nat)
    ensures exists b: OrderBody :: HasRequiredFields(b) && OrderData(b, now).quantity == 0
  {
    var t := Some("NSE_EQ|INE002A01018");
    var b := OrderBody(Some(0.5), Some("D"), None, None, None, t, Some("MARKET"), Some("BUY"),
                       None, None, false, false, None);
    assert HasRequiredFields(b);
    assert OrderData(b, now).quantity == 0;
  }

  /** `parseFloat(x) || 0`, where None is an absent or unparsable value. */
  function PriceOrZero(p: Option<Price>): Price {
    if p.Some? then p.value else 0.0
  }

  /** `parseInt(x) || 0` on a number that may be absent. */
  function IntOrZero(q: Option<real>): int {
    if q.Some? then Truncate(q.value) else 0
  }

  const DEFAULT_VALIDITY := "DAY"
  const TAG_PREFIX := "copy_trading_"

  /** `tag || \`copy_trading_${Date.now()}\``, with the clock reading as a parameter. */
  function DefaultTag(b: OrderBody, now: nat): string {
    OrElse(b.tag, TAG_PREFIX + Decimal(now))
  }

  /** Two untagged placements at different clock readings get different tags. */
  lemma DefaultTagsDistinct(b: OrderBody, m: nat, n: nat)
    requires !Truthy(b.tag) && m != n
    ensures DefaultTag(b, m) != DefaultTag(b, n)
  {
    if DefaultTag(b, m) == DefaultTag(b, n) {
      assert (TAG_PREFIX + Decimal(m))[|TAG_PREFIX|..] == Decimal(m);
      assert (TAG_PREFIX + Decimal(n))[|TAG_PREFIX|..] == Decimal(n);
      DecimalInjective(m, n);
    }
  }

  /** `orderData`: every text field the broker receives is non-empty, the
      tag and validity falling back to their defaults. */
  function OrderData(b: OrderBody, now: nat): (r: OrderRequest)
    requires HasRequiredFields(b)
    ensures r.instrument_token != "" && r.order_type != "" && r.transaction_type != "" && r.product != ""
    ensures r.quantity == Truncate(b.quantity.value)
    ensures r.quantity == 0 <==> -1.0 < b.quantity.value < 1.0
    ensures r.validity != "" && r.tag != ""
    ensures Truthy(b.tag) ==> r.tag == b.tag.value
    ensures !Truthy(b.tag) ==> |r.tag| > |TAG_PREFIX| && r.tag[..|TAG_PREFIX|] == TAG_PREFIX
    ensures !Truthy(b.validity) ==> r.validity == DEFAULT_VALIDITY
  {
    OrderRequest(
      quantity := Truncate(b.quantity.value),
      product := b.product.value,
      validity := OrElse(b.validity, DEFAULT_VALIDITY),
      price := PriceOrZero(b.price),
      tag := DefaultTag(b, now),
      instrument_token := b.instrument_token.value,
      order_type := b.order_type.value,
      transaction_type := b.transaction_type.value,
      disclosed_quantity := IntOrZero(b.disclosed_quantity),
      trigger_price := PriceOrZero(b.trigger_price),
      is_amo := b.is_amo,
      slice := b.slice)
  }

  /** The order recorded for the caller once the broker accepted the request.
      `now` is the second `Date.now()` reading, taken when the record is built. */
  function NewOrder(b: OrderBody, userId: string, ids: OrderIds, now: nat, timestamp: string): (o: Order)
    requires HasRequiredFields(b)
    ensures o.order_id == ids[0] && o.upstox_order_ids == ids
    ensures o.status == PENDING && o.user_id == userId && o.parent_order_id.None?
    ensures o.filled_quantity == 0 && o.pending_quantity == o.quantity && o.average_price == 0.0
    ensures Balanced(o)
    ensures o.validity == (if Truthy(b.validity) then b.validity.value else DEFAULT_VALIDITY)
    ensures o.quantity == Truncate(b.quantity.value)
    ensures o.disclosed_quantity == (if b.disclosed_quantity.Some? then Truncate(b.disclosed_quantity.value) else 0)
    ensures o.trigger_price == (if b.trigger_price.Some? then b.trigger_price.value else 0.0)
    ensures forall clock: nat ::
      var req := OrderData(b, clock);
      && o.quantity == req.quantity && o.price == req.price && o.product == req.product
      && o.validity == req.validity && o.order_type == req.order_type
      && o.transaction_type == req.transaction_type && o.instrument_token == req.instrument_token
      && o.disclosed_quantity == req.disclosed_quantity && o.trigger_price == req.trigger_price
      && o.is_amo == req.is_amo
  {
    var token := b.instrument_token.value;
    Order(
      order_id := ids[0],
      instrument_token := token,
      trading_symbol := if Truthy(b.trading_symbol) then b.trading_symbol else Field(token, '|', 1),
      quantity := Truncate(b.quantity.value),
      price := PriceOrZero(b.price),
      order_type := b.order_type.value,
      transaction_type := b.transaction_type.value,
      product := b.product.value,
      validity := OrElse(b.validity, DEFAULT_VALIDITY),
      status := PENDING,
      timestamp := timestamp,
      filled_quantity := 0,
      pending_quantity := Truncate(b.quantity.value),
      average_price := 0.0,
      exchange := Split(token, '_')[0],
      trigger_price := PriceOrZero(b.trigger_price),
      disclosed_quantity := IntOrZero(b.disclosed_quantity),
      is_amo := b.is_amo,
      tag := DefaultTag(b, now),
      user_id := userId,
      upstox_order_ids := ids,
      parent_order_id := None)
  }

  function PlacedMessage(role: Role): string {
    if role == Parent then "Order placed and copied to child accounts" else "Order placed successfully"
  }

  // ===========================================================================
  // Fan-out to child accounts

  /** `${tag}_child_${childAccount.user_id}`: the RAW request tag, so an
      untagged request renders "undefined". */
  function ChildTag(rawTag: Option<string>, childId: string): (t: string)
    ensures |t| == |Render(rawTag)| + |CHILD_MARKER| + |childId|
    ensures t[|t| - |childId|..] == childId
    ensures rawTag.None? ==> t == "undefined" + CHILD_MARKER + childId
  {
    Render(rawTag) + CHILD_MARKER + childId
  }

  const CHILD_MARKER := "_child_"

  /** Different children of one placement get different tags. */
  lemma ChildTagsDistinct(rawTag: Option<string>, a: string, b: string)
    requires a != b
    ensures ChildTag(rawTag, a) != ChildTag(rawTag, b)
  {
  }

  /** `childOrderData`: the parent's request with the child's tag. */
  function ChildRequest(req: OrderRequest, rawTag: Option<string>, child: ChildAccount): OrderRequest {
    req.(tag := ChildTag(rawTag, child.user_id))
  }

  /** `childOrder`: a copy of the parent's order owned by the child. */
  function Replica(order: Order, child: ChildAccount, ids: OrderIds, rawTag: Option<string>): (r: Order)
    ensures r.order_id == ids[0] && r.upstox_order_ids == ids
    ensures r.user_id == child.user_id && r.parent_order_id == Some(order.order_id)
    ensures r.tag == ChildTag(rawTag, child.user_id)
    ensures r.(order_id := order.order_id, user_id := order.user_id, parent_order_id := order.parent_order_id,
               tag := order.tag, upstox_order_ids := order.upstox_order_ids) == order
    ensures Balanced(r) <==> Balanced(order)
  {
    order.(order_id := ids[0], user_id := child.user_id, parent_order_id := Some(order.order_id),
           tag := ChildTag(rawTag, child.user_id), upstox_order_ids := ids)
  }

  /** The broker calls a fan-out makes and the replicas it records, in order. */
  datatype FanOutTrace = FanOutTrace(calls: seq<BrokerCall>, replicas: seq<Order>)

  /** One iteration of the fan-out loop: nothing for an inactive child;
      otherwise one broker call, and a replica when the broker accepts it.
      A rejected copy is only logged. */
  function CopyToChild(child: ChildAccount, order: Order, req: OrderRequest, rawTag: Option<string>, broker: Broker): (t: FanOutTrace)
    ensures t.calls == [] <==> !child.is_active
    ensures |t.calls| <= 1 && |t.replicas| <= |t.calls|
    ensures child.is_active ==> t.calls == [PlaceCall(child.access_token, ChildRequest(req, rawTag, child))]
    ensures forall r :: r in t.replicas ==>
      && r.user_id == child.user_id && r.parent_order_id == Some(order.order_id)
      && r.tag == ChildTag(rawTag, child.user_id)
      && (Balanced(order) ==> Balanced(r))
    ensures |t.replicas| == 1 <==> child.is_active && broker(child.access_token, ChildRequest(req, rawTag, child)).Accepted?
  {
    if !child.is_active then FanOutTrace([], [])
    else
      var childReq := ChildRequest(req, rawTag, child);
      var call := PlaceCall(child.access_token, childReq);
      match broker(child.access_token, childReq)
      case Accepted(ids) => FanOutTrace([call], [Replica(order, child, ids, rawTag)])
      case Rejected(_) => FanOutTrace([call], [])
  }

  /** The trace of `first` followed by the trace of `second`. */
  function Then(first: FanOutTrace, second: FanOutTrace): FanOutTrace {
    FanOutTrace(first.calls + second.calls, first.replicas + second.replicas)
  }

  /** The whole fan-out loop over `children`, in list order. */
  function FanOut(children: seq<ChildAccount>, order: Order, req: OrderRequest, rawTag: Option<string>, broker: Broker): (f: FanOutTrace)
    ensures |f.replicas| <= |f.calls| <= |children|
    ensures Balanced(order) ==> forall r :: r in f.replicas ==> Balanced(r)
    decreases |children|
  {
    if children == [] then FanOutTrace([], [])
    else Then(CopyToChild(children[0], order, req, rawTag, broker), FanOut(children[1..], order, req, rawTag, broker))
  }

  /** Each child's part of the fan-out depends on that child alone: the trace
      of a concatenated list is the concatenation of the traces. */
  lemma {:induction false} FanOutConcat(a: seq<ChildAccount>, b: seq<ChildAccount>, order: Order, req: OrderRequest, rawTag: Option<string>, broker: Broker)
    ensures FanOut(a + b, order, req, rawTag, broker)
         == Then(FanOut(a, order, req, rawTag, broker), FanOut(b, order, req, rawTag, broker))
  {
    if a == [] {
      assert a + b == b;
    } else {
      assert (a + b)[0] == a[0];
      assert (a + b)[1..] == a[1..] + b;
      FanOutConcat(a[1..], b, order, req, rawTag, broker);
      var step := CopyToChild(a[0], order, req, rawTag, broker);
      var fa', fb := FanOut(a[1..], order, req, rawTag, broker), FanOut(b, order, req, rawTag, broker);
      assert step.calls + (fa'.calls + fb.calls) == step.calls + fa'.calls + fb.calls;
      assert step.replicas + (fa'.replicas + fb.replicas) == step.replicas + fa'.replicas + fb.replicas;
    }
  }

  lemma FanOutSingle(c: ChildAccount, order: Order, req: OrderRequest, rawTag: Option<string>, broker: Broker)
    ensures FanOut([c], order, req, rawTag, broker) == CopyToChild(c, order, req, rawTag, broker)
  {
    assert [c][1..] == [];
    var step := CopyToChild(c, order, req, rawTag, broker);
    assert step.calls + [] == step.calls && step.replicas + [] == step.replicas;
  }

  /** A child whose copy the broker rejects contributes its call and nothing
      else: the children before and after it are copied exactly as if it
      were not in the list, and the parent's order is not touched. */
  lemma ChildFailureIsolated(a: seq<ChildAccount>, c: ChildAccount, b: seq<ChildAccount>, order: Order, req: OrderRequest, rawTag: Option<string>, broker: Broker)
    requires c.is_active && broker(c.access_token, ChildRequest(req, rawTag, c)).Rejected?
    ensures FanOut(a + [c] + b, order, req, rawTag, broker).replicas == FanOut(a + b, order, req, rawTag, broker).replicas
    ensures FanOut(a + [c] + b, order, req, rawTag, broker).calls
         == FanOut(a, order, req, rawTag, broker).calls + [PlaceCall(c.access_token, ChildRequest(req, rawTag, c))]
            + FanOut(b, order, req, rawTag, broker).calls
  {
    var fa := FanOut(a, order, req, rawTag, broker);
    var call := PlaceCall(c.access_token, ChildRequest(req, rawTag, c));
    FanOutConcat(a, [c], order, req, rawTag, broker);
    FanOutSingle(c, order, req, rawTag, broker);
    assert FanOut(a + [c], order, req, rawTag, broker) == FanOutTrace(fa.calls + [call], fa.replicas) by {
      assert fa.replicas + [] == fa.replicas;
    }
    FanOutConcat(a + [c], b, order, req, rawTag, broker);
    FanOutConcat(a, b, order, req, rawTag, broker);
  }

  /** The loop's step: the trace of the first `i + 1` children extends the
      trace of the first `i` by child `i`'s iteration. */
  lemma FanOutPrefixStep(children: seq<ChildAccount>, i: nat, order: Order, req: OrderRequest, rawTag: Option<string>, broker: Broker)
    requires i < |children|
    ensures FanOut(children[..i + 1], order, req, rawTag, broker)
         == Then(FanOut(children[..i], order, req, rawTag, broker), CopyToChild(children[i], order, req, rawTag, broker))
  {
    assert children[..i + 1] == children[..i] + [children[i]];
    FanOutConcat(children[..i], [children[i]], order, req, rawTag, broker);
    FanOutSingle(children[i], order, req, rawTag, broker);
  }

  /** An inactive child is skipped: no call, no replica. */
  lemma InactiveChildSkipped(a: seq<ChildAccount>, c: ChildAccount, b: seq<ChildAccount>, order: Order, req: OrderRequest, rawTag: Option<string>, broker: Broker)
    requires !c.is_active
    ensures FanOut(a + [c] + b, order, req, rawTag, broker) == FanOut(a + b, order, req, rawTag, broker)
  {
    var fa := FanOut(a, order, req, rawTag, broker);
    FanOutConcat(a, [c], order, req, rawTag, broker);
    FanOutSingle(c, order, req, rawTag, broker);
    assert FanOut(a + [c], order, req, rawTag, broker) == fa by {
      assert fa.calls + [] == fa.calls && fa.replicas + [] == fa.replicas;
    }
    FanOutConcat(a + [c], b, order, req, rawTag, broker);
    FanOutConcat(a, b, order, req, rawTag, broker);
  }

  /** `r` is the replica the fan-out records for child `c`: `c` is active and
      the broker accepted its copy. */
  predicate CopiedTo(c: ChildAccount, r: Order, order: Order, req: OrderRequest, rawTag: Option<string>, broker: Broker) {
    var reply := broker(c.access_token, ChildRequest(req, rawTag, c));
    c.is_active && reply.Accepted? && r == Replica(order, c, reply.order_ids, rawTag)
  }

  /** The replicas are exactly the copies for the active children whose
      broker call succeeded. */
  lemma {:induction false} ReplicasExactly(children: seq<ChildAccount>, order: Order, req: OrderRequest, rawTag: Option<string>, broker: Broker)
    ensures forall r :: r in FanOut(children, order, req, rawTag, broker).replicas <==>
      exists c :: c in children && CopiedTo(c, r, order, req, rawTag, broker)
  {
    if children != [] {
      var first, others := children[0], children[1..];
      ReplicasExactly(others, order, req, rawTag, broker);
      assert children == [first] + others;
      var step := CopyToChild(first, order, req, rawTag, broker);
      assert FanOut(children, order, req, rawTag, broker).replicas
          == step.replicas + FanOut(others, order, req, rawTag, broker).replicas;
      assert forall r :: r in step.replicas <==> CopiedTo(first, r, order, req, rawTag, broker);
      forall r ensures r in FanOut(children, order, req, rawTag, broker).replicas <==>
        exists c :: c in children && CopiedTo(c, r, order, req, rawTag, broker)
      {
        if exists c :: c in children && CopiedTo(c, r, order, req, rawTag, broker) {
          var c :| c in children && CopiedTo(c, r, order, req, rawTag, broker);
          if c != first {
            assert c in others;
          }
        }
      }
    }
  }

  // ===========================================================================
  // The order store

  /** `orderHistory.get(u) || []`. */
  function HistoryOf(h: map<string, seq<Order>>, u: string): seq<Order> {
    if u in h then h[u] else []
  }

  /** Store `o` at the front of its owner's history (`unshift` then `set`). */
  function Prepend(h: map<string, seq<Order>>, o: Order): map<string, seq<Order>> {
    h[o.user_id := [o] + HistoryOf(h, o.user_id)]
  }

  /** Prepend each order in turn. */
  function PrependAll(h: map<string, seq<Order>>, os: seq<Order>): map<string, seq<Order>>
    decreases |os|
  {
    if os == [] then h else Prepend(PrependAll(h, os[..|os| - 1]), os[|os| - 1])
  }

  /** The orders of `os` owned by `u`, most recent (last) first. */
  function NewestFirst(os: seq<Order>, u: string): seq<Order>
    decreases |os|
  {
    if os == [] then []
    else
      var last := os[|os| - 1];
      (if last.user_id == u then [last] else []) + NewestFirst(os[..|os| - 1], u)
  }

  /** A user's new orders are exactly the run's orders owned by that user,
      each as often as it occurs in the run. */
  lemma {:induction false} NewestFirstMembers(os: seq<Order>, u: string)
    ensures forall o :: o in NewestFirst(os, u) ==> o in os && o.user_id == u
    ensures forall o :: o in os && o.user_id == u ==> o in NewestFirst(os, u)
    ensures forall o :: multiset(NewestFirst(os, u))[o] == if o.user_id == u then multiset(os)[o] else 0
    decreases |os|
  {
    if os != [] {
      var n := |os| - 1;
      NewestFirstMembers(os[..n], u);
      assert os == os[..n] + [os[n]];
      assert multiset(os) == multiset(os[..n]) + multiset([os[n]]);
    }
  }

  /** `NewestFirst` is the owner's filter of the run, reversed. */
  lemma {:induction false} NewestFirstIsReversedKeep(os: seq<Order>, u: string)
    ensures NewestFirst(os, u) == Reversed(Keep(os, (o: Order) => o.user_id == u))
    decreases |os|
  {
    var owned := (o: Order) => o.user_id == u;
    if os != [] {
      var n := |os| - 1;
      NewestFirstIsReversedKeep(os[..n], u);
      assert os == os[..n] + [os[n]];
      KeepConcat(os[..n], [os[n]], owned);
      var front := Keep(os[..n], owned);
      if owned(os[n]) {
        assert Keep([os[n]], owned) == [os[n]] + Keep([], owned);
        assert (front + [os[n]])[..|front|] == front;
      } else {
        assert Keep([os[n]], owned) == [] + Keep([], owned);
        assert front + [] == front;
      }
    }
  }

  /** After prepending a run of orders, each user's history is that user's
      orders from the run, newest first, in front of the old history. */
  lemma {:induction false} PrependAllHistory(h: map<string, seq<Order>>, os: seq<Order>, u: string)
    ensures HistoryOf(PrependAll(h, os), u) == NewestFirst(os, u) + HistoryOf(h, u)
    decreases |os|
  {
    if os != [] {
      PrependAllHistory(h, os[..|os| - 1], u);
    }
  }

  /** The store after a successful placement: for every user, the replicas
      owned by that user newest first, then the caller's own order if it is
      the caller, then the history it had before. Users that are neither the
      caller nor the owner of a replica keep their history. */
  lemma PlacementHistory(h: map<string, seq<Order>>, order: Order, replicas: seq<Order>, u: string)
    ensures HistoryOf(PrependAll(Prepend(h, order), replicas), u)
         == NewestFirst(replicas, u) + (if u == order.user_id then [order] else []) + HistoryOf(h, u)
    ensures u == order.user_id ==> order in HistoryOf(PrependAll(Prepend(h, order), replicas), u)
  {
    PrependAllHistory(Prepend(h, order), replicas, u);
  }

  /** Every stored order has `filled_quantity + pending_quantity == quantity`. */
  predicate StoreBalanced(h: map<string, seq<Order>>) {
    forall u :: u in h ==> AllBalanced(h[u])
  }

  lemma {:induction false} PrependAllBalanced(h: map<string, seq<Order>>, os: seq<Order>)
    requires StoreBalanced(h)
    requires forall o :: o in os ==> Balanced(o)
    ensures StoreBalanced(PrependAll(h, os))
    decreases |os|
  {
    if os != [] {
      var n := |os| - 1;
      assert forall o :: o in os[..n] ==> o in os;
      PrependAllBalanced(h, os[..n]);
      var h' := PrependAll(h, os[..n]);
      var o := os[n];
      assert o in os;
      var l := [o] + HistoryOf(h', o.user_id);
      assert AllBalanced(l) by {
        forall i | 0 <= i < |l| ensures Balanced(l[i]) {
          if i > 0 { assert l[i] == HistoryOf(h', o.user_id)[i - 1]; }
        }
      }
    }
  }

  /** Prepending two runs one after the other is prepending their concatenation. */
  lemma {:induction false} PrependAllConcat(h: map<string, seq<Order>>, a: seq<Order>, b: seq<Order>)
    ensures PrependAll(PrependAll(h, a), b) == PrependAll(h, a + b)
    decreases |b|
  {
    if b != [] {
      var n := |b| - 1;
      PrependAllConcat(h, a, b[..n]);
      assert (a + b)[..|a + b| - 1] == a + b[..n];
    } else {
      assert a + b == a;
    }
  }

  /** The `new_order` events of a fan-out, in order. */
  function NewOrderEvents(os: seq<Order>): (es: seq<Event>)
    ensures |es| == |os|
    ensures forall i :: 0 <= i < |os| ==> es[i] == NewOrderEvent(os[i])
    decreases |os|
  {
    if os == [] then [] else NewOrderEvents(os[..|os| - 1]) + [NewOrderEvent(os[|os| - 1])]
  }

  lemma {:induction false} NewOrderEventsConcat(a: seq<Order>, b: seq<Order>)
    ensures NewOrderEvents(a + b) == NewOrderEvents(a) + NewOrderEvents(b)
    decreases |b|
  {
    if b != [] {
      var n := |b| - 1;
      NewOrderEventsConcat(a, b[..n]);
      assert (a + b)[..|a + b| - 1] == a + b[..n];
    } else {
      assert a + b == a;
    }
  }

  /** What a run of broker calls and recorded replicas leaves behind: the
      store, the socket events and the broker calls, as one value. */
  datatype DeskLog = DeskLog(history: map<string, seq<Order>>, events: seq<Event>, calls: seq<BrokerCall>)

  function Record(s: DeskLog, t: FanOutTrace): DeskLog {
    DeskLog(PrependAll(s.history, t.replicas), s.events + NewOrderEvents(t.replicas), s.calls + t.calls)
  }

  /** Recording two traces in turn is recording the combined trace. */
  lemma RecordThen(s: DeskLog, a: FanOutTrace, b: FanOutTrace)
    ensures Record(Record(s, a), b) == Record(s, Then(a, b))
  {
    PrependAllConcat(s.history, a.replicas, b.replicas);
    NewOrderEventsConcat(a.replicas, b.replicas);
    assert s.events + NewOrderEvents(a.replicas) + NewOrderEvents(b.replicas)
        == s.events + (NewOrderEvents(a.replicas) + NewOrderEvents(b.replicas));
    assert s.calls + a.calls + b.calls == s.calls + (a.calls + b.calls);
  }

  // ===========================================================================
  // Cancellation

  /** `userOrders.findIndex(order => order.order_id === orderId)`. */
  function FindOrder(os: seq<Order>, orderId: string): Option<nat> {
    FindIndex(os, (o: Order) => o.order_id == orderId)
  }

  /** Set the status of the order at `k` to cancelled. */
  function MarkCancelled(os: seq<Order>, k: nat): (r: seq<Order>)
    requires k < |os|
    ensures |r| == |os|
    ensures r[k].status == CANCELLED && r[k].(status := os[k].status) == os[k]
    ensures forall j :: 0 <= j < |os| && j != k ==> r[j] == os[j]
    ensures AllBalanced(os) ==> AllBalanced(r)
  {
    os[k := os[k].(status := CANCELLED)]
  }

  /** Cancelling the same order again finds it at the same place and leaves
      the list as it is. */
  lemma CancelAgainSameList(os: seq<Order>, orderId: string)
    requires FindOrder(os, orderId).Some?
    ensures var k := FindOrder(os, orderId).value;
      && FindOrder(MarkCancelled(os, k), orderId) == Some(k)
      && MarkCancelled(MarkCancelled(os, k), k) == MarkCancelled(os, k)
  {
    var k := FindOrder(os, orderId).value;
    var r := MarkCancelled(os, k);
    var p := (o: Order) => o.order_id == orderId;
    assert forall j :: 0 <= j < |os| ==> p(r[j]) == p(os[j]);
    assert p(r[k]);
    var k' := FindIndex(r, p);
    assert k'.Some?;
    assert k'.value == k;
  }

  // ===========================================================================
  // Child-account registry

  /** `childAccountMappings.get(p) || []`. */
  function ChildrenOf(m: map<string, seq<ChildAccount>>, p: string): seq<ChildAccount> {
    if p in m then m[p] else []
  }

  predicate UniqueChildIds(cs: seq<ChildAccount>) {
    forall i, j :: 0 <= i < j < |cs| ==> cs[i].user_id != cs[j].user_id
  }

  predicate RegistryUnique(m: map<string, seq<ChildAccount>>) {
    forall p :: p in m ==> UniqueChildIds(m[p])
  }

  predicate HasChildId(cs: seq<ChildAccount>, id: string) {
    exists i :: 0 <= i < |cs| && cs[i].user_id == id
  }

  /** The record stored for a verified child: the broker profile's fields
      where present, the request's `user_id` and fixed defaults otherwise.
      The two timestamps are two separate clock readings. */
  function NewChild(profile: Profile, requestedId: string, token: string, connectedAt: string, lastSync: string): (c: ChildAccount)
    ensures c.is_active && c.access_token == token
    ensures c.connected_at == connectedAt && c.last_sync == lastSync
    ensures c.portfolio_value == 0 && c.day_pnl == 0
    ensures c.user_name != "" && c.email != ""
    ensures requestedId != "" ==> c.user_id != ""
    ensures Truthy(profile.user_id) ==> c.user_id == profile.user_id.value
  {
    ChildAccount(
      user_id := OrElse(profile.user_id, requestedId),
      user_name := OrElse(profile.user_name, "Child User"),
      email := OrElse(profile.email, "child@example.com"),
      access_token := token,
      is_active := true,
      connected_at := connectedAt,
      last_sync := lastSync,
      portfolio_value := 0,
      day_pnl := 0)
  }

  /** Replace the entry with the same `user_id` where it stands, or append. */
  function Upsert(cs: seq<ChildAccount>, c: ChildAccount): (r: seq<ChildAccount>)
    ensures c in r
    ensures forall x :: x in r ==> x == c || x in cs
    ensures |r| == if HasChildId(cs, c.user_id) then |cs| else |cs| + 1
    ensures !HasChildId(cs, c.user_id) ==> r == cs + [c]
    ensures forall j :: 0 <= j < |cs| && cs[j].user_id != c.user_id ==> r[j] == cs[j]
    ensures UniqueChildIds(cs) ==> forall j :: 0 <= j < |cs| && cs[j].user_id == c.user_id ==> r[j] == c
    ensures UniqueChildIds(cs) ==> UniqueChildIds(r)
  {
    match FindIndex(cs, (x: ChildAccount) => x.user_id == c.user_id)
    case Some(k) => assert cs[k := c][k] == c; cs[k := c]
    case None => cs + [c]
  }

  /** `childAccounts.filter(child => child.user_id !== id)`. */
  function RemoveChild(cs: seq<ChildAccount>, id: string): (r: seq<ChildAccount>)
    ensures !HasChildId(r, id)
    ensures forall x :: x in r ==> x in cs
    ensures forall x :: x in cs && x.user_id != id ==> x in r
    ensures Subsequence(r, cs)
  {
    var p := (x: ChildAccount) => x.user_id != id;
    KeepSelects(cs, p);
    var r := Keep(cs, p);
    assert forall i :: 0 <= i < |r| ==> r[i] in r;
    r
  }

  /** Removing twice is removing once. */
  lemma RemoveChildIdempotent(cs: seq<ChildAccount>, id: string)
    ensures RemoveChild(RemoveChild(cs, id), id) == RemoveChild(cs, id)
  {
    KeepIdempotent(cs, (x: ChildAccount) => x.user_id != id);
  }

  /** Filtering keeps the ids unique. */
  lemma {:induction false} KeepUnique(cs: seq<ChildAccount>, p: ChildAccount -> bool)
    requires UniqueChildIds(cs)
    ensures UniqueChildIds(Keep(cs, p))
  {
    if cs != [] {
      KeepUnique(cs[1..], p);
      KeepSelects(cs[1..], p);
      var tail := Keep(cs[1..], p);
      forall j | 0 <= j < |tail| ensures tail[j].user_id != cs[0].user_id {
        assert tail[j] in cs[1..];
      }
    }
  }

  lemma RemoveChildKeepsUnique(cs: seq<ChildAccount>, id: string)
    requires UniqueChildIds(cs)
    ensures UniqueChildIds(RemoveChild(cs, id))
  {
    KeepUnique(cs, (x: ChildAccount) => x.user_id != id);
  }

  // ===========================================================================
  // Reconciliation sweep

  /** A pending order filled at its own price. */
  function Completed(o: Order): (c: Order)
    ensures c.status == COMPLETE && c.filled_quantity == o.quantity && c.pending_quantity == 0 && c.average_price == o.price
    ensures c.(status := o.status, filled_quantity := o.filled_quantity,
               pending_quantity := o.pending_quantity, average_price := o.average_price) == o
    ensures Balanced(c)
  {
    o.(status := COMPLETE, filled_quantity := o.quantity, pending_quantity := 0, average_price := o.price)
  }

  /** One order under the sweep: a pending order completes when the coin says so. */
  function SweepOne(o: Order, coin: bool): Order {
    if o.status == PENDING && coin then Completed(o) else o
  }

  /** One user's list under the sweep; `completes(u, i)` is the random draw
      for the order at position `i`. */
  function SweepOrders(os: seq<Order>, u: string, completes: (string, nat) -> bool): (r: seq<Order>)
    ensures |r| == |os|
    ensures forall i :: 0 <= i < |os| ==> r[i] == os[i] || (os[i].status == PENDING && r[i] == Completed(os[i]))
    ensures forall i :: 0 <= i < |os| && os[i].status != PENDING ==> r[i] == os[i]
    ensures forall i :: 0 <= i < |os| ==> r[i].order_id == os[i].order_id
  {
    var r := seq(|os|, i requires 0 <= i < |os| => SweepOne(os[i], completes(u, i)));
    assert forall i :: 0 <= i < |os| ==> r[i] == SweepOne(os[i], completes(u, i));
    r
  }

  function SweepAll(h: map<string, seq<Order>>, completes: (string, nat) -> bool): (r: map<string, seq<Order>>)
    ensures r.Keys == h.Keys
    ensures forall u :: u in h ==> |r[u]| == |h[u]|
  {
    map u | u in h :: SweepOrders(h[u], u, completes)
  }

  /** Whatever the draws, the sweep keeps every user and every list's length
      and order; each order either stays exactly as it was or was pending and
      is now complete, filled at its price, with only those four fields
      changed; and the balance of quantities is kept. */
  lemma SweepOutcome(h: map<string, seq<Order>>, completes: (string, nat) -> bool, u: string, i: nat)
    requires u in h && i < |h[u]|
    ensures SweepAll(h, completes).Keys == h.Keys
    ensures |SweepAll(h, completes)[u]| == |h[u]|
    ensures var o, o' := h[u][i], SweepAll(h, completes)[u][i];
      || o' == o
      || (&& o.status == PENDING && o'.status == COMPLETE
          && o'.filled_quantity == o.quantity && o'.pending_quantity == 0 && o'.average_price == o.price
          && o'.(status := o.status, filled_quantity := o.filled_quantity,
                 pending_quantity := o.pending_quantity, average_price := o.average_price) == o)
    ensures h[u][i].status != PENDING ==> SweepAll(h, completes)[u][i] == h[u][i]
    ensures Balanced(h[u][i]) ==> Balanced(SweepAll(h, completes)[u][i])
  {
    var o := h[u][i];
    assert SweepAll(h, completes)[u][i] == SweepOne(o, completes(u, i));
  }

  lemma SweepBalanced(h: map<string, seq<Order>>, completes: (string, nat) -> bool)
    requires StoreBalanced(h)
    ensures StoreBalanced(SweepAll(h, completes))
  {
    forall u | u in SweepAll(h, completes) ensures AllBalanced(SweepAll(h, completes)[u]) {
      forall i | 0 <= i < |SweepAll(h, completes)[u]| ensures Balanced(SweepAll(h, completes)[u][i]) {
        SweepOutcome(h, completes, u, i);
      }
    }
  }

  /** The `order_update` events the sweep emits for one user's list: one per
      order it completes, carrying the completed order, in list order. */
  function SweepEvents(os: seq<Order>, u: string, completes: (string, nat) -> bool): (es: seq<Event>)
    ensures |es| <= |os|
    ensures forall i :: 0 <= i < |es| ==> es[i].OrderUpdateEvent? && es[i].order.status == COMPLETE && Balanced(es[i].order)
    decreases |os|
  {
    if os == [] then []
    else
      var n := |os| - 1;
      SweepEvents(os[..n], u, completes)
        + (if os[n].status == PENDING && completes(u, n) then [OrderUpdateEvent(Completed(os[n]))] else [])
  }

  /** The events of a whole sweep, visiting the users in the order `us`. */
  function SweepLog(h: map<string, seq<Order>>, us: seq<string>, completes: (string, nat) -> bool): seq<Event>
    decreases |us|
  {
    if us == [] then []
    else
      var n := |us| - 1;
      SweepLog(h, us[..n], completes) + SweepEvents(HistoryOf(h, us[n]), us[n], completes)
  }

  /** A list part-way through the sweep: the first `n` orders swept, the rest untouched. */
  function SweepPrefix(os: seq<Order>, n: nat, u: string, completes: (string, nat) -> bool): seq<Order> {
    seq(|os|, j requires 0 <= j < |os| => if j < n then SweepOne(os[j], completes(u, j)) else os[j])
  }

  lemma SweepPrefixStep(os: seq<Order>, i: nat, u: string, completes: (string, nat) -> bool)
    requires i < |os|
    ensures SweepPrefix(os, 0, u, completes) == os
    ensures SweepPrefix(os, |os|, u, completes) == SweepOrders(os, u, completes)
    ensures SweepPrefix(os, i + 1, u, completes) == SweepPrefix(os, i, u, completes)[i := SweepOne(os[i], completes(u, i))]
  {
  }

  /** The store part-way through the sweep: the users in `done` swept, the others untouched. */
  function SweepDone(h: map<string, seq<Order>>, done: set<string>, completes: (string, nat) -> bool): map<string, seq<Order>> {
    map u | u in h :: if u in done then SweepOrders(h[u], u, completes) else h[u]
  }

  lemma SweepDoneStep(h: map<string, seq<Order>>, done: set<string>, u: string, completes: (string, nat) -> bool)
    requires u in h
    ensures SweepDone(h, {}, completes) == h
    ensures SweepDone(h, h.Keys, completes) == SweepAll(h, completes)
    ensures SweepDone(h, done, completes)[u := SweepOrders(h[u], u, completes)] == SweepDone(h, done + {u}, completes)
  {
  }

  lemma SweepLogSnoc(h: map<string, seq<Order>>, us: seq<string>, u: string, completes: (string, nat) -> bool)
    requires u in h
    ensures SweepLog(h, us + [u], completes) == SweepLog(h, us, completes) + SweepEvents(h[u], u, completes)
  {
    assert (us + [u])[..|us|] == us;
  }

  /** `us` lists every key of `keys` exactly once. */
  predicate VisitOrder(us: seq<string>, keys: set<string>) {
    && (forall u :: u in us ==> u in keys)
    && (forall u :: u in keys ==> u in us)
    && (forall i, j :: 0 <= i < j < |us| ==> us[i] != us[j])
  }

  /** Moving one key from the keys still to visit to the keys visited. */
  lemma MoveKey(done: set<string>, remaining: set<string>, keys: set<string>, u: string)
    requires done + remaining == keys && done !! remaining && u in remaining
    ensures (done + {u}) + (remaining - {u}) == keys && (done + {u}) !! (remaining - {u})
  {
  }

  lemma VisitOrderSnoc(us: seq<string>, keys: set<string>, u: string)
    requires VisitOrder(us, keys) && u !in keys
    ensures VisitOrder(us + [u], keys + {u})
  {
  }

  /** Every event of a sweep is an `order_update` for an order it completed:
      a formerly pending order of that user, now complete and filled. */
  lemma {:induction false} SweepEventsAreCompletions(os: seq<Order>, u: string, completes: (string, nat) -> bool)
    ensures |SweepEvents(os, u, completes)| <= |os|
    ensures forall e :: e in SweepEvents(os, u, completes) ==>
      && e.OrderUpdateEvent? && e.order.status == COMPLETE && e.order.pending_quantity == 0
      && exists i :: 0 <= i < |os| && os[i].status == PENDING && completes(u, i) && e.order == Completed(os[i])
    decreases |os|
  {
    if os != [] {
      var n := |os| - 1;
      SweepEventsAreCompletions(os[..n], u, completes);
      forall e | e in SweepEvents(os, u, completes)
        ensures exists i :: 0 <= i < |os| && os[i].status == PENDING && completes(u, i) && e.order == Completed(os[i])
      {
        if e in SweepEvents(os[..n], u, completes) {
          var i :| 0 <= i < n && os[..n][i].status == PENDING && completes(u, i) && e.order == Completed(os[..n][i]);
          assert os[i] == os[..n][i];
        } else {
          assert os[n].status == PENDING && completes(u, n) && e.order == Completed(os[n]);
        }
      }
    }
  }

  // ===========================================================================
  // The engine's state and its handlers

  class TradingDesk {
    /** user id -> orders, most recent first */
    var orderHistory: map<string, seq<Order>>
    /** parent id -> linked child accounts */
    var childAccountMappings: map<string, seq<ChildAccount>>
    /** every `io.emit`, in order */
    ghost var events: seq<Event>
    /** every broker call, in order */
    ghost var brokerCalls: seq<BrokerCall>

    /** The three things a request handler leaves behind. */
    ghost function Log(): DeskLog
      reads this
    {
      DeskLog(orderHistory, events, brokerCalls)
    }

    ghost predicate Valid()
      reads this
    {
      StoreBalanced(orderHistory) && RegistryUnique(childAccountMappings)
    }

    constructor ()
      ensures Valid()
      ensures orderHistory == map[] && childAccountMappings == map[]
      ensures events == [] && brokerCalls == []
    {
      orderHistory := map[];
      childAccountMappings := map[];
      events := [];
      brokerCalls := [];
    }

    /** `POST /orders`. `tagClock` and `recordClock` are the two `Date.now()`
        readings (request tag and stored tag); `timestamp` is the ISO time. */
    method PlaceOrder(user: Principal, body: OrderBody, broker: Broker, tagClock: nat, recordClock: nat, timestamp: string)
      returns (resp: PlaceResponse)
      requires Valid()
      modifies this
      ensures Valid()
      ensures childAccountMappings == old(childAccountMappings)
      ensures !HasRequiredFields(body) ==>
        && resp == MissingFields
        && orderHistory == old(orderHistory) && events == old(events) && brokerCalls == old(brokerCalls)
      ensures HasRequiredFields(body) ==>
        var req := OrderData(body, tagClock);
        match broker(user.access_token, req)
        case Rejected(msg) =>
          && resp == PlacementFailed(OrElse(msg, "Failed to place order"))
          && orderHistory == old(orderHistory) && events == old(events)
          && brokerCalls == old(brokerCalls) + [PlaceCall(user.access_token, req)]
        case Accepted(ids) =>
          var order := NewOrder(body, user.user_id, ids, recordClock, timestamp);
          var children := if user.role == Parent then ChildrenOf(old(childAccountMappings), user.user_id) else [];
          var fan := FanOut(children, order, req, body.tag, broker);
          && resp == Placed(order, PlacedMessage(user.role))
          && orderHistory == PrependAll(Prepend(old(orderHistory), order), fan.replicas)
          && events == old(events) + [NewOrderEvent(order)] + NewOrderEvents(fan.replicas)
          && brokerCalls == old(brokerCalls) + [PlaceCall(user.access_token, req)] + fan.calls
    {
      if !HasRequiredFields(body) {
        return MissingFields;
      }
      var req := OrderData(body, tagClock);
      var reply := broker(user.access_token, req);
      brokerCalls := brokerCalls + [PlaceCall(user.access_token, req)];
      if reply.Rejected? {
        return PlacementFailed(OrElse(reply.message, "Failed to place order"));
      }
      var order := NewOrder(body, user.user_id, reply.order_ids, recordClock, timestamp);
      var userOrders := HistoryOf(orderHistory, user.user_id);
      orderHistory := orderHistory[user.user_id := [order] + userOrders];
      events := events + [NewOrderEvent(order)];

      if user.role == Parent {
        var children := ChildrenOf(childAccountMappings, user.user_id);
        CopyToChildren(children, order, req, body.tag, broker);
        PrependAllBalanced(old(orderHistory)[user.user_id := [order] + userOrders], FanOut(children, order, req, body.tag, broker).replicas);
      }
      resp := Placed(order, PlacedMessage(user.role));
    }

    /** The fan-out loop of `POST /orders`: place a copy of `order` for every
        active child, in list order; a failed copy is logged and skipped. */
    method CopyToChildren(children: seq<ChildAccount>, order: Order, req: OrderRequest, rawTag: Option<string>, broker: Broker)
      modifies this
      ensures childAccountMappings == old(childAccountMappings)
      ensures Log() == Record(old(Log()), FanOut(children, order, req, rawTag, broker))
    {
      ghost var log0 := Log();
      ghost var trace := FanOutTrace([], []);
      assert trace.calls == [] && trace.replicas == [];
      assert log0.events + [] == log0.events && log0.calls + [] == log0.calls;
      for i := 0 to |children|
        invariant trace == FanOut(children[..i], order, req, rawTag, broker)
        invariant childAccountMappings == old(childAccountMappings)
        invariant Log() == Record(log0, trace)
      {
        ghost var step := CopyToChild(children[i], order, req, rawTag, broker);
        CopyToChildAccount(children[i], order, req, rawTag, broker);
        FanOutPrefixStep(children, i, order, req, rawTag, broker);
        RecordThen(log0, trace, step);
        trace := Then(trace, step);
      }
      assert children[..|children|] == children;
    }

    /** One iteration of the fan-out loop: copy `order` to `child` when it is
        active, and record the replica if the broker accepts it. */
    method CopyToChildAccount(child: ChildAccount, order: Order, req: OrderRequest, rawTag: Option<string>, broker: Broker)
      modifies this
      ensures childAccountMappings == old(childAccountMappings)
      ensures Log() == Record(old(Log()), CopyToChild(child, order, req, rawTag, broker))
    {
      if child.is_active {
        var childReq := ChildRequest(req, rawTag, child);
        var childReply := broker(child.access_token, childReq);
        brokerCalls := brokerCalls + [PlaceCall(child.access_token, childReq)];
        if childReply.Accepted? {
          var childOrder := Replica(order, child, childReply.order_ids, rawTag);
          var childOrders := HistoryOf(orderHistory, child.user_id);
          orderHistory := orderHistory[child.user_id := [childOrder] + childOrders];
          events := events + [NewOrderEvent(childOrder)];
          assert [childOrder][..0] == [];
          assert PrependAll(old(orderHistory), [childOrder]) == Prepend(old(orderHistory), childOrder);
          assert NewOrderEvents([childOrder]) == [NewOrderEvent(childOrder)];
        } else {
          // the copy failed: logged, and the loop goes on with the next child
          assert old(events) + [] == old(events);
        }
      } else {
        assert old(events) + [] == old(events) && old(brokerCalls) + [] == old(brokerCalls);
      }
    }

    /** `DELETE /orders/:orderId`: cancel upstream first, then mark the
        caller's first order with that id as cancelled. The upstream request
        carries the caller's token but not the order id, so the broker's
        answer is a function of the token alone. */
    method CancelOrder(user: Principal, orderId: string, cancel: string -> CancelReply)
      returns (resp: CancelResponse)
      requires Valid()
      modifies this
      ensures Valid()
      ensures childAccountMappings == old(childAccountMappings)
      ensures brokerCalls == old(brokerCalls) + [CancelCall(user.access_token)]
      ensures cancel(user.access_token).CancelRejected? ==>
        && resp == CancelFailed(OrElse(cancel(user.access_token).message, "Failed to cancel order"))
        && orderHistory == old(orderHistory) && events == old(events)
      ensures cancel(user.access_token).CancelAccepted? ==>
        && resp == CancelSucceeded
        && var orders := HistoryOf(old(orderHistory), user.user_id);
           match FindOrder(orders, orderId)
           case None => orderHistory == old(orderHistory) && events == old(events)
           case Some(k) =>
             && orderHistory == old(orderHistory)[user.user_id := MarkCancelled(orders, k)]
             && events == old(events) + [OrderUpdateEvent(MarkCancelled(orders, k)[k])]
    {
      var reply := cancel(user.access_token);
      brokerCalls := brokerCalls + [CancelCall(user.access_token)];
      if reply.CancelRejected? {
        return CancelFailed(OrElse(reply.message, "Failed to cancel order"));
      }
      var userOrders := HistoryOf(orderHistory, user.user_id);
      var orderIndex := FindOrder(userOrders, orderId);
      if orderIndex.Some? {
        var k := orderIndex.value;
        userOrders := MarkCancelled(userOrders, k);
        orderHistory := orderHistory[user.user_id := userOrders];
        events := events + [OrderUpdateEvent(userOrders[k])];
      }
      resp := CancelSucceeded;
    }

    /** `GET /child-accounts`. */
    method GetChildAccounts(user: Principal) returns (resp: ChildListResponse)
      requires Valid()
      ensures user.role != Parent <==> resp == ListForbidden
      ensures resp.ChildList? ==> resp.children == ChildrenOf(childAccountMappings, user.user_id)
      ensures resp.ChildList? ==> UniqueChildIds(resp.children)
    {
      if user.role != Parent {
        return ListForbidden;
      }
      resp := ChildList(ChildrenOf(childAccountMappings, user.user_id));
    }

    /** `POST /child-accounts`: verify the child's token against the broker's
        profile endpoint, then upsert the child by `user_id`. */
    method AddChildAccount(user: Principal, body: ChildBody, fetchProfile: string -> ProfileReply, connectedAt: string, lastSync: string)
      returns (resp: AddChildResponse)
      requires Valid()
      modifies this
      ensures Valid()
      ensures orderHistory == old(orderHistory) && events == old(events)
      ensures user.role != Parent ==>
        resp == AddForbidden && childAccountMappings == old(childAccountMappings) && brokerCalls == old(brokerCalls)
      ensures user.role == Parent && !(Truthy(body.user_id) && Truthy(body.access_token)) ==>
        resp == MissingChildFields && childAccountMappings == old(childAccountMappings) && brokerCalls == old(brokerCalls)
      ensures user.role == Parent && Truthy(body.user_id) && Truthy(body.access_token) ==>
        var token := body.access_token.value;
        && brokerCalls == old(brokerCalls) + [ProfileCall(token)]
        && match fetchProfile(token)
           case ProfileRejected =>
             resp == VerificationFailed && childAccountMappings == old(childAccountMappings)
           case ProfileFound(profile) =>
             var child := NewChild(profile, body.user_id.value, token, connectedAt, lastSync);
             && resp == ChildAdded(child)
             && childAccountMappings
                == old(childAccountMappings)[user.user_id := Upsert(ChildrenOf(old(childAccountMappings), user.user_id), child)]
    {
      if user.role != Parent {
        return AddForbidden;
      }
      if !Truthy(body.user_id) || !Truthy(body.access_token) {
        return MissingChildFields;
      }
      var token := body.access_token.value;
      var reply := fetchProfile(token);
      brokerCalls := brokerCalls + [ProfileCall(token)];
      if reply.ProfileRejected? {
        return VerificationFailed;
      }
      var child := NewChild(reply.profile, body.user_id.value, token, connectedAt, lastSync);
      var childAccounts := ChildrenOf(childAccountMappings, user.user_id);
      childAccountMappings := childAccountMappings[user.user_id := Upsert(childAccounts, child)];
      resp := ChildAdded(child);
    }

    /** `DELETE /child-accounts/:childUserId`. */
    method RemoveChildAccount(user: Principal, childUserId: string) returns (resp: RemoveChildResponse)
      requires Valid()
      modifies this
      ensures Valid()
      ensures orderHistory == old(orderHistory) && events == old(events) && brokerCalls == old(brokerCalls)
      ensures user.role != Parent ==> resp == RemoveForbidden && childAccountMappings == old(childAccountMappings)
      ensures user.role == Parent ==>
        && resp == ChildRemoved
        && childAccountMappings
           == old(childAccountMappings)[user.user_id := RemoveChild(ChildrenOf(old(childAccountMappings), user.user_id), childUserId)]
    {
      if user.role != Parent {
        return RemoveForbidden;
      }
      var childAccounts := ChildrenOf(childAccountMappings, user.user_id);
      RemoveChildKeepsUnique(childAccounts, childUserId);
      childAccountMappings := childAccountMappings[user.user_id := RemoveChild(childAccounts, childUserId)];
      resp := ChildRemoved;
    }

    /** One tick of the `setInterval` sweep. The users are visited in some
        order (each exactly once); within a list, orders in list order. */
    method Sweep(completes: (string, nat) -> bool)
      requires Valid()
      modifies this
      ensures Valid()
      ensures childAccountMappings == old(childAccountMappings) && brokerCalls == old(brokerCalls)
      ensures orderHistory == SweepAll(old(orderHistory), completes)
      ensures exists us ::
        VisitOrder(us, old(orderHistory).Keys) && events == old(events) + SweepLog(old(orderHistory), us, completes)
    {
      SweepUsers(completes);
      SweepBalanced(old(orderHistory), completes);
    }

    /** The loop over the users. */
    method SweepUsers(completes: (string, nat) -> bool)
      modifies this
      ensures childAccountMappings == old(childAccountMappings) && brokerCalls == old(brokerCalls)
      ensures orderHistory == SweepAll(old(orderHistory), completes)
      ensures exists us ::
        VisitOrder(us, old(orderHistory).Keys) && events == old(events) + SweepLog(old(orderHistory), us, completes)
    {
      ghost var h0, e0 := orderHistory, events;
      var remaining := orderHistory.Keys;
      ghost var visited: seq<string> := [];
      ghost var done: set<string> := {};
      if h0 != map[] {
        var some :| some in h0;
        SweepDoneStep(h0, {}, some, completes);
      }
      while remaining != {}
        invariant done + remaining == h0.Keys && done !! remaining
        invariant orderHistory == SweepDone(h0, done, completes)
        invariant VisitOrder(visited, done)
        invariant childAccountMappings == old(childAccountMappings) && brokerCalls == old(brokerCalls)
        invariant events == e0 + SweepLog(h0, visited, completes)
        decreases remaining
      {
        var u :| u in remaining;
        assert u in h0 && u !in done;
        ghost var swept := SweepLog(h0, visited, completes);
        ghost var emitted := SweepEvents(h0[u], u, completes);
        assert orderHistory[u] == h0[u];
        SweepUser(u, completes);
        assert events == e0 + swept + emitted;
        ConcatAssoc(e0, swept, emitted);
        SweepDoneStep(h0, done, u, completes);
        VisitOrderSnoc(visited, done, u);
        SweepLogSnoc(h0, visited, u, completes);
        MoveKey(done, remaining, h0.Keys, u);
        visited := visited + [u];
        done := done + {u};
        remaining := remaining - {u};
      }
    }

    /** The sweep over one user's list, in list order. */
    method SweepUser(u: string, completes: (string, nat) -> bool)
      requires u in orderHistory
      modifies this
      ensures orderHistory == old(orderHistory)[u := SweepOrders(old(orderHistory)[u], u, completes)]
      ensures childAccountMappings == old(childAccountMappings) && brokerCalls == old(brokerCalls)
      ensures events == old(events) + SweepEvents(old(orderHistory)[u], u, completes)
    {
      var orders := orderHistory[u];
      ghost var os0 := orders;
      if os0 != [] {
        SweepPrefixStep(os0, 0, u, completes);
      }
      for i := 0 to |orders|
        invariant orders == SweepPrefix(os0, i, u, completes)
        invariant orderHistory == old(orderHistory)
        invariant childAccountMappings == old(childAccountMappings) && brokerCalls == old(brokerCalls)
        invariant events == old(events) + SweepEvents(os0[..i], u, completes)
      {
        SweepPrefixStep(os0, i, u, completes);
        assert os0[..i + 1][..i] == os0[..i];
        assert orders[i] == os0[i];
        if orders[i].status == PENDING && completes(u, i) {
          orders := orders[i := Completed(orders[i])];
          events := events + [OrderUpdateEvent(orders[i])];
        }
      }
      assert os0[..|os0|] == os0;
      assert orders == SweepOrders(os0, u, completes);
      orderHistory := orderHistory[u := orders];
    }
  }
}
