/** How the orders table follows the server: every `io.emit` reaches every
    connected client, whose two listeners fold it into the list they show.
    These lemmas relate what the server stores to what a client that
    started from the server's list ends up showing. */
module ClientSync {
  import opened JsText
  import opened Orders
  import opened Trading
  import opened OrdersTable

  /** The table's listeners applied to one broadcast event. */
  function Receive(list: seq<Order>, e: Event): seq<Order> {
    match e
    case NewOrderEvent(o) => PrependNewOrder(list, o)
    case OrderUpdateEvent(o) => ApplyOrderUpdate(list, o)
  }

  /** The listeners applied to a run of events, oldest first. */
  function ReceiveAll(list: seq<Order>, es: seq<Event>): seq<Order>
    decreases |es|
  {
    if es == [] then list else Receive(ReceiveAll(list, es[..|es| - 1]), es[|es| - 1])
  }

  lemma ReceiveAllSnoc(list: seq<Order>, es: seq<Event>, e: Event)
    ensures ReceiveAll(list, es + [e]) == Receive(ReceiveAll(list, es), e)
  {
    assert (es + [e])[..|es|] == es;
  }

  /** `new_order` is broadcast to everyone: a client's list receives every
      placed order, whoever placed it, newest on top. */
  lemma {:induction false} BroadcastShowsEveryNewOrder(prev: seq<Order>, os: seq<Order>)
    ensures ReceiveAll(prev, NewOrderEvents(os)) == Reversed(os) + prev
    decreases |os|
  {
    if os != [] {
      var n := |os| - 1;
      BroadcastShowsEveryNewOrder(prev, os[..n]);
      NewOrderEventsConcat(os[..n], [os[n]]);
      assert os[..n] + [os[n]] == os;
      ReceiveAllSnoc(prev, NewOrderEvents(os[..n]), NewOrderEvent(os[n]));
    }
  }

  /** Restricted to one user's orders, the broadcast `new_order` events build
      exactly what the server prepends to that user's history. */
  lemma {:induction false} OwnViewMatchesServer(prev: seq<Order>, os: seq<Order>, u: string)
    ensures Keep(ReceiveAll(prev, NewOrderEvents(os)), (o: Order) => o.user_id == u)
         == NewestFirst(os, u) + Keep(prev, (o: Order) => o.user_id == u)
    decreases |os|
  {
    var owned := (o: Order) => o.user_id == u;
    if os != [] {
      var n := |os| - 1;
      OwnViewMatchesServer(prev, os[..n], u);
      NewOrderEventsConcat(os[..n], [os[n]]);
      assert os[..n] + [os[n]] == os;
      ReceiveAllSnoc(prev, NewOrderEvents(os[..n]), NewOrderEvent(os[n]));
      var before := ReceiveAll(prev, NewOrderEvents(os[..n]));
      assert ([os[n]] + before)[1..] == before;
      ConcatAssoc(if owned(os[n]) then [os[n]] else [], NewestFirst(os[..n], u), Keep(prev, owned));
    }
  }

  /** A successful `POST /orders` emits `new_order` for the caller's order and
      then for each replica. A client of user `u` whose list was `u`'s
      stored history and which keeps only `u`'s orders ends up with exactly
      the history the server now stores for `u`. */
  lemma PlaceOrderMirrored(h: map<string, seq<Order>>, order: Order, replicas: seq<Order>, u: string)
    requires forall o :: o in HistoryOf(h, u) ==> o.user_id == u
    ensures Keep(ReceiveAll(HistoryOf(h, u), [NewOrderEvent(order)] + NewOrderEvents(replicas)), (o: Order) => o.user_id == u)
         == HistoryOf(PrependAll(Prepend(h, order), replicas), u)
  {
    var owned := (o: Order) => o.user_id == u;
    var os := [order] + replicas;
    NewOrderEventsConcat([order], replicas);
    assert NewOrderEvents([order]) == [NewOrderEvent(order)];
    assert [order][..0] == [];
    assert PrependAll(h, [order]) == Prepend(h, order);
    PrependAllConcat(h, [order], replicas);
    PrependAllHistory(h, os, u);
    OwnViewMatchesServer(HistoryOf(h, u), os, u);
    KeepAll(HistoryOf(h, u), owned);
  }

  /** After `DELETE /orders/:id`, the broadcast `order_update` turns a
      client's copy of the list (unique ids) into the server's new list. */
  lemma CancelMirrored(os: seq<Order>, orderId: string)
    requires UniqueOrderIds(os) && FindOrder(os, orderId).Some?
    ensures var k := FindOrder(os, orderId).value;
      Receive(os, OrderUpdateEvent(MarkCancelled(os, k)[k])) == MarkCancelled(os, k)
  {
    var k := FindOrder(os, orderId).value;
    UpdateAtUniquePosition(os, MarkCancelled(os, k)[k], k);
  }

  lemma SweepPrefixKeepsIds(os: seq<Order>, n: nat, u: string, completes: (string, nat) -> bool)
    requires UniqueOrderIds(os)
    ensures forall j :: 0 <= j < |os| ==> SweepPrefix(os, n, u, completes)[j].order_id == os[j].order_id
    ensures UniqueOrderIds(SweepPrefix(os, n, u, completes))
  {
    var p := SweepPrefix(os, n, u, completes);
    forall j | 0 <= j < |os| ensures p[j].order_id == os[j].order_id {
      if j < n {
        assert p[j] == SweepOne(os[j], completes(u, j));
      }
    }
  }

  lemma {:induction false} SweepPrefixMirrored(os: seq<Order>, n: nat, u: string, completes: (string, nat) -> bool)
    requires UniqueOrderIds(os) && n <= |os|
    ensures ReceiveAll(os, SweepEvents(os[..n], u, completes)) == SweepPrefix(os, n, u, completes)
    decreases n
  {
    if n == 0 {
      assert os[..0] == [];
      assert SweepPrefix(os, 0, u, completes) == os;
    } else {
      var m := n - 1;
      SweepPrefixMirrored(os, m, u, completes);
      assert os[..n][..m] == os[..m];
      assert os[..n][m] == os[m];
      var before := SweepPrefix(os, m, u, completes);
      SweepPrefixStep(os, m, u, completes);
      if os[m].status == PENDING && completes(u, m) {
        var e := OrderUpdateEvent(Completed(os[m]));
        assert SweepEvents(os[..n], u, completes) == SweepEvents(os[..m], u, completes) + [e];
        ReceiveAllSnoc(os, SweepEvents(os[..m], u, completes), e);
        SweepPrefixKeepsIds(os, m, u, completes);
        UpdateAtUniquePosition(before, Completed(os[m]), m);
      } else {
        var evs := SweepEvents(os[..m], u, completes);
        assert SweepEvents(os[..n], u, completes) == evs + [];
        assert evs + [] == evs;
        assert before[m] == os[m] == SweepOne(os[m], completes(u, m));
        assert before[m := os[m]] == before;
        assert SweepPrefix(os, n, u, completes) == before;
      }
    }
  }

  /** The `order_update` events of one user's sweep turn a client's copy of
      that list (unique ids) into the swept list the server stores. */
  lemma SweepMirrored(os: seq<Order>, u: string, completes: (string, nat) -> bool)
    requires UniqueOrderIds(os)
    ensures ReceiveAll(os, SweepEvents(os, u, completes)) == SweepOrders(os, u, completes)
  {
    SweepPrefixMirrored(os, |os|, u, completes);
    assert os[..|os|] == os;
    if os != [] {
      SweepPrefixStep(os, 0, u, completes);
    }
  }
}
