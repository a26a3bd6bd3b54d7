/** The orders table of the web client (src/components/OrdersTable.tsx): the
    three-way filter applied to the order list, and the two socket
    reducers that keep the list current. */
module OrdersTable {
  import opened JsText
  import opened Orders

  /** The criterion value that disables a filter. */
  const ALL := "all"

  /** The filter panel's state. */
  datatype Filter = Filter(status: string, transaction_type: string, product: string)

  /** The panel's initial state: every criterion set to 'all'. */
  const NO_FILTER := Filter(ALL, ALL, ALL)

  /** An order passes `f` when it meets every criterion that is not 'all';
      the status is compared after lower-casing the order's status, the
      other two exactly. */
  predicate Matches(f: Filter, o: Order) {
    && (f.status == ALL || ToLower(o.status) == f.status)
    && (f.transaction_type == ALL || o.transaction_type == f.transaction_type)
    && (f.product == ALL || o.product == f.product)
  }

  /** One step of `applyFilters`: `filtered.filter(p)` when the criterion is
      set, the list unchanged when it is 'all'. */
  function Stage(os: seq<Order>, criterion: string, p: Order -> bool): seq<Order> {
    if criterion != ALL then Keep(os, p) else os
  }

  /** `applyFilters`: status, then transaction type, then product. The three
      stages amount to one filter by `Matches`. */
  function ApplyFilters(orders: seq<Order>, f: Filter): (r: seq<Order>)
    ensures r == Keep(orders, (o: Order) => Matches(f, o))
  {
    var ps := (o: Order) => ToLower(o.status) == f.status;
    var pt := (o: Order) => o.transaction_type == f.transaction_type;
    var pp := (o: Order) => o.product == f.product;
    StagesAreKeep(orders, f, ps, pt, pp);
    Stage(Stage(Stage(orders, f.status, ps), f.transaction_type, pt), f.product, pp)
  }

  /** A stage is a filter whose predicate is true throughout when the
      criterion is 'all'. */
  lemma StageIsKeep(os: seq<Order>, criterion: string, p: Order -> bool, q: Order -> bool)
    requires forall o :: q(o) == (criterion == ALL || p(o))
    ensures Stage(os, criterion, p) == Keep(os, q)
  {
    if criterion == ALL {
      KeepAll(os, q);
    } else {
      var always := (o: Order) => true;
      KeepAll(os, always);
      KeepKeep(os, always, p, q);
    }
  }

  /** The three stages in a row are one filter by `Matches`. */
  lemma StagesAreKeep(orders: seq<Order>, f: Filter, ps: Order -> bool, pt: Order -> bool, pp: Order -> bool)
    requires forall o :: ps(o) == (ToLower(o.status) == f.status)
    requires forall o :: pt(o) == (o.transaction_type == f.transaction_type)
    requires forall o :: pp(o) == (o.product == f.product)
    ensures Stage(Stage(Stage(orders, f.status, ps), f.transaction_type, pt), f.product, pp)
         == Keep(orders, (o: Order) => Matches(f, o))
  {
    var qs := (o: Order) => f.status == ALL || ToLower(o.status) == f.status;
    var qt := (o: Order) => f.transaction_type == ALL || o.transaction_type == f.transaction_type;
    var qp := (o: Order) => f.product == ALL || o.product == f.product;
    var qst := (o: Order) => qs(o) && qt(o);
    StageIsKeep(orders, f.status, ps, qs);
    var byStatus := Keep(orders, qs);
    StageIsKeep(byStatus, f.transaction_type, pt, qt);
    KeepKeep(orders, qs, qt, qst);
    var byType := Keep(orders, qst);
    StageIsKeep(byType, f.product, pp, qp);
    KeepKeep(orders, qst, qp, (o: Order) => Matches(f, o));
  }

  /** The table shows exactly the orders that pass the filter, each as often
      as it occurs in the list, in their original order, and never more
      orders than there are. */
  lemma FilterSelectsExactly(orders: seq<Order>, f: Filter)
    ensures forall o :: o in ApplyFilters(orders, f) ==> o in orders && Matches(f, o)
    ensures forall o :: o in orders && Matches(f, o) ==> o in ApplyFilters(orders, f)
    ensures forall o :: multiset(ApplyFilters(orders, f))[o] == if Matches(f, o) then multiset(orders)[o] else 0
    ensures Subsequence(ApplyFilters(orders, f), orders)
    ensures |ApplyFilters(orders, f)| <= |orders|
  {
    KeepSelects(orders, (o: Order) => Matches(f, o));
  }

  /** The filter leaves the list as it is exactly when every order passes it;
      in particular the all-'all' filter shows every order. */
  lemma FilterIdentityIff(orders: seq<Order>, f: Filter)
    ensures ApplyFilters(orders, f) == orders <==> forall o :: o in orders ==> Matches(f, o)
    ensures ApplyFilters(orders, NO_FILTER) == orders
  {
    FilterSelectsExactly(orders, f);
    if forall o :: o in orders ==> Matches(f, o) {
      KeepAll(orders, (o: Order) => Matches(f, o));
    }
    KeepAll(orders, (o: Order) => Matches(NO_FILTER, o));
  }

  /** Filtering the filtered list again changes nothing. */
  lemma FilterIdempotent(orders: seq<Order>, f: Filter)
    ensures ApplyFilters(ApplyFilters(orders, f), f) == ApplyFilters(orders, f)
  {
    KeepIdempotent(orders, (o: Order) => Matches(f, o));
  }

  lemma {:induction false} ToLowerIdempotent(s: string)
    ensures ToLower(ToLower(s)) == ToLower(s)
  {
    var once := ToLower(s);
    assert forall i :: 0 <= i < |s| ==> ToLower(once)[i] == once[i];
  }

  /** The status criterion ignores case on the order's side: an order and the
      same order with its status lower-cased pass the same filters. */
  lemma StatusCaseIgnored(f: Filter, o: Order)
    ensures Matches(f, o) == Matches(f, o.(status := ToLower(o.status)))
  {
    ToLowerIdempotent(o.status);
  }

  /** A status criterion holding an upper-case letter matches no order, since
      only the order's side is lower-cased. */
  lemma UppercaseStatusSelectsNothing(orders: seq<Order>, f: Filter, i: nat)
    requires f.status != ALL && i < |f.status| && 'A' <= f.status[i] <= 'Z'
    ensures ApplyFilters(orders, f) == []
  {
    forall o: Order ensures !Matches(f, o) {
      if ToLower(o.status) == f.status {
        assert false;
      }
    }
    KeepNone(orders, (o: Order) => Matches(f, o));
  }

  // ---------------------------------------------------------------------------
  // Socket reducers

  /** The `order_update` reducer: every entry with the update's `order_id` is
      replaced by the update. */
  function ApplyOrderUpdate(prev: seq<Order>, updated: Order): (r: seq<Order>)
    ensures |r| == |prev|
    ensures forall i :: 0 <= i < |prev| ==> r[i].order_id == prev[i].order_id
  {
    seq(|prev|, i requires 0 <= i < |prev| => if prev[i].order_id == updated.order_id then updated else prev[i])
  }

  /** The update lands exactly on the entries carrying its id; every other
      entry and every position stays as it was. */
  lemma UpdateReplacesById(prev: seq<Order>, updated: Order, i: nat)
    requires i < |prev|
    ensures prev[i].order_id == updated.order_id ==> ApplyOrderUpdate(prev, updated)[i] == updated
    ensures prev[i].order_id != updated.order_id ==> ApplyOrderUpdate(prev, updated)[i] == prev[i]
    ensures updated in ApplyOrderUpdate(prev, updated) <==> exists j :: 0 <= j < |prev| && prev[j].order_id == updated.order_id
  {
    var r := ApplyOrderUpdate(prev, updated);
    if updated in r {
      var j :| 0 <= j < |r| && r[j] == updated;
      assert prev[j].order_id == updated.order_id;
    }
    if exists j :: 0 <= j < |prev| && prev[j].order_id == updated.order_id {
      var j :| 0 <= j < |prev| && prev[j].order_id == updated.order_id;
      assert r[j] == updated;
    }
  }

  /** An update for an order the list does not hold leaves the list alone. */
  lemma UpdateUnknownIdIsNoOp(prev: seq<Order>, updated: Order)
    requires forall i :: 0 <= i < |prev| ==> prev[i].order_id != updated.order_id
    ensures ApplyOrderUpdate(prev, updated) == prev
  {
    var r := ApplyOrderUpdate(prev, updated);
    forall i | 0 <= i < |prev| ensures r[i] == prev[i] {
      UpdateReplacesById(prev, updated, i);
    }
  }

  /** Receiving the same update twice is receiving it once. */
  lemma UpdateIdempotent(prev: seq<Order>, updated: Order)
    ensures ApplyOrderUpdate(ApplyOrderUpdate(prev, updated), updated) == ApplyOrderUpdate(prev, updated)
  {
    var once := ApplyOrderUpdate(prev, updated);
    forall i | 0 <= i < |prev| ensures ApplyOrderUpdate(once, updated)[i] == once[i] {
      UpdateReplacesById(prev, updated, i);
      UpdateReplacesById(once, updated, i);
    }
  }

  /** An update keeps the ids, so a list with unique ids keeps them. */
  lemma UpdateKeepsUniqueIds(prev: seq<Order>, updated: Order)
    requires UniqueOrderIds(prev)
    ensures UniqueOrderIds(ApplyOrderUpdate(prev, updated))
  {
    var r := ApplyOrderUpdate(prev, updated);
    forall i, j | 0 <= i < j < |r| ensures r[i].order_id != r[j].order_id {
      assert r[i].order_id == prev[i].order_id && r[j].order_id == prev[j].order_id;
    }
  }

  /** With unique ids, the update replaces the one entry at the position of its id. */
  lemma UpdateAtUniquePosition(prev: seq<Order>, updated: Order, k: nat)
    requires UniqueOrderIds(prev) && k < |prev| && prev[k].order_id == updated.order_id
    ensures ApplyOrderUpdate(prev, updated) == prev[k := updated]
  {
    var r := ApplyOrderUpdate(prev, updated);
    forall i | 0 <= i < |prev| ensures r[i] == prev[k := updated][i] {
      UpdateReplacesById(prev, updated, i);
      if i != k {
        assert prev[i].order_id != prev[k].order_id by {
          if i < k { assert prev[i].order_id != prev[k].order_id; }
          else { assert prev[k].order_id != prev[i].order_id; }
        }
      }
    }
  }

  /** The `new_order` reducer: the new order goes on top. */
  function PrependNewOrder(prev: seq<Order>, o: Order): (r: seq<Order>)
    ensures |r| == |prev| + 1 && r[0] == o && r[1..] == prev
  {
    [o] + prev
  }
}
