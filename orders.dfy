/** The order record that the server stores per user, broadcasts on
    `new_order` / `order_update`, and the client lists in its orders table. */
module Orders {
  import opened JsText

  /** A parsed price (`parseFloat`). Prices are only copied and compared,
      never computed with, so a real number stands for the float. */
  type Price = real

  /** Statuses the server itself writes. The broker may report others, so
      the field stays a string. */
  const PENDING := "pending"
  const COMPLETE := "complete"
  const CANCELLED := "cancelled"

  datatype Order = Order(
    order_id: string,
    instrument_token: string,
    trading_symbol: Option<string>,
    quantity: int,
    price: Price,
    order_type: string,
    transaction_type: string,
    product: string,
    validity: string,
    status: string,
    timestamp: string,
    filled_quantity: int,
    pending_quantity: int,
    average_price: Price,
    exchange: string,
    trigger_price: Price,
    disclosed_quantity: int,
    is_amo: bool,
    tag: string,
    user_id: string,
    upstox_order_ids: seq<string>,
    parent_order_id: Option<string>)

  /** Filled and pending quantities add up to the ordered quantity. */
  predicate Balanced(o: Order) {
    o.filled_quantity + o.pending_quantity == o.quantity
  }

  predicate AllBalanced(os: seq<Order>) {
    forall i :: 0 <= i < |os| ==> Balanced(os[i])
  }

  /** No two orders in the list share an `order_id`. */
  predicate UniqueOrderIds(os: seq<Order>) {
    forall i, j :: 0 <= i < j < |os| ==> os[i].order_id != os[j].order_id
  }
}
