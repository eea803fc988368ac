/** `OrderMiddleware`: resolves the order remembered in the session onto the request. */
module Middleware {
  import opened Wrappers
  import opened Models
  import opened Http
  import opened Database

  /** Python truthiness of the integer stored under `order_id`. */
  predicate Truthy(v: int)
  {
    v != 0
  }

  /** The value of `request.order` after the middleware, given its value before: left as it
      was without a truthy `order_id`, else the order with that key, or `None` when none has it. */
  function ResolveOrder(data: map<string, int>, orders: seq<Order>, before: Attr<Option<Order>>): (r: Attr<Option<Order>>)
    ensures (OrderIdKey !in data || !Truthy(data[OrderIdKey])) ==> r == before
    ensures OrderIdKey in data && Truthy(data[OrderIdKey]) ==>
              && r.Set?
              && (r.value.Some? ==> r.value.value in orders && r.value.value.id == data[OrderIdKey])
              && (r.value.None? <==> forall o :: o in orders ==> o.id != data[OrderIdKey])
  {
    var orderId := if OrderIdKey in data then Some(data[OrderIdKey]) else None;
    if orderId.Some? && Truthy(orderId.value) then
      Set(FindOrder(orders, orderId.value))
    else
      before
  }

  /** `OrderMiddleware.__call__` up to handing the request on: sets `request.order` as
      `ResolveOrder` says and changes nothing else. */
  method OrderMiddlewareCall(db: Store, request: Request)
    modifies request`order
    ensures request.order == ResolveOrder(request.session.data, db.orders, old(request.order))
    ensures unchanged(request.session) && unchanged(db)
  {
    var data := request.session.data;
    if OrderIdKey in data && Truthy(data[OrderIdKey]) {
      request.order := Set(FindOrder(db.orders, data[OrderIdKey]));
    }
  }

  /** After the detail view remembered an existing order, the next request resolves to it. */
  lemma DetailThenResolve(data: map<string, int>, orders: seq<Order>, orderId: int, o: Order, before: Attr<Option<Order>>)
    requires orderId != 0 && o in orders && o.id == orderId
    ensures ResolveOrder(WithOrderId(data, orderId), orders, before).Set?
    ensures ResolveOrder(WithOrderId(data, orderId), orders, before).value.Some?
    ensures ResolveOrder(WithOrderId(data, orderId), orders, before).value.value.id == orderId
    ensures DistinctOrderIds(orders) ==> ResolveOrder(WithOrderId(data, orderId), orders, before) == Set(Some(o))
  {
  }

  /** After the dashboard cleared the entry, the next request's `order` is not touched. */
  lemma DashboardThenResolve(data: map<string, int>, orders: seq<Order>, before: Attr<Option<Order>>)
    ensures ResolveOrder(WithoutOrderId(data), orders, before) == before
  {
  }

  /** A remembered order that has since disappeared resolves to `None`, not to an error. */
  lemma DanglingResolvesToNone(data: map<string, int>, orders: seq<Order>, before: Attr<Option<Order>>)
    requires OrderIdKey in data && data[OrderIdKey] != 0
    requires forall o :: o in orders ==> o.id != data[OrderIdKey]
    ensures ResolveOrder(data, orders, before) == Set(None)
  {
  }
}
