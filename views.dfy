/** The order views: the dashboard, the order detail page and adding an item to the current order. */
module Views {
  import opened Wrappers
  import opened Models
  import Forms
  import opened Http
  import opened Database

  /** The exceptions a view lets escape, and the view that returns no response. */
  datatype ViewError =
    | DoesNotExist      // `Model.objects.get` found no row
    | AttributeMissing  // `request.order` was never set
    | IntegrityError    // an item was inserted with no order
    | NoResponse        // the view fell off its end and returned `None`

  // ---------------------------------------------------------------------------
  // Dashboard queries

  /** `Order.objects.filter(is_finished=False)`. */
  function ActiveOrders(orders: seq<Order>): (r: seq<Order>)
    ensures forall o :: o in r <==> o in orders && !o.isFinished
    ensures |r| <= |orders|
  {
    if orders == [] then []
    else (if !orders[0].isFinished then [orders[0]] else []) + ActiveOrders(orders[1..])
  }

  /** Whether some unfinished order has the given key: the `order__is_finished=False` join. */
  function HasOpenOrder(orders: seq<Order>, id: int): (b: bool)
    ensures b <==> exists o :: o in orders && o.id == id && !o.isFinished
  {
    if orders == [] then false
    else (orders[0].id == id && !orders[0].isFinished) || HasOpenOrder(orders[1..], id)
  }

  /** `OrderItem.objects.filter(order__is_finished=False, is_delivered=False)`. */
  function UndeliveredItems(orders: seq<Order>, items: seq<OrderItem>): (r: seq<OrderItem>)
    ensures forall it :: it in r <==> it in items && !it.isDelivered && HasOpenOrder(orders, it.order)
    ensures |r| <= |items|
  {
    if items == [] then []
    else
      var it := items[0];
      (if !it.isDelivered && HasOpenOrder(orders, it.order) then [it] else []) + UndeliveredItems(orders, items[1..])
  }

  /** An undelivered item of a finished order is not on the dashboard. */
  lemma FinishedOrdersLeaveDashboard(orders: seq<Order>, items: seq<OrderItem>, it: OrderItem)
    requires forall o :: o in orders && o.id == it.order ==> o.isFinished
    ensures it !in UndeliveredItems(orders, items)
  {
  }

  // ---------------------------------------------------------------------------
  // Views

  /** `ActiveDashboardView.get`: lists the open orders and their undelivered items, and forgets
      the current order whether or not one was remembered. */
  method ActiveDashboardGet(db: Store, request: Request) returns (activeOrders: seq<Order>, undeliveredItems: seq<OrderItem>)
    modifies request.session
    ensures activeOrders == ActiveOrders(db.orders)
    ensures undeliveredItems == UndeliveredItems(db.orders, db.items)
    ensures request.session.data == WithoutOrderId(old(request.session.data))
  {
    activeOrders := ActiveOrders(db.orders);
    undeliveredItems := UndeliveredItems(db.orders, db.items);
    request.session.data := WithoutOrderId(request.session.data);
  }

  /** `OrderDetailView.get`: the order and exactly its items, after which the session remembers
      the order; an unknown id raises before the session is touched. */
  method OrderDetailGet(db: Store, request: Request, orderId: int) returns (r: Result<(Order, seq<OrderItem>), ViewError>)
    modifies request.session
    ensures FindOrder(db.orders, orderId).None? ==>
              r == Err(DoesNotExist) && request.session.data == old(request.session.data)
    ensures FindOrder(db.orders, orderId).Some? ==>
              && r.Ok? && r.value.0 == FindOrder(db.orders, orderId).value
              && (forall it :: it in r.value.1 <==> it in db.items && it.order == orderId)
              && r.value.1 == ItemsOf(orderId, db.items)
              && request.session.data == WithOrderId(old(request.session.data), orderId)
  {
    var found := FindOrder(db.orders, orderId);
    if found.None? {
      return Err(DoesNotExist);
    }
    var order := found.value;
    var orderItems := ItemsOf(orderId, db.items);
    request.session.data := WithOrderId(request.session.data, orderId);
    r := Ok((order, orderItems));
  }

  /** `OrderItemCreateView.get`: the current order (possibly `None`) and the chosen menu item. */
  method OrderItemCreateGet(db: Store, request: Request, itemId: int) returns (r: Result<(Option<Order>, MenuItem), ViewError>)
    ensures request.order.Unset? ==> r == Err(AttributeMissing)
    ensures request.order.Set? && FindMenuItem(db.menuItems, itemId).None? ==> r == Err(DoesNotExist)
    ensures r.Ok? <==> request.order.Set? && FindMenuItem(db.menuItems, itemId).Some?
    ensures r.Ok? ==> r.value.0 == request.order.value && r.value.1.id == itemId && r.value.1 in db.menuItems
  {
    if request.order.Unset? {
      return Err(AttributeMissing);
    }
    var found := FindMenuItem(db.menuItems, itemId);
    if found.None? {
      return Err(DoesNotExist);
    }
    r := Ok((request.order.value, found.value));
  }

  /** `OrderItemCreateView.post`: with a current order, an existing menu item and a valid
      quantity, exactly one undelivered item is appended to the store, whether or not the
      order is finished; in every other case the store is left as it was. */
  method OrderItemCreatePost(db: Store, request: Request, itemId: int, quantity: Forms.IntegerInput)
    returns (r: Result<int, ViewError>)
    requires db.Valid()
    modifies db`items, db`nextItemId
    ensures db.Valid()
    ensures r.Ok? <==> && request.order.Set? && request.order.value.Some?
                       && FindMenuItem(db.menuItems, itemId).Some?
                       && Forms.CleanQuantity(quantity).Ok?
    ensures r.Ok? ==>
              && r.value == request.order.value.value.id
              && db.items == old(db.items) + [OrderItem(old(db.nextItemId), r.value, itemId, quantity.value, false)]
              && db.nextItemId == old(db.nextItemId) + 1
    ensures r.Err? ==> db.items == old(db.items) && db.nextItemId == old(db.nextItemId)
    ensures request.order.Unset? ==> r == Err(AttributeMissing)
    ensures request.order.Set? && FindMenuItem(db.menuItems, itemId).None? ==> r == Err(DoesNotExist)
    ensures (request.order.Set? && FindMenuItem(db.menuItems, itemId).Some? && Forms.CleanQuantity(quantity).Err?)
              ==> r == Err(NoResponse)
    ensures (request.order == Set(None) && FindMenuItem(db.menuItems, itemId).Some? && Forms.CleanQuantity(quantity).Ok?)
              ==> r == Err(IntegrityError)
  {
    if request.order.Unset? {
      return Err(AttributeMissing);
    }
    var order := request.order.value;
    var found := FindMenuItem(db.menuItems, itemId);
    if found.None? {
      return Err(DoesNotExist);
    }
    var menuItem := found.value;
    var cleaned := Forms.CleanQuantity(quantity);
    if cleaned.Err? {
      return Err(NoResponse);
    }
    if order.None? {
      return Err(IntegrityError);
    }
    var item := db.CreateOrderItem(order.value.id, menuItem.id, cleaned.value);
    r := Ok(order.value.id);
  }
}
