/** An in-memory stand-in for the shop's tables in the database. */
module Database {
  import opened Models

  /** The rows the views and the middleware read and write, in store order. */
  class Store {
    var tables: seq<Table>
    var orders: seq<Order>
    var items: seq<OrderItem>
    var menuItems: seq<MenuItem>
    /** The next primary key the database hands out for an order item. */
    var nextItemId: int

    /** Item keys are distinct and below the next key; every item names an existing menu item. */
    ghost predicate Valid()
      reads this
    {
      && Referenced(items, menuItems)
      && (forall it :: it in items ==> it.id < nextItemId)
      && (forall i, j :: 0 <= i < j < |items| ==> items[i].id != items[j].id)
    }

    constructor (tables: seq<Table>, orders: seq<Order>, items: seq<OrderItem>, menuItems: seq<MenuItem>, nextItemId: int)
      requires Referenced(items, menuItems)
      requires forall it :: it in items ==> it.id < nextItemId
      requires forall i, j :: 0 <= i < j < |items| ==> items[i].id != items[j].id
      ensures Valid()
      ensures this.tables == tables && this.orders == orders && this.items == items
      ensures this.menuItems == menuItems && this.nextItemId == nextItemId
    {
      this.tables := tables;
      this.orders := orders;
      this.items := items;
      this.menuItems := menuItems;
      this.nextItemId := nextItemId;
    }

    /** `OrderItem.objects.create(...)`: insert one undelivered item under a fresh key. */
    method CreateOrderItem(order: int, product: int, quantity: int) returns (item: OrderItem)
      requires Valid()
      requires FindMenuItem(menuItems, product).Some?
      modifies this`items, this`nextItemId
      ensures Valid()
      ensures item == OrderItem(old(nextItemId), order, product, quantity)
      ensures !item.isDelivered
      ensures items == old(items) + [item] && nextItemId == old(nextItemId) + 1
      ensures forall it :: it in old(items) ==> it.id != item.id
    {
      item := OrderItem(nextItemId, order, product, quantity);
      items := items + [item];
      nextItemId := nextItemId + 1;
    }
  }
}
