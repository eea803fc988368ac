/** The shop's records: products, menu items, tables, orders and their items, with the
    defaults new records get, the `__str__` renderings and the derived bill of an order. */
module Models {
  import opened Wrappers
  import Text

  // ---------------------------------------------------------------------------
  // Units of sale

  /** The `(value, label)` pairs offered for the `unit` field. The column itself is free
      text: the choices are checked by form validation only. */
  const UnitChoices: seq<(string, string)> :=
    [("draft", "Draft"), ("bottle", "Bottle"), ("can", "Can"),
     ("glass", "Glass"), ("bowl", "Bowl"), ("plate", "Plate")]

  const DefaultUnit: string := "draft"

  /** Whether a stored `unit` is one of the offered values. */
  predicate IsUnitChoice(unit: string)
  {
    exists i :: 0 <= i < |UnitChoices| && UnitChoices[i].0 == unit
  }

  /** There are six choices with distinct values, and the default is one of them. */
  lemma UnitChoicesWellFormed()
    ensures |UnitChoices| == 6
    ensures forall i, j :: 0 <= i < j < |UnitChoices| ==> UnitChoices[i].0 != UnitChoices[j].0
    ensures IsUnitChoice(DefaultUnit)
  {
    assert UnitChoices[0].0 == DefaultUnit;
  }

  // ---------------------------------------------------------------------------
  // Records, with the defaults a new record gets for the fields it is not given.
  // Prices are whole numbers of cents (a decimal with two fraction digits).
  // Image fields, timestamps and slugs are not part of this model.

  datatype Product = Product(id: int, name: string, size: string,
                             unit: string := DefaultUnit, description: Option<string> := None)

  datatype MenuItem = MenuItem(id: int, product: int, price: int,
                               category: Option<int> := None, isActive: bool := true)

  datatype Table = Table(id: int, name: string, inUse: bool := false, description: Option<string> := None)

  /** `product` is the id of the menu item ordered. */
  datatype OrderItem = OrderItem(id: int, order: int, product: int, quantity: int, isDelivered: bool := false)

  datatype Order = Order(id: int, table: int, isFinished: bool := false, isPaid: bool := false)

  /** What a record created without the defaulted fields holds. */
  lemma Defaults(id: int, name: string, size: string, ref: int, quantity: int, price: int)
    ensures Product(id, name, size).unit == "draft" && Product(id, name, size).description == None
    ensures MenuItem(id, ref, price).isActive && MenuItem(id, ref, price).category == None
    ensures !Table(id, name).inUse
    ensures !Order(id, ref).isFinished && !Order(id, ref).isPaid
    ensures !OrderItem(id, ref, ref, quantity).isDelivered
  {
  }

  // ---------------------------------------------------------------------------
  // `__str__`

  function ProductStr(p: Product): string
  {
    p.name + " " + p.size + " " + p.unit
  }

  function MenuItemStr(m: MenuItem, p: Product): string
    requires m.product == p.id
  {
    p.name + " " + p.size + " " + p.unit + " " + Text.PriceToString(m.price)
  }

  function OrderItemStr(it: OrderItem, m: MenuItem, p: Product): string
    requires it.product == m.id && m.product == p.id
  {
    p.name + "x" + Text.IntToString(it.quantity)
  }

  function TableStr(t: Table): string
  {
    t.name
  }

  function OrderStr(o: Order, t: Table): string
    requires o.table == t.id
  {
    TableStr(t) + "- order:" + Text.IntToString(o.id)
  }

  /** A menu item renders as its product followed by a space and its price. */
  lemma MenuItemStrExtendsProductStr(m: MenuItem, p: Product)
    requires m.product == p.id
    ensures MenuItemStr(m, p) == ProductStr(p) + " " + Text.PriceToString(m.price)
    ensures |MenuItemStr(m, p)| > |ProductStr(p)| + 4
  {
  }

  /** The quantity an order item renders with reads back from the text after the `x`,
      sign included. */
  lemma OrderItemStrShowsQuantity(it: OrderItem, m: MenuItem, p: Product)
    requires it.product == m.id && m.product == p.id
    ensures var s := OrderItemStr(it, m, p);
            && s[..|p.name| + 1] == p.name + "x"
            && Text.ParseInt(s[|p.name| + 1..]) == Some(it.quantity)
  {
    var s := OrderItemStr(it, m, p);
    assert s == (p.name + "x") + Text.IntToString(it.quantity);
    assert s[|p.name| + 1..] == Text.IntToString(it.quantity);
  }

  /** The key an order renders with reads back from the text after `- order:`. */
  lemma OrderStrShowsId(o: Order, t: Table)
    requires o.table == t.id
    ensures var s := OrderStr(o, t);
            && s[..|t.name| + 8] == t.name + "- order:"
            && Text.ParseInt(s[|t.name| + 8..]) == Some(o.id)
  {
    var s := OrderStr(o, t);
    assert s == (t.name + "- order:") + Text.IntToString(o.id);
    assert s[|t.name| + 8..] == Text.IntToString(o.id);
  }

  // ---------------------------------------------------------------------------
  // Lookups by primary key

  /** `Order.objects.get(id=...)`: the order with that id, or `None` when there is none. */
  function FindOrder(orders: seq<Order>, id: int): (r: Option<Order>)
    ensures r.Some? ==> r.value in orders && r.value.id == id
    ensures r.None? ==> forall o :: o in orders ==> o.id != id
  {
    if orders == [] then None
    else if orders[0].id == id then Some(orders[0])
    else FindOrder(orders[1..], id)
  }

  /** The primary-key constraint of the orders table: no two stored orders share an id. */
  ghost predicate DistinctOrderIds(orders: seq<Order>)
  {
    forall i, j :: 0 <= i < j < |orders| ==> orders[i].id != orders[j].id
  }

  /** `MenuItem.objects.get(id=...)`. */
  function FindMenuItem(menu: seq<MenuItem>, id: int): (r: Option<MenuItem>)
    ensures r.Some? ==> r.value in menu && r.value.id == id
    ensures r.None? ==> forall m :: m in menu ==> m.id != id
  {
    if menu == [] then None
    else if menu[0].id == id then Some(menu[0])
    else FindMenuItem(menu[1..], id)
  }

  /** Every item names a menu item that exists (the foreign key the database keeps). */
  ghost predicate Referenced(items: seq<OrderItem>, menu: seq<MenuItem>)
  {
    forall it :: it in items ==> FindMenuItem(menu, it.product).Some?
  }

  // ---------------------------------------------------------------------------
  // The bill

  /** `order.orderitem_set.all()`: the items of one order, in store order. */
  function ItemsOf(orderId: int, items: seq<OrderItem>): (r: seq<OrderItem>)
    ensures forall it :: it in r <==> it in items && it.order == orderId
    ensures |r| <= |items|
  {
    if items == [] then []
    else (if items[0].order == orderId then [items[0]] else []) + ItemsOf(orderId, items[1..])
  }

  /** The `if item.is_delivered` filter. */
  function Delivered(items: seq<OrderItem>): (r: seq<OrderItem>)
    ensures forall it :: it in r <==> it in items && it.isDelivered
  {
    if items == [] then []
    else (if items[0].isDelivered then [items[0]] else []) + Delivered(items[1..])
  }

  /** `item.product.price * item.quantity`, with the menu item's current price. */
  function LineTotal(menu: seq<MenuItem>, it: OrderItem): int
    requires FindMenuItem(menu, it.product).Some?
  {
    FindMenuItem(menu, it.product).value.price * it.quantity
  }

  function LineTotals(menu: seq<MenuItem>, items: seq<OrderItem>): (r: seq<int>)
    requires Referenced(items, menu)
    ensures |r| == |items|
    ensures forall i :: 0 <= i < |items| ==> items[i] in items && r[i] == LineTotal(menu, items[i])
  {
    if items == [] then [] else [LineTotal(menu, items[0])] + LineTotals(menu, items[1..])
  }

  function Sum(xs: seq<int>): int
  {
    if xs == [] then 0 else xs[0] + Sum(xs[1..])
  }

  /** `Order.total_bill`: the sum of the line totals of the order's delivered items. It equals
      the item-by-item sum over the whole store, in which any other item adds nothing. */
  function TotalBill(orderId: int, items: seq<OrderItem>, menu: seq<MenuItem>): (r: int)
    requires Referenced(items, menu)
    ensures r == Contributions(orderId, menu, items)
  {
    FilteredSumIsContributions(orderId, items, menu);
    Sum(LineTotals(menu, Delivered(ItemsOf(orderId, items))))
  }

  /** What one item adds to the bill of an order: its line total if it is a delivered
      item of that order, nothing otherwise. */
  function Contribution(orderId: int, menu: seq<MenuItem>, it: OrderItem): int
    requires FindMenuItem(menu, it.product).Some?
  {
    if it.order == orderId && it.isDelivered then LineTotal(menu, it) else 0
  }

  /** The bill computed item by item over the whole store. */
  function Contributions(orderId: int, menu: seq<MenuItem>, items: seq<OrderItem>): int
    requires Referenced(items, menu)
  {
    if items == [] then 0 else Contribution(orderId, menu, items[0]) + Contributions(orderId, menu, items[1..])
  }

  /** The filter-map-sum of `total_bill` is the item-by-item sum: undelivered items and items of
      other orders add nothing. */
  lemma {:induction false} FilteredSumIsContributions(orderId: int, items: seq<OrderItem>, menu: seq<MenuItem>)
    requires Referenced(items, menu)
    ensures Sum(LineTotals(menu, Delivered(ItemsOf(orderId, items)))) == Contributions(orderId, menu, items)
  {
    if items != [] {
      var h, rest := items[0], items[1..];
      assert Referenced(rest, menu) by {
        forall it | it in rest ensures FindMenuItem(menu, it.product).Some? {
          assert it in items;
        }
      }
      FilteredSumIsContributions(orderId, rest, menu);
      var mine := ItemsOf(orderId, rest);
      if h.order == orderId {
        assert ItemsOf(orderId, items) == [h] + mine;
        assert ([h] + mine)[0] == h && ([h] + mine)[1..] == mine;
        if h.isDelivered {
          var d := Delivered(mine);
          assert Delivered([h] + mine) == [h] + d;
          assert ([h] + d)[0] == h && ([h] + d)[1..] == d;
          var lt := LineTotals(menu, d);
          assert LineTotals(menu, [h] + d) == [LineTotal(menu, h)] + lt;
          assert ([LineTotal(menu, h)] + lt)[1..] == lt;
        } else {
          assert Delivered([h] + mine) == Delivered(mine);
        }
      } else {
        assert ItemsOf(orderId, items) == mine;
      }
    }
  }

  lemma {:induction false} ContributionsAppend(orderId: int, menu: seq<MenuItem>, a: seq<OrderItem>, b: seq<OrderItem>)
    requires Referenced(a + b, menu)
    ensures Referenced(a, menu) && Referenced(b, menu)
    ensures Contributions(orderId, menu, a + b) == Contributions(orderId, menu, a) + Contributions(orderId, menu, b)
    decreases |a|
  {
    assert forall it :: it in a ==> it in a + b;
    assert forall it :: it in b ==> it in a + b;
    if a != [] {
      assert (a + b)[0] == a[0] && (a + b)[1..] == a[1..] + b;
      ContributionsAppend(orderId, menu, a[1..], b);
    } else {
      assert a + b == b;
    }
  }

  /** The bill does not depend on the order in which the items are stored. */
  lemma {:induction false} TotalBillPermutation(orderId: int, a: seq<OrderItem>, b: seq<OrderItem>, menu: seq<MenuItem>)
    requires Referenced(a, menu)
    requires multiset(a) == multiset(b)
    ensures Referenced(b, menu)
    ensures TotalBill(orderId, a, menu) == TotalBill(orderId, b, menu)
  {
    assert Referenced(b, menu) by {
      forall it | it in b ensures FindMenuItem(menu, it.product).Some? {
        assert it in multiset(b);
      }
    }
    ContributionsPermutation(orderId, a, b, menu);
  }

  /** Taking one item out of the sequence takes exactly its contribution out of the sum. */
  lemma ContributionsRemove(orderId: int, b: seq<OrderItem>, k: int, menu: seq<MenuItem>)
    requires Referenced(b, menu)
    requires 0 <= k < |b|
    ensures Referenced(b[..k] + b[k + 1..], menu)
    ensures FindMenuItem(menu, b[k].product).Some?
    ensures Contributions(orderId, menu, b)
         == Contribution(orderId, menu, b[k]) + Contributions(orderId, menu, b[..k] + b[k + 1..])
  {
    var x := b[k];
    assert x in b;
    assert b == b[..k] + ([x] + b[k + 1..]);
    assert Referenced(b[..k] + b[k + 1..], menu) by {
      forall it | it in b[..k] + b[k + 1..] ensures FindMenuItem(menu, it.product).Some? {
        assert it in b[..k] || it in b[k + 1..];
        assert it in b;
      }
    }
    ContributionsAppend(orderId, menu, b[..k], [x] + b[k + 1..]);
    ContributionsAppend(orderId, menu, [x], b[k + 1..]);
    assert ([x] + b[k + 1..])[1..] == b[k + 1..];
    ContributionsAppend(orderId, menu, b[..k], b[k + 1..]);
  }

  lemma {:induction false} ContributionsPermutation(orderId: int, a: seq<OrderItem>, b: seq<OrderItem>, menu: seq<MenuItem>)
    requires Referenced(a, menu) && Referenced(b, menu)
    requires multiset(a) == multiset(b)
    ensures Contributions(orderId, menu, a) == Contributions(orderId, menu, b)
    decreases |a|
  {
    if a == [] {
      assert |b| == |multiset(b)| == 0;
    } else {
      var x := a[0];
      assert x in multiset(b);
      var k :| 0 <= k < |b| && b[k] == x;
      var b' := b[..k] + b[k + 1..];
      assert b == b[..k] + [x] + b[k + 1..];
      assert multiset(b) == multiset(b[..k]) + multiset([x]) + multiset(b[k + 1..]);
      assert a == [x] + a[1..];
      assert multiset(a) == multiset([x]) + multiset(a[1..]);
      assert multiset(b') == multiset(b[..k]) + multiset(b[k + 1..]);
      assert multiset(b') == multiset(b) - multiset([x]);
      assert multiset(a[1..]) == multiset(a) - multiset([x]);
      ContributionsRemove(orderId, b, k, menu);
      assert Referenced(a[1..], menu) by {
        forall it | it in a[1..] ensures FindMenuItem(menu, it.product).Some? {
          assert it in a;
        }
      }
      ContributionsPermutation(orderId, a[1..], b', menu);
    }
  }

  /** Marking one undelivered item of the order delivered raises the bill by exactly that
      item's line total; doing so for an item of another order leaves the bill as it was. */
  lemma TotalBillDeliverOne(orderId: int, items: seq<OrderItem>, menu: seq<MenuItem>, k: int)
    requires Referenced(items, menu)
    requires 0 <= k < |items| && !items[k].isDelivered
    ensures Referenced(items[k := items[k].(isDelivered := true)], menu)
    ensures TotalBill(orderId, items[k := items[k].(isDelivered := true)], menu)
         == TotalBill(orderId, items, menu) + (if items[k].order == orderId then LineTotal(menu, items[k]) else 0)
  {
    var x := items[k];
    var y := x.(isDelivered := true);
    var after := items[k := y];
    assert after == items[..k] + ([y] + items[k + 1..]);
    assert items == items[..k] + ([x] + items[k + 1..]);
    assert FindMenuItem(menu, y.product).Some? by { assert x in items; }
    assert Referenced(after, menu) by {
      forall it | it in after ensures FindMenuItem(menu, it.product).Some? {
        if it != y {
          var i :| 0 <= i < |after| && after[i] == it;
          assert items[i] == it;
        }
      }
    }
    ContributionsAppend(orderId, menu, items[..k], [x] + items[k + 1..]);
    ContributionsAppend(orderId, menu, [x], items[k + 1..]);
    ContributionsAppend(orderId, menu, items[..k], [y] + items[k + 1..]);
    ContributionsAppend(orderId, menu, [y], items[k + 1..]);
    assert ([x] + items[k + 1..])[1..] == items[k + 1..];
  }

  /** An order none of whose items is delivered, in particular one with no items, owes nothing. */
  lemma TotalBillNothingDelivered(orderId: int, items: seq<OrderItem>, menu: seq<MenuItem>)
    requires Referenced(items, menu)
    requires forall it :: it in items && it.order == orderId ==> !it.isDelivered
    ensures TotalBill(orderId, items, menu) == 0
  {
    NoneDelivered(ItemsOf(orderId, items));
  }

  lemma {:induction false} NoneDelivered(xs: seq<OrderItem>)
    requires forall it :: it in xs ==> !it.isDelivered
    ensures Delivered(xs) == []
  {
    if xs != [] {
      assert xs[0] in xs;
      assert forall it :: it in xs[1..] ==> it in xs;
      NoneDelivered(xs[1..]);
    }
  }

  /** With no negative price and no negative quantity, the bill is never negative. */
  lemma {:induction false} TotalBillNonNegative(orderId: int, items: seq<OrderItem>, menu: seq<MenuItem>)
    requires Referenced(items, menu)
    requires forall m :: m in menu ==> m.price >= 0
    requires forall it :: it in items ==> it.quantity >= 0
    ensures TotalBill(orderId, items, menu) >= 0
  {
    ContributionsNonNegative(orderId, items, menu);
  }

  lemma {:induction false} ContributionsNonNegative(orderId: int, items: seq<OrderItem>, menu: seq<MenuItem>)
    requires Referenced(items, menu)
    requires forall m :: m in menu ==> m.price >= 0
    requires forall it :: it in items ==> it.quantity >= 0
    ensures Contributions(orderId, menu, items) >= 0
  {
    if items != [] {
      var h := items[0];
      assert h in items;
      assert FindMenuItem(menu, h.product).value in menu;
      assert Referenced(items[1..], menu) by {
        forall it | it in items[1..] ensures FindMenuItem(menu, it.product).Some? {
          assert it in items;
        }
      }
      ContributionsNonNegative(orderId, items[1..], menu);
    }
  }
}
