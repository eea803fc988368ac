# Restaurant order app: a Dafny model of its order bookkeeping

This project models the logic of a restaurant point-of-sale web app. It covers:

- the two validators on image uploads, which check the file extension and the file size;
- the shop's records: their field defaults, their `__str__` renderings, and the bill of an order;
- the order-side forms: choosing a free table, and the quantity of a new item;
- the dashboard and order-detail views, which read the orders and write the session's `order_id` entry;
- the view that adds an item to the current order;
- the middleware that resolves the session's `order_id` entry into `request.order`.

The database is replaced by an in-memory `Database.Store`. It is a class whose fields are sequences of tables, orders, order items and menu items, plus the next free primary key for items. The session is an `Http.Session` object holding a string-to-integer map. A request is an `Http.Request` holding its session and its `order` attribute. That attribute is `Unset`, `Set(None)` or `Set(Some(order))`, so "set to `None`" and "never set" are kept apart. Prices are whole numbers of cents, because the source stores them as decimals with two fraction digits.

Files, one module each: `wrappers.dfy` (Option, Outcome, Result, Attr), `text.dfy` (ASCII lower-casing, integer and price rendering), `validators.dfy`, `models.dfy`, `forms.dfy`, `database.dfy`, `http.dfy`, `views.dfy`, `middleware.dfy`.

The model follows the code as written:

- The bill counts only delivered items.
- The bill uses the menu item's current price, not a price captured when the item was ordered.
- Adding an item does not check whether the order is finished.
- The middleware leaves `request.order` unset when the session holds no truthy `order_id`.

## Model

| member | source | states |
|---|---|---|
| Validators.SplitExt | src/shop/validators.py:6 | `os.path.splitext` (POSIX) splits the name into root and extension, and the two parts concatenate back to the name |
| Validators.RFind | src/shop/validators.py:6 | the `rfind` inside `splitext`: -1 or an index holding the character, with no occurrence after it |
| Validators.HasNonDot | src/shop/validators.py:6 | the leading-dot scan inside `splitext`: true iff some character in the range is not a dot |
| Validators.ExtensionAtSplits | src/shop/validators.py:6 | when a dot is followed by no dot or slash and has a non-dot character before it in the final component, splitext splits exactly at that dot |
| Validators.SplitExtIsExtensionAt | src/shop/validators.py:6 | conversely, a non-empty extension always starts at such a dot, so the two lemmas characterise splitext completely |
| Validators.StemAndSuffix | src/shop/validators.py:6 | a stem ending in an ordinary character, followed by one dotted suffix, splits into exactly that stem and suffix |
| Validators.ValidateFileExtension | src/shop/validators.py:4-9 | a rejection always carries the message "Unsupported file extension." |
| Validators.ExtensionAccepted | src/shop/validators.py:6-9 | the extension check passes iff the name has an extension whose lower-cased text is `.jpg`, `.jpeg` or `.png` (both directions) |
| Validators.SuffixDecides | src/shop/validators.py:6-9 | for a stem-plus-suffix name, the verdict is decided by the lower-cased suffix alone |
| Validators.CaseInsensitive | src/shop/validators.py:8 | two names that are equal after lower-casing get the same verdict |
| Validators.UpperCaseAccepted | src/shop/validators.py:8 | `photo.JPG` is accepted |
| Validators.MixedCaseAccepted | src/shop/validators.py:8 | `photo.Png` is accepted |
| Validators.InnerDotIgnored | src/shop/validators.py:6-8 | `x.tar.png` is accepted, because only the part after the last dot counts |
| Validators.LastDotDecides | src/shop/validators.py:6-8 | `x.png.exe` is rejected |
| Validators.NoDotRejected | src/shop/validators.py:6-9 | a name without any dot has an empty extension and is rejected |
| Validators.HiddenNameRejected | src/shop/validators.py:6-9 | a final component that is one leading dot with no other dot, such as `.png` or `dir/.png`, is rejected |
| Validators.ValidateFileSize | src/shop/validators.py:12-16 | passes iff the size is at most 2 MiB; a rejection carries the 2MB message |
| Validators.SizeBoundary | src/shop/validators.py:15 | exactly 2097152 bytes is accepted and 2097153 bytes is rejected |
| Text.Lower | src/shop/validators.py:8 | `str.lower` keeps the length and lower-cases character by character |
| Text.LowerSuffix | src/shop/validators.py:8 | lower-casing commutes with taking a suffix |
| Models.UnitChoicesWellFormed | src/shop/models.py:4-16 | there are six unit choices with distinct stored values, and the default `draft` is one of them |
| Models.Defaults | src/shop/models.py:16-64 | new records start with unit `draft`, an active menu item, a free table, an unfinished and unpaid order, and an undelivered item |
| Models.ProductStr | src/shop/models.py:21-22 | `str(Product)` is the name, the size and the stored unit text, separated by single spaces (definition, no contract) |
| Models.MenuItemStr | src/shop/models.py:37-38 | `str(MenuItem)` is the product's name, size and unit, then `str(price)`, separated by single spaces (definition, no contract) |
| Models.TableStr | src/shop/models.py:45-46 | `str(Table)` is the table's name (definition, no contract) |
| Models.OrderItemStr | src/shop/models.py:56-57 | `str(OrderItem)` is the product name, `x` and `str(quantity)` (definition, no contract) |
| Models.OrderStr | src/shop/models.py:70-71 | `str(Order)` is the table's name, `- order:` and `str(id)` (definition, no contract) |
| Models.MenuItemStrExtendsProductStr | src/shop/models.py:21-38 | `str(MenuItem)` is `str(Product)` followed by a space and `str(price)` |
| Text.PriceToString | src/shop/models.py:38 | `str` of a two-place decimal ends in a point and two digits, and starts with `-` exactly when the price is negative |
| Text.PriceToStringRoundTrip | src/shop/models.py:38 | the whole part and the two fraction digits read back as the price in cents |
| Text.NatToString | src/shop/models.py:57 | `str` of a natural number is a non-empty string of digits |
| Text.NatToStringRoundTrip | src/shop/models.py:57 | the digits written by `str` read back as the number |
| Text.NatToStringNoLeadingZero | src/shop/models.py:57 | the digits start with `0` only for zero |
| Text.IntToString | src/shop/models.py:56-57 | `str(i)` starts with `-` exactly when `i` is negative, and reads back as `i` |
| Models.OrderItemStrShowsQuantity | src/shop/models.py:56-57 | `str(OrderItem)` is the product name, then `x`, then text that reads back as the quantity, sign included |
| Models.OrderStrShowsId | src/shop/models.py:70-71 | `str(Order)` is the table name, then `- order:`, then text that reads back as the order's id, sign included |
| Models.FindOrder | src/shop/views.py:36 | `Order.objects.get(id=...)` returns an order of the store with that id, or none when no order has it |
| Models.FindMenuItem | src/shop/views.py:86 | `MenuItem.objects.get(id=...)` returns a stored menu item with that id, or none when no menu item has it |
| Models.ItemsOf | src/shop/views.py:37 | `order.orderitem_set.all()` holds exactly the store's items that belong to the order |
| Models.Delivered | src/shop/models.py:68 | the `if item.is_delivered` filter keeps exactly the delivered items |
| Models.LineTotals | src/shop/models.py:68 | one line total per item, in order: entry `i` is the live menu price of item `i` times its quantity, and the length is preserved |
| Models.FilteredSumIsContributions | src/shop/models.py:68 | summing the line totals of the order's delivered items equals the item-by-item sum over the whole store, in which each item adds its live price times its quantity if it is a delivered item of the order, and 0 otherwise |
| Models.TotalBill | src/shop/models.py:66-68 | `total_bill`, written as the source's filter, map and sum, equals that item-by-item sum over the store |
| Models.ContributionsAppend | src/shop/models.py:68 | that sum splits over a concatenation of item sequences |
| Models.ContributionsRemove | src/shop/models.py:68 | removing one item from the sequence removes exactly its contribution |
| Models.ContributionsPermutation | src/shop/models.py:68 | the item-by-item sum is the same for any two sequences with the same multiset of items |
| Models.TotalBillPermutation | src/shop/models.py:68 | `total_bill` is invariant under any permutation of the stored items |
| Models.TotalBillDeliverOne | src/shop/models.py:68 | marking one undelivered item of the order delivered raises the bill by exactly its price times quantity; marking an item of another order delivered leaves the bill unchanged |
| Models.NoneDelivered | src/shop/models.py:68 | the delivered filter of a sequence with no delivered item is empty |
| Models.TotalBillNothingDelivered | src/shop/models.py:68 | an order with no items, or with no delivered items, has a bill of 0 |
| Models.ContributionsNonNegative | src/shop/models.py:68 | with non-negative prices and quantities, every partial sum is non-negative |
| Models.TotalBillNonNegative | src/shop/models.py:34-68 | with non-negative prices and quantities, `total_bill >= 0` |
| Forms.TableChoices | src/shop/forms.py:10 | the choices are exactly the `(id, name)` pairs of tables that are not in use |
| Forms.TableChoicesAppend | src/shop/forms.py:10 | the choices keep store order: the choices of `a + b` are those of `a` followed by those of `b` |
| Forms.OrdersOfTable | src/shop/forms.py:15 | `Order.objects.filter(table__id=...)` holds exactly the orders of that table |
| Forms.FinishedFlags | src/shop/forms.py:15 | the comprehension lists each selected order's `is_finished`, position by position |
| Forms.Message | src/shop/forms.py:16 | the text shown for each form error; for a table in use it is "Table is already in use" (definition, no contract) |
| Forms.CleanTable | src/shop/forms.py:13-17 | rejects iff some order of that table is unfinished, with the error whose message is "Table is already in use"; otherwise returns the given table id unchanged |
| Forms.OnlyFinishedOrdersFree | src/shop/forms.py:15-17 | a table with no orders, or with only finished orders, is accepted and returned unchanged |
| Forms.CleanTableField | src/shop/forms.py:6-17 | the whole table field accepts iff the id is that of a free table and no unfinished order refers to it, and then yields that id |
| Forms.NewOrderOccupiesTable | src/shop/forms.py:15 | appending a freshly created order, which defaults to unfinished, makes its table fail `clean_table` |
| Forms.CleanQuantity | src/shop/forms.py:38 | the quantity is accepted iff it is a whole number of at least 1, and is then returned unchanged; a missing value is "required"; a value below 1 gets the "greater than or equal to 1" message |
| Views.ActiveOrders | src/shop/views.py:18 | the active orders are exactly the orders with `is_finished == False` |
| Views.HasOpenOrder | src/shop/views.py:19-20 | the `order__is_finished=False` join holds iff some unfinished order has the item's order key |
| Views.UndeliveredItems | src/shop/views.py:19-20 | the listed items are exactly the undelivered items whose order is unfinished |
| Views.FinishedOrdersLeaveDashboard | src/shop/views.py:19-20 | an item of a finished order is never listed as undelivered |
| Views.ActiveDashboardGet | src/shop/views.py:17-29 | returns the two filtered lists; afterwards the session lacks `order_id` and keeps every other key, whether or not `order_id` was present |
| Http.WithoutOrderId | src/shop/views.py:25-28 | removing the entry drops `order_id` and keeps every other key and value |
| Http.WithoutOrderIdIdempotent | src/shop/views.py:25-28 | clearing the entry twice is the same as clearing it once; clearing an absent entry changes nothing |
| Http.WithOrderId | src/shop/views.py:42 | setting the entry stores the order id under `order_id` and keeps every other key and value |
| Views.OrderDetailGet | src/shop/views.py:35-43 | an unknown id raises `DoesNotExist` and leaves the session untouched; a known id returns that order with exactly its items, and then the session's `order_id` is that id |
| Views.OrderItemCreateGet | src/shop/views.py:72-82 | raises without `request.order`, raises for an unknown menu item, and otherwise returns the current order (possibly `None`) with the chosen menu item |
| Database.Store.Valid | src/shop/models.py:48-50 | the store's invariant: every item's menu-item key exists, and item keys are distinct and below the next key the database hands out (definition, no contract) |
| Database.Store.CreateOrderItem | src/shop/views.py:90-92 | inserting appends one undelivered item under a fresh key and keeps the store's key and reference invariant |
| Views.OrderItemCreatePost | src/shop/views.py:84-93 | an item is created iff `request.order` is set to an order, the menu item exists and the quantity is valid, and `is_finished` plays no part in that; the new item is appended with that order, that menu item, that quantity and `is_delivered = False`, and existing items are unchanged; every other case raises or returns nothing and leaves the store as it was |
| Http.Request.constructor | src/shop/middleware.py:10 | a new request has no `order` attribute |
| Middleware.Truthy | src/shop/middleware.py:10 | `if order_id:` on an integer holds exactly when it is not 0 (definition, no contract) |
| Middleware.ResolveOrder | src/shop/middleware.py:8-16 | with a truthy `order_id`, `request.order` becomes the order with that id, or `None` exactly when no order has it; with an absent or zero `order_id`, it stays as it was |
| Middleware.OrderMiddlewareCall | src/shop/middleware.py:8-17 | sets `request.order` as `ResolveOrder` says, and leaves the session and the store unchanged |
| Middleware.DetailThenResolve | src/shop/middleware.py:9-16 | after the detail view has stored a non-zero id of an existing order, the next request resolves to an order with that id; when stored order ids are distinct, as the primary key makes them, it is exactly that order |
| Middleware.DashboardThenResolve | src/shop/middleware.py:9-10 | after the dashboard has cleared the entry, the next request's `order` is left untouched |
| Middleware.DanglingResolvesToNone | src/shop/middleware.py:14-16 | a truthy id that matches no order resolves to `None`, not to an error |

## Left out

- Table lifecycle: activating a table, finalizing or finishing all orders, switching tables, marking an order paid, delivering or deleting an item, and the charts. `src/shop/urls.py` routes to these views, but the shown `src/shop/views.py` does not define them, so there is no code to model.
- `home`, `MenuCategoryListView` and `MenuItemListView` only render templates. The last one looks categories up by a `handle` field, which the shown `src/shop/models.py` does not have.
- `OrderPaidFinishedForm`, `ProductForm`, `MenuCategoryForm` and `MenuItemForm` are framework model forms with no logic of their own.
- `OrderMiddleware.__init__` and the call to `get_response` hand the request on to the framework, so they are not modelled.
- The `print(item)` in `OrderItemCreateView.get`, template rendering, redirects and timestamps are not modelled.
- Image fields, upload paths and the blob store are not modelled. Neither are the slugs and sections that migration 0015 refers to.
- Views.OrderItemCreatePost: views.py:91 passes `menu_item=`, but the shown models.py names that foreign key `product` (models.py:50). With these two files as shown, the call would raise a `TypeError`. The model stores the chosen menu item in `product`, as the view intends, and does not model that error.
- Views.OrderItemCreatePost: the database's foreign-key check on the order at insert time is not modelled. An order deleted after the middleware ran is still used for the new item.
- Views.OrderItemCreatePost: when the form is invalid the view returns `None`. The model reports this as `NoResponse` and does not model the framework's later error.
- Forms.CleanQuantity: Django's parsing of the posted text into an integer is abstracted as `Missing`, `Malformed` or `Whole(n)`.
- Forms.CleanTableField: `ChoiceField` yields a string, which the query coerces to a key. The model takes the submitted key as an integer.
- Text.Lower: lower-cases ASCII only. No other Unicode character lower-cases to a letter of `jpg`, `jpeg` or `png`, so the whitelist verdict is the same.
- Validators.SplitExt: follows the POSIX `splitext`. The Windows variant, with `\` and drive letters, is not modelled.
- Models.TotalBillNonNegative: uses exact integer arithmetic on cents. The 28-digit precision of Python's `Decimal` context is not modelled, and it only matters for sums far beyond these field sizes.
- Text.PriceToString: renders exactly two fraction digits, which is how a price read back from the database prints. A `MenuItem` whose price was just assigned in Python, such as `Decimal('9.5')` or `9`, prints as `9.5` or `9` until it is reloaded; this is not modelled.
- Product `unit` is kept as free text, as the column stores it. Only form validation checks it against the six choices, and `Models.IsUnitChoice` states that check; no operation here enforces it.
- The 10-digit bound of the price field and the range of the quantity column are database checks and are not modelled.
- Query results come back in store order. The database gives no order for these queries, since the models declare none.
- Within the database, only item keys are kept distinct and fresh. Keys of orders, tables and menu items come from the database. Lookups take the first match.
- Session values other than integers are not modelled.
- Concurrency between staff requests is not modelled.
