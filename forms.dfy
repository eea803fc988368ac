/** The order-side forms: choosing a free table, and the quantity of a new order item. */
module Forms {
  import opened Wrappers
  import opened Models
  import Text

  datatype FormError =
    | Required               // "This field is required."
    | NotAWholeNumber        // "Enter a whole number."
    | BelowMinimum(min: int) // "Ensure this value is greater than or equal to ..."
    | InvalidChoice(value: int)
    | TableInUse

  /** The text a form shows for each error. */
  function Message(e: FormError): string
  {
    match e
    case Required => "This field is required."
    case NotAWholeNumber => "Enter a whole number."
    case BelowMinimum(min) => "Ensure this value is greater than or equal to " + Text.IntToString(min) + "."
    case InvalidChoice(value) =>
      "Select a valid choice. " + Text.IntToString(value) + " is not one of the available choices."
    case TableInUse => "Table is already in use"
  }

  // ---------------------------------------------------------------------------
  // InactiveTableForm

  /** The choices `InactiveTableForm` offers: `(id, name)` of every table not in use, in store order. */
  function TableChoices(tables: seq<Table>): (r: seq<(int, string)>)
    ensures forall c :: c in r <==> exists t :: t in tables && !t.inUse && c == (t.id, t.name)
    ensures |r| <= |tables|
  {
    if tables == [] then []
    else (if !tables[0].inUse then [(tables[0].id, tables[0].name)] else []) + TableChoices(tables[1..])
  }

  /** The choices keep store order: those of a concatenation are the concatenation of the choices. */
  lemma {:induction false} TableChoicesAppend(a: seq<Table>, b: seq<Table>)
    ensures TableChoices(a + b) == TableChoices(a) + TableChoices(b)
    decreases |a|
  {
    if a == [] {
      assert a + b == b;
    } else {
      assert (a + b)[0] == a[0] && (a + b)[1..] == a[1..] + b;
      TableChoicesAppend(a[1..], b);
    }
  }

  /** `Order.objects.filter(table__id=table_id)`. */
  function OrdersOfTable(orders: seq<Order>, tableId: int): (r: seq<Order>)
    ensures forall o :: o in r <==> o in orders && o.table == tableId
  {
    if orders == [] then []
    else (if orders[0].table == tableId then [orders[0]] else []) + OrdersOfTable(orders[1..], tableId)
  }

  /** `[order.is_finished for order in ...]`. */
  function FinishedFlags(orders: seq<Order>): (r: seq<bool>)
    ensures |r| == |orders|
    ensures forall i :: 0 <= i < |orders| ==> r[i] == orders[i].isFinished
  {
    if orders == [] then [] else [orders[0].isFinished] + FinishedFlags(orders[1..])
  }

  /** `clean_table`: a table some unfinished order refers to is rejected; any other is
      returned unchanged. */
  function CleanTable(orders: seq<Order>, tableId: int): (r: Result<int, FormError>)
    ensures r.Err? <==> exists o :: o in orders && o.table == tableId && !o.isFinished
    ensures r.Err? ==> r.error == TableInUse && Message(r.error) == "Table is already in use"
    ensures r.Ok? ==> r.value == tableId
  {
    var mine := OrdersOfTable(orders, tableId);
    var flags := FinishedFlags(mine);
    assert (false in flags) <==> exists o :: o in mine && !o.isFinished by {
      if false in flags {
        var i :| 0 <= i < |flags| && flags[i] == false;
        assert mine[i] in mine;
      }
    }
    if false in flags then Err(TableInUse) else Ok(tableId)
  }

  /** The whole `table` field: the submitted id must be one of the offered choices, and then
      `clean_table` must accept it. */
  function CleanTableField(tables: seq<Table>, orders: seq<Order>, submitted: int): (r: Result<int, FormError>)
    ensures r.Ok? <==> ((exists t :: t in tables && t.id == submitted && !t.inUse)
                        && (forall o :: o in orders && o.table == submitted ==> o.isFinished))
    ensures r.Ok? ==> r.value == submitted
  {
    var choices := TableChoices(tables);
    if exists c :: c in choices && c.0 == submitted then CleanTable(orders, submitted)
    else
      assert forall t :: t in tables && !t.inUse ==> (t.id, t.name) in choices;
      Err(InvalidChoice(submitted))
  }

  /** A newly opened order, which starts unfinished, makes its table fail `clean_table`. */
  lemma NewOrderOccupiesTable(orders: seq<Order>, id: int, tableId: int)
    ensures CleanTable(orders + [Order(id, tableId)], tableId) == Err(TableInUse)
  {
    assert Order(id, tableId) in orders + [Order(id, tableId)];
  }

  /** A table with no orders at all, or with finished orders only, passes `clean_table`. */
  lemma OnlyFinishedOrdersFree(orders: seq<Order>, tableId: int)
    requires forall o :: o in orders && o.table == tableId ==> o.isFinished
    ensures CleanTable(orders, tableId) == Ok(tableId)
  {
  }

  // ---------------------------------------------------------------------------
  // OrderItemForm

  /** What the submitted `quantity` field parsed to. */
  datatype IntegerInput = Missing | Malformed | Whole(value: int)

  const MinQuantity: int := 1

  /** `IntegerField(min_value=1)`: required, a whole number, at least one. */
  function CleanQuantity(q: IntegerInput): (r: Result<int, FormError>)
    ensures r.Ok? <==> q.Whole? && q.value >= 1
    ensures r.Ok? ==> r.value == q.value
    ensures q.Missing? ==> r == Err(Required)
    ensures q.Whole? && q.value < 1 ==> Message(r.error) == "Ensure this value is greater than or equal to 1."
  {
    match q
    case Missing => Err(Required)
    case Malformed => Err(NotAWholeNumber)
    case Whole(v) => if v < MinQuantity then Err(BelowMinimum(MinQuantity)) else Ok(v)
  }
}
