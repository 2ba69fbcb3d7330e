/** The order repository (repository/order.go) over an in-memory image of its two
    tables: `order` (id -> cost, created_at) and `order_item` (rows of order id,
    menu item id, quantity). Engine failures are an input: `faults` names the engine
    calls of one operation that fail. Every write of the as-written operations goes
    straight through the connection pool rather than through the transaction it
    opened, so a statement that succeeded stays in effect when a later one fails. */
module Repository {
  import opened Wrappers
  import opened Strconv
  import opened UuidCodec
  import Strings
  import opened Model

  /** The cost every inserted order row gets. */
  const PlaceholderCost: Int := 77

  /** A row of `order`, keyed by its id in OrderRepository.orders. Its updated_at and
      deleted_at columns are always NULL and are not represented. */
  datatype OrderRow = OrderRow(cost: Int, createdAt: Time)

  /** A row of `order_item`. */
  datatype ItemRow = ItemRow(orderId: Uuid, menuItemId: Uuid, quantity: Int)

  /** An engine call that may fail: beginning the transaction, the `index`-th write
      statement of the operation (counting from 0), committing, or a read query. */
  datatype Step = Begin | Exec(index: nat) | Commit | Query

  datatype RepoError =
    | BeginFailed
    | ExecFailed(index: nat)
    | DuplicateKey                         // the `order` primary key already holds the id
    | CommitFailed
    | QueryFailed
    | NullItemsColumn                      // scanning a NULL item column into a string
    | BadOrderId(orderIdCause: UuidError)
    | BadItemId(itemIdCause: UuidError)
    | MissingQuantity                      // s[1] out of range: a run-time panic in Go
    | BadQuantity(quantityCause: NumError)

  /** One row of the aggregate query: the order id as text, its item rows joined into
      one text column (NULL when the order has none), created_at and cost. */
  datatype Row = Row(id: string, menuItems: Option<string>, time: Time, cost: Int)

  /** The first write statement in [lo, hi) that fails, or `hi` when none does. */
  function FirstFailing(faults: set<Step>, lo: nat, hi: nat): (k: nat)
    requires lo <= hi
    ensures lo <= k <= hi
    ensures forall n :: lo <= n < k ==> Exec(n) !in faults
    ensures k < hi ==> Exec(k) in faults
    decreases hi - lo
  {
    if lo == hi then hi
    else if Exec(lo) in faults then lo
    else FirstFailing(faults, lo + 1, hi)
  }

  /** The rows the item INSERT statements write for `items`, in list order. */
  function ItemRows(orderId: Uuid, items: seq<MenuItem>): seq<ItemRow>
  {
    seq(|items|, i requires 0 <= i < |items| => ItemRow(orderId, items[i].id, items[i].quantity))
  }

  /** The item rows of one order, in table order (`WHERE order_id = ?`). */
  function RowsOf(rows: seq<ItemRow>, orderId: Uuid): seq<ItemRow>
    decreases |rows|
  {
    if rows == [] then []
    else (if rows[0].orderId == orderId then [rows[0]] else []) + RowsOf(rows[1..], orderId)
  }

  /** What `DELETE FROM order_item WHERE order_id = ?` leaves. */
  function RowsNotOf(rows: seq<ItemRow>, orderId: Uuid): seq<ItemRow>
    decreases |rows|
  {
    if rows == [] then []
    else (if rows[0].orderId != orderId then [rows[0]] else []) + RowsNotOf(rows[1..], orderId)
  }

  function MenuItemsOf(rows: seq<ItemRow>): seq<MenuItem>
  {
    seq(|rows|, i requires 0 <= i < |rows| => MenuItem(rows[i].menuItemId, rows[i].quantity))
  }

  lemma {:induction false} RowsOfAppend(a: seq<ItemRow>, b: seq<ItemRow>, orderId: Uuid)
    ensures RowsOf(a + b, orderId) == RowsOf(a, orderId) + RowsOf(b, orderId)
    decreases |a|
  {
    if a != [] {
      assert (a + b)[1..] == a[1..] + b;
      RowsOfAppend(a[1..], b, orderId);
    } else {
      assert a + b == b;
    }
  }

  lemma {:induction false} RowsOfItemRows(orderId: Uuid, items: seq<MenuItem>, other: Uuid)
    ensures RowsOf(ItemRows(orderId, items), other) == if orderId == other then ItemRows(orderId, items) else []
    decreases |items|
  {
    if items != [] {
      assert ItemRows(orderId, items)[1..] == ItemRows(orderId, items[1..]);
      RowsOfItemRows(orderId, items[1..], other);
    }
  }

  lemma {:induction false} RowsOfRowsNotOf(rows: seq<ItemRow>, orderId: Uuid, other: Uuid)
    ensures RowsOf(RowsNotOf(rows, orderId), other) == if orderId == other then [] else RowsOf(rows, other)
    decreases |rows|
  {
    if rows != [] {
      var head := if rows[0].orderId != orderId then [rows[0]] else [];
      RowsOfAppend(head, RowsNotOf(rows[1..], orderId), other);
      RowsOfRowsNotOf(rows[1..], orderId, other);
    }
  }

  /** Appending the rows of an insert loop adds them after the order's existing rows
      (left over from an earlier delete, for instance) and leaves other orders' rows alone. */
  /** An order has no item rows exactly when no row of the table names it. */
  lemma {:induction false} RowsOfEmpty(rows: seq<ItemRow>, orderId: Uuid)
    ensures RowsOf(rows, orderId) == [] <==> forall k :: 0 <= k < |rows| ==> rows[k].orderId != orderId
    decreases |rows|
  {
    if rows != [] {
      RowsOfEmpty(rows[1..], orderId);
      assert forall k :: 1 <= k < |rows| ==> rows[k] == rows[1..][k - 1];
    }
  }

  lemma AppendedRows(rows: seq<ItemRow>, orderId: Uuid, items: seq<MenuItem>, other: Uuid)
    ensures RowsOf(rows + ItemRows(orderId, items), other) ==
            if other == orderId then RowsOf(rows, orderId) + ItemRows(orderId, items) else RowsOf(rows, other)
  {
    RowsOfAppend(rows, ItemRows(orderId, items), other);
    RowsOfItemRows(orderId, items, other);
  }

  /** Delete-then-reinsert is a full replace: the order's rows are exactly the new
      ones, and other orders' rows are as before. */
  lemma ReplacedRows(rows: seq<ItemRow>, orderId: Uuid, items: seq<MenuItem>, other: Uuid)
    ensures RowsOf(RowsNotOf(rows, orderId) + ItemRows(orderId, items), other) ==
            if other == orderId then ItemRows(orderId, items) else RowsOf(rows, other)
  {
    RowsOfAppend(RowsNotOf(rows, orderId), ItemRows(orderId, items), other);
    RowsOfRowsNotOf(rows, orderId, other);
    RowsOfItemRows(orderId, items, other);
  }

  // ---------------------------------------------------------------------------
  // The aggregated item text and its decoder

  /** CONCAT(BIN_TO_UUID(menu_item_id), "=", quantity) for one item. */
  function ItemToken(item: MenuItem): string
  {
    Format(item.id) + "=" + Itoa(item.quantity)
  }

  function Tokens(items: seq<MenuItem>): seq<string>
  {
    seq(|items|, i requires 0 <= i < |items| => ItemToken(items[i]))
  }

  /** GROUP_CONCAT of the tokens, joined with ','. */
  function EncodeItems(items: seq<MenuItem>): string
  {
    Strings.Join(Tokens(items), ',')
  }

  /** The aggregate query's row for the order `orderId`: its item rows in table
      order, NULL when it has none. */
  function AggregateRow(orderId: Uuid, header: OrderRow, rows: seq<ItemRow>): (r: Row)
    ensures Parse(r.id) == Ok(orderId)
    ensures r.time == header.createdAt && r.cost == header.cost
    ensures r.menuItems.None? <==> forall k :: 0 <= k < |rows| ==> rows[k].orderId != orderId
  {
    ParseFormat(orderId);
    RowsOfEmpty(rows, orderId);
    var mine := RowsOf(rows, orderId);
    Row(Format(orderId),
        if mine == [] then None else Some(EncodeItems(MenuItemsOf(mine))),
        header.createdAt, header.cost)
  }

  /** One `id=quantity` token: split on '=', parse the first piece as an identifier,
      then read the second piece as a decimal integer. */
  function DecodeToken(token: string): Result<MenuItem, RepoError>
  {
    var s := Strings.Split(token, '=');
    match Parse(s[0])
    case Err(e) => Err(BadItemId(e))
    case Ok(itemUuid) =>
      if |s| < 2 then Err(MissingQuantity)
      else
        match Atoi(s[1])
        case Err(e) => Err(BadQuantity(e))
        case Ok(quantity) => Ok(MenuItem(itemUuid, quantity))
  }

  /** The item column: split on ',', decode every token, stop at the first bad one. */
  function DecodeItems(text: string): Result<seq<MenuItem>, RepoError>
  {
    MapAll(Strings.Split(text, ','), DecodeToken)
  }

  /** What parseOrder makes of one row: the scan fails on a NULL item column, then the
      order id is parsed, then the items are decoded. */
  function DecodeRow(row: Row): Result<Order, RepoError>
  {
    match row.menuItems
    case None => Err(NullItemsColumn)
    case Some(text) =>
      match Parse(row.id)
      case Err(e) => Err(BadOrderId(e))
      case Ok(orderUuid) =>
        match DecodeItems(text)
        case Err(e) => Err(e)
        case Ok(items) => Ok(Order(orderUuid, items, row.time, row.cost))
  }

  lemma DecodeItemToken(item: MenuItem)
    ensures ',' !in ItemToken(item)
    ensures DecodeToken(ItemToken(item)) == Ok(item)
  {
    var id, q := Format(item.id), Itoa(item.quantity);
    ItoaCharacters(item.quantity);
    assert '=' !in id && ',' !in id;
    assert '=' !in q && ',' !in q;
    assert [id, q][1..] == [q];
    assert ItemToken(item) == Strings.Join([id, q], '=');
    Strings.SplitJoin([id, q], '=');
    ParseFormat(item.id);
    AtoiItoa(item.quantity);
  }

  lemma TokensDecode(items: seq<MenuItem>)
    ensures forall i :: 0 <= i < |items| ==> ',' !in Tokens(items)[i] && DecodeToken(Tokens(items)[i]) == Ok(items[i])
  {
    forall i | 0 <= i < |items|
      ensures ',' !in Tokens(items)[i] && DecodeToken(Tokens(items)[i]) == Ok(items[i])
    {
      DecodeItemToken(items[i]);
    }
  }

  /** Decoding the joined tokens of a non-empty item list gives the list back, in
      token order. */
  lemma DecodeEncodeItems(items: seq<MenuItem>)
    requires items != []
    ensures DecodeItems(EncodeItems(items)) == Ok(items)
  {
    var toks := Tokens(items);
    TokensDecode(items);
    Strings.SplitJoin(toks, ',');
    var r := MapAll(toks, DecodeToken);
    assert r.Ok?;
    assert r.value == items;
  }

  /** Empty text is not an empty list: it splits into one empty token, whose
      identifier has length 0. */
  lemma DecodeEmptyText()
    ensures DecodeItems("") == Err(BadItemId(InvalidLength(0)))
  {
    assert Strings.Split("", ',') == [""];
    assert Strings.Split("", '=') == [""];
  }

  /** An order with at least one item row reads back as its id, its items in table
      order, and its header's time and cost. */
  lemma ReadBack(orderId: Uuid, header: OrderRow, rows: seq<ItemRow>)
    requires RowsOf(rows, orderId) != []
    ensures DecodeRow(AggregateRow(orderId, header, rows)) ==
            Ok(Order(orderId, MenuItemsOf(RowsOf(rows, orderId)), header.createdAt, header.cost))
  {
    ParseFormat(orderId);
    DecodeEncodeItems(MenuItemsOf(RowsOf(rows, orderId)));
  }

  /** An order without item rows cannot be read: its item column is NULL. */
  lemma ItemlessOrderUnreadable(orderId: Uuid, header: OrderRow, rows: seq<ItemRow>)
    requires RowsOf(rows, orderId) == []
    ensures DecodeRow(AggregateRow(orderId, header, rows)) == Err(NullItemsColumn)
  {
  }

  lemma MenuItemsOfItemRows(orderId: Uuid, items: seq<MenuItem>)
    ensures MenuItemsOf(ItemRows(orderId, items)) == items
  {
  }

  /** Add then read: the rows a complete AddOrder writes for a new order with items,
      and no rows left behind under its id, read back as that order with the
      insertion time and the placeholder cost. */
  lemma AddedOrderReadsBack(rows: seq<ItemRow>, order: Order, now: Time)
    requires RowsOf(rows, order.id) == [] && order.menuItems != []
    ensures DecodeRow(AggregateRow(order.id, OrderRow(PlaceholderCost, now), rows + ItemRows(order.id, order.menuItems)))
            == Ok(Order(order.id, order.menuItems, now, PlaceholderCost))
  {
    var after := rows + ItemRows(order.id, order.menuItems);
    AppendedRows(rows, order.id, order.menuItems, order.id);
    assert RowsOf(after, order.id) == ItemRows(order.id, order.menuItems);
    MenuItemsOfItemRows(order.id, order.menuItems);
    ReadBack(order.id, OrderRow(PlaceholderCost, now), after);
  }

  /** Update then read: after a complete UpdateOrder with items, the order reads back
      with exactly the new items; earlier ones are gone. */
  lemma UpdatedOrderReadsBack(rows: seq<ItemRow>, header: OrderRow, order: Order)
    requires order.menuItems != []
    ensures DecodeRow(AggregateRow(order.id, header, RowsNotOf(rows, order.id) + ItemRows(order.id, order.menuItems)))
            == Ok(Order(order.id, order.menuItems, header.createdAt, header.cost))
  {
    var after := RowsNotOf(rows, order.id) + ItemRows(order.id, order.menuItems);
    ReplacedRows(rows, order.id, order.menuItems, order.id);
    MenuItemsOfItemRows(order.id, order.menuItems);
    ReadBack(order.id, header, after);
  }

  /** parseOrder: scan, parse the order id, then the loop over the tokens. */
  method ParseOrder(row: Row) returns (r: Result<Order, RepoError>)
    ensures r == DecodeRow(row)
  {
    if row.menuItems.None? {
      return Err(NullItemsColumn);
    }
    var orderUuid := Parse(row.id);
    if orderUuid.Err? {
      return Err(BadOrderId(orderUuid.error));
    }
    var menuItemsArray := Strings.Split(row.menuItems.value, ',');
    var modelMenuItems: seq<MenuItem> := [];
    for i := 0 to |menuItemsArray|
      invariant MapAll(menuItemsArray[..i], DecodeToken) == Ok(modelMenuItems)
    {
      assert menuItemsArray[..i + 1][..i] == menuItemsArray[..i];
      var s := Strings.Split(menuItemsArray[i], '=');
      var itemUuid := Parse(s[0]);
      if itemUuid.Err? {
        MapAllStopsAt(menuItemsArray, DecodeToken, i);
        return Err(BadItemId(itemUuid.error));
      }
      if |s| < 2 {
        MapAllStopsAt(menuItemsArray, DecodeToken, i);
        return Err(MissingQuantity);
      }
      var quantity := Atoi(s[1]);
      if quantity.Err? {
        MapAllStopsAt(menuItemsArray, DecodeToken, i);
        return Err(BadQuantity(quantity.error));
      }
      modelMenuItems := modelMenuItems + [MenuItem(itemUuid.value, quantity.value)];
    }
    assert menuItemsArray[..|menuItemsArray|] == menuItemsArray;
    return Ok(Order(orderUuid.value, modelMenuItems, row.time, row.cost));
  }

  /** parseOrders: the rows in cursor order, abandoning the whole list at the first
      row that does not decode. */
  method ParseOrders(rows: seq<Row>) returns (r: Result<seq<Order>, RepoError>)
    ensures r == MapAll(rows, DecodeRow)
  {
    var orders: seq<Order> := [];
    for i := 0 to |rows|
      invariant MapAll(rows[..i], DecodeRow) == Ok(orders)
    {
      assert rows[..i + 1][..i] == rows[..i];
      var order := ParseOrder(rows[i]);
      if order.Err? {
        MapAllStopsAt(rows, DecodeRow, i);
        return Err(order.error);
      }
      orders := orders + [order.value];
    }
    assert rows[..|rows|] == rows;
    return Ok(orders);
  }

  /** `ids` lists every key of the order table once: the engine's (unspecified)
      GROUP BY output order. */
  predicate IsEnumeration(ids: seq<Uuid>, keys: set<Uuid>)
  {
    && (forall i, j :: 0 <= i < j < |ids| ==> ids[i] != ids[j])
    && (forall i :: 0 <= i < |ids| ==> ids[i] in keys)
    && (forall k :: k in keys ==> k in ids)
  }

  /** The rows of the listing query, one per order in the engine's order `ids`. */
  function AggregateRows(ids: seq<Uuid>, orders: map<Uuid, OrderRow>, rows: seq<ItemRow>): (r: seq<Row>)
    requires forall i :: 0 <= i < |ids| ==> ids[i] in orders
    ensures |r| == |ids|
    ensures forall i :: 0 <= i < |r| ==>
      && Parse(r[i].id) == Ok(ids[i])
      && r[i].time == orders[ids[i]].createdAt && r[i].cost == orders[ids[i]].cost
      && (r[i].menuItems.None? <==> forall k :: 0 <= k < |rows| ==> rows[k].orderId != ids[i])
  {
    seq(|ids|, i requires 0 <= i < |ids| => AggregateRow(ids[i], orders[ids[i]], rows))
  }

  class OrderRepository {
    var orders: map<Uuid, OrderRow>
    var orderItems: seq<ItemRow>

    constructor ()
      ensures orders == map[] && orderItems == []
    {
      orders := map[];
      orderItems := [];
    }

    /** AddOrder: the order row (cost 77, created now), then one item row per item in
        list order. A failing statement ends the operation with its error but leaves
        the statements before it in effect. */
    method AddOrder(order: Order, now: Time, faults: set<Step>) returns (err: Option<RepoError>)
      modifies this
      ensures Begin in faults ==> err == Some(BeginFailed) && unchanged(this)
      ensures Begin !in faults && Exec(0) in faults ==> err == Some(ExecFailed(0)) && unchanged(this)
      ensures Begin !in faults && Exec(0) !in faults && order.id in old(orders) ==>
                err == Some(DuplicateKey) && unchanged(this)
      ensures Begin !in faults && Exec(0) !in faults && order.id !in old(orders) ==>
                var k := FirstFailing(faults, 1, |order.menuItems| + 1);
                && orders == old(orders)[order.id := OrderRow(PlaceholderCost, now)]
                && orderItems == old(orderItems) + ItemRows(order.id, order.menuItems[..k - 1])
                && err == if k <= |order.menuItems| then Some(ExecFailed(k))
                          else if Commit in faults then Some(CommitFailed)
                          else None
      ensures err == None ==>
                && order.id !in old(orders)
                && orders == old(orders)[order.id := OrderRow(PlaceholderCost, now)]
                && orderItems == old(orderItems) + ItemRows(order.id, order.menuItems)
                && RowsOf(orderItems, order.id) == RowsOf(old(orderItems), order.id) + ItemRows(order.id, order.menuItems)
                && forall other :: other != order.id ==> RowsOf(orderItems, other) == RowsOf(old(orderItems), other)
    {
      if Begin in faults {
        return Some(BeginFailed);
      }
      if Exec(0) in faults {
        return Some(ExecFailed(0));
      }
      if order.id in orders {
        return Some(DuplicateKey);
      }
      orders := orders[order.id := OrderRow(PlaceholderCost, now)];
      for i := 0 to |order.menuItems|
        invariant forall n :: 1 <= n <= i ==> Exec(n) !in faults
        invariant orders == old(orders)[order.id := OrderRow(PlaceholderCost, now)]
        invariant orderItems == old(orderItems) + ItemRows(order.id, order.menuItems[..i])
      {
        if Exec(i + 1) in faults {
          return Some(ExecFailed(i + 1));
        }
        var orderItem := order.menuItems[i];
        assert ItemRows(order.id, order.menuItems[..i + 1]) ==
               ItemRows(order.id, order.menuItems[..i]) + [ItemRow(order.id, orderItem.id, orderItem.quantity)];
        orderItems := orderItems + [ItemRow(order.id, orderItem.id, orderItem.quantity)];
      }
      assert order.menuItems[..|order.menuItems|] == order.menuItems;
      if Commit in faults {
        return Some(CommitFailed);
      }
      forall other | true
        ensures RowsOf(orderItems, other) ==
                if other == order.id then RowsOf(old(orderItems), order.id) + ItemRows(order.id, order.menuItems)
                else RowsOf(old(orderItems), other)
      {
        AppendedRows(old(orderItems), order.id, order.menuItems, other);
      }
      return None;
    }

    /** UpdateOrder: delete all item rows of the order, then insert the new ones.
        The order table is not touched, and the order need not exist. */
    method UpdateOrder(order: Order, faults: set<Step>) returns (err: Option<RepoError>)
      modifies this
      ensures orders == old(orders)
      ensures Begin in faults ==> err == Some(BeginFailed) && unchanged(this)
      ensures Begin !in faults && Exec(0) in faults ==> err == Some(ExecFailed(0)) && unchanged(this)
      ensures Begin !in faults && Exec(0) !in faults ==>
                var k := FirstFailing(faults, 1, |order.menuItems| + 1);
                && orderItems == RowsNotOf(old(orderItems), order.id) + ItemRows(order.id, order.menuItems[..k - 1])
                && err == if k <= |order.menuItems| then Some(ExecFailed(k))
                          else if Commit in faults then Some(CommitFailed)
                          else None
      ensures err == None ==>
                && RowsOf(orderItems, order.id) == ItemRows(order.id, order.menuItems)
                && forall other :: other != order.id ==> RowsOf(orderItems, other) == RowsOf(old(orderItems), other)
    {
      if Begin in faults {
        return Some(BeginFailed);
      }
      if Exec(0) in faults {
        return Some(ExecFailed(0));
      }
      orderItems := RowsNotOf(orderItems, order.id);
      for i := 0 to |order.menuItems|
        invariant forall n :: 1 <= n <= i ==> Exec(n) !in faults
        invariant orders == old(orders)
        invariant orderItems == RowsNotOf(old(orderItems), order.id) + ItemRows(order.id, order.menuItems[..i])
      {
        if Exec(i + 1) in faults {
          return Some(ExecFailed(i + 1));
        }
        var orderItem := order.menuItems[i];
        assert ItemRows(order.id, order.menuItems[..i + 1]) ==
               ItemRows(order.id, order.menuItems[..i]) + [ItemRow(order.id, orderItem.id, orderItem.quantity)];
        orderItems := orderItems + [ItemRow(order.id, orderItem.id, orderItem.quantity)];
      }
      assert order.menuItems[..|order.menuItems|] == order.menuItems;
      if Commit in faults {
        return Some(CommitFailed);
      }
      forall other | true
        ensures RowsOf(orderItems, other) ==
                if other == order.id then ItemRows(order.id, order.menuItems) else RowsOf(old(orderItems), other)
      {
        ReplacedRows(old(orderItems), order.id, order.menuItems, other);
      }
      return None;
    }

    /** DeleteOrder: removes the order row only; its item rows stay behind. Deleting
        an id that has no row succeeds. */
    method DeleteOrder(orderUuid: Uuid, faults: set<Step>) returns (err: Option<RepoError>)
      modifies this
      ensures orderItems == old(orderItems)
      ensures Begin in faults ==> err == Some(BeginFailed) && orders == old(orders)
      ensures Begin !in faults && Exec(0) in faults ==> err == Some(ExecFailed(0)) && orders == old(orders)
      ensures Begin !in faults && Exec(0) !in faults ==>
                && orders == old(orders) - {orderUuid}
                && err == if Commit in faults then Some(CommitFailed) else None
    {
      if Begin in faults {
        return Some(BeginFailed);
      }
      if Exec(0) in faults {
        return Some(ExecFailed(0));
      }
      orders := orders - {orderUuid};
      if Commit in faults {
        return Some(CommitFailed);
      }
      return None;
    }

    /** GetOrder: no order and no error when the id has no row; otherwise the decoded
        aggregate row, which is the stored order when it has item rows and a
        NULL-column error when it has none. */
    method GetOrder(orderUuid: Uuid, faults: set<Step>) returns (r: Result<Option<Order>, RepoError>)
      ensures Query in faults ==> r == Err(QueryFailed)
      ensures Query !in faults && orderUuid !in orders ==> r == Ok(None)
      ensures Query !in faults && orderUuid in orders ==>
                r == match DecodeRow(AggregateRow(orderUuid, orders[orderUuid], orderItems))
                     case Ok(order) => Ok(Some(order))
                     case Err(e) => Err(e)
      ensures Query !in faults && orderUuid in orders && RowsOf(orderItems, orderUuid) != [] ==>
                r == Ok(Some(Order(orderUuid, MenuItemsOf(RowsOf(orderItems, orderUuid)),
                                   orders[orderUuid].createdAt, orders[orderUuid].cost)))
      ensures Query !in faults && orderUuid in orders && RowsOf(orderItems, orderUuid) == [] ==>
                r == Err(NullItemsColumn)
    {
      if Query in faults {
        return Err(QueryFailed);
      }
      if orderUuid !in orders {
        return Ok(None);
      }
      var row := AggregateRow(orderUuid, orders[orderUuid], orderItems);
      if RowsOf(orderItems, orderUuid) != [] {
        ReadBack(orderUuid, orders[orderUuid], orderItems);
      }
      var order := ParseOrder(row);
      if order.Err? {
        return Err(order.error);
      }
      return Ok(Some(order.value));
    }

    /** GetOrders: one aggregate row per order row, in the engine's order `rowOrder`,
        decoded by parseOrders. It fails as a whole as soon as one order has no item
        rows. */
    method GetOrders(rowOrder: seq<Uuid>, faults: set<Step>) returns (r: Result<seq<Order>, RepoError>)
      requires IsEnumeration(rowOrder, orders.Keys)
      ensures Query in faults ==> r == Err(QueryFailed)
      ensures Query !in faults ==> r == MapAll(AggregateRows(rowOrder, orders, orderItems), DecodeRow)
      ensures Query !in faults ==> (r.Ok? <==> forall id :: id in orders ==> RowsOf(orderItems, id) != [])
      ensures r.Ok? ==>
                && |r.value| == |orders|
                && forall i :: 0 <= i < |r.value| ==>
                     r.value[i] == Order(rowOrder[i], MenuItemsOf(RowsOf(orderItems, rowOrder[i])),
                                         orders[rowOrder[i]].createdAt, orders[rowOrder[i]].cost)
    {
      if Query in faults {
        return Err(QueryFailed);
      }
      var rows := AggregateRows(rowOrder, orders, orderItems);
      ListingReadsBack(rowOrder, orders, orderItems);
      assert |rowOrder| == |orders| by {
        assert orders.Keys == set i | 0 <= i < |rowOrder| :: rowOrder[i];
        DistinctCardinality(rowOrder);
      }
      r := ParseOrders(rows);
    }

    /** AddOrder with every write inside the transaction, as its Begin, Rollback and
        Commit calls intend: the order and its items are written together or not at all. */
    method AddOrderAtomic(order: Order, now: Time, faults: set<Step>) returns (err: Option<RepoError>)
      modifies this
      ensures err != None ==> unchanged(this)
      ensures err == None <==>
                && Begin !in faults && Commit !in faults && order.id !in old(orders)
                && forall n :: 0 <= n <= |order.menuItems| ==> Exec(n) !in faults
      ensures err == None ==>
                && orders == old(orders)[order.id := OrderRow(PlaceholderCost, now)]
                && orderItems == old(orderItems) + ItemRows(order.id, order.menuItems)
    {
      if Begin in faults {
        return Some(BeginFailed);
      }
      if Exec(0) in faults {
        return Some(ExecFailed(0));
      }
      if order.id in orders {
        return Some(DuplicateKey);
      }
      var pending := orderItems;
      for i := 0 to |order.menuItems|
        invariant forall n :: 0 <= n <= i ==> Exec(n) !in faults
        invariant pending == orderItems + ItemRows(order.id, order.menuItems[..i])
      {
        if Exec(i + 1) in faults {
          return Some(ExecFailed(i + 1));
        }
        var orderItem := order.menuItems[i];
        assert ItemRows(order.id, order.menuItems[..i + 1]) ==
               ItemRows(order.id, order.menuItems[..i]) + [ItemRow(order.id, orderItem.id, orderItem.quantity)];
        pending := pending + [ItemRow(order.id, orderItem.id, orderItem.quantity)];
      }
      assert order.menuItems[..|order.menuItems|] == order.menuItems;
      if Commit in faults {
        return Some(CommitFailed);
      }
      orders := orders[order.id := OrderRow(PlaceholderCost, now)];
      orderItems := pending;
      return None;
    }

    /** UpdateOrder with every write inside the transaction: the order's item rows
        are replaced completely or not at all. */
    method UpdateOrderAtomic(order: Order, faults: set<Step>) returns (err: Option<RepoError>)
      modifies this
      ensures orders == old(orders)
      ensures err != None ==> orderItems == old(orderItems)
      ensures err == None <==>
                && Begin !in faults && Commit !in faults
                && forall n :: 0 <= n <= |order.menuItems| ==> Exec(n) !in faults
      ensures err == None ==> orderItems == RowsNotOf(old(orderItems), order.id) + ItemRows(order.id, order.menuItems)
    {
      if Begin in faults {
        return Some(BeginFailed);
      }
      if Exec(0) in faults {
        return Some(ExecFailed(0));
      }
      var pending := RowsNotOf(orderItems, order.id);
      for i := 0 to |order.menuItems|
        invariant forall n :: 0 <= n <= i ==> Exec(n) !in faults
        invariant pending == RowsNotOf(orderItems, order.id) + ItemRows(order.id, order.menuItems[..i])
      {
        if Exec(i + 1) in faults {
          return Some(ExecFailed(i + 1));
        }
        var orderItem := order.menuItems[i];
        assert ItemRows(order.id, order.menuItems[..i + 1]) ==
               ItemRows(order.id, order.menuItems[..i]) + [ItemRow(order.id, orderItem.id, orderItem.quantity)];
        pending := pending + [ItemRow(order.id, orderItem.id, orderItem.quantity)];
      }
      assert order.menuItems[..|order.menuItems|] == order.menuItems;
      if Commit in faults {
        return Some(CommitFailed);
      }
      orderItems := pending;
      return None;
    }
  }

  /** Decoding the aggregate rows of the listed orders succeeds exactly when each of
      them has an item row, and then gives every listed order in list order. */
  lemma ListingReadsBack(ids: seq<Uuid>, orders: map<Uuid, OrderRow>, rows: seq<ItemRow>)
    requires forall i :: 0 <= i < |ids| ==> ids[i] in orders
    ensures
      var r := MapAll(AggregateRows(ids, orders, rows), DecodeRow);
      && (r.Ok? <==> forall i :: 0 <= i < |ids| ==> RowsOf(rows, ids[i]) != [])
      && (r.Ok? ==>
            && |r.value| == |ids|
            && forall i :: 0 <= i < |ids| ==>
                 r.value[i] == Order(ids[i], MenuItemsOf(RowsOf(rows, ids[i])), orders[ids[i]].createdAt, orders[ids[i]].cost))
  {
    var aggregated := AggregateRows(ids, orders, rows);
    forall i | 0 <= i < |ids|
      ensures DecodeRow(aggregated[i]).Ok? <==> RowsOf(rows, ids[i]) != []
      ensures RowsOf(rows, ids[i]) != [] ==>
                DecodeRow(aggregated[i]) ==
                Ok(Order(ids[i], MenuItemsOf(RowsOf(rows, ids[i])), orders[ids[i]].createdAt, orders[ids[i]].cost))
    {
      if RowsOf(rows, ids[i]) != [] {
        ReadBack(ids[i], orders[ids[i]], rows);
      }
    }
  }

  /** A sequence without repetitions has as many elements as its set of elements. */
  lemma {:induction false} DistinctCardinality(ids: seq<Uuid>)
    requires forall i, j :: 0 <= i < j < |ids| ==> ids[i] != ids[j]
    ensures |set i | 0 <= i < |ids| :: ids[i]| == |ids|
    decreases |ids|
  {
    if ids != [] {
      var tail := ids[1..];
      DistinctCardinality(tail);
      var s := set i | 0 <= i < |ids| :: ids[i];
      var t := set i | 0 <= i < |tail| :: tail[i];
      assert s == {ids[0]} + t;
      assert ids[0] !in t;
    }
  }

  // ---------------------------------------------------------------------------
  // Client scenarios, and the corrected reading of an order without items

  /** The second item insert (the third write statement) of AddOrder fails: the
      error is returned, yet the order row and the first item row stay written. */
  method PartialAddLeavesRows(orderId: Uuid, first: Uuid, second: Uuid, now: Time)
    returns (err: Option<RepoError>, orders: map<Uuid, OrderRow>, itemRows: seq<ItemRow>)
    ensures err == Some(ExecFailed(2))
    ensures orders == map[orderId := OrderRow(PlaceholderCost, now)]
    ensures itemRows == [ItemRow(orderId, first, 1)]
  {
    var repo := new OrderRepository();
    err := repo.AddOrder(Order(orderId, [MenuItem(first, 1), MenuItem(second, 2)], ZeroTime, 0), now, {Exec(2)});
    orders, itemRows := repo.orders, repo.orderItems;
  }

  /** UpdateOrder of a stored order whose new item insert fails: the old item rows
      are already deleted, so the order is left with none and can no longer be read. */
  method PartialUpdateLosesItems(orderId: Uuid, previous: Uuid, replacement: Uuid, now: Time)
    returns (err: Option<RepoError>, read: Result<Option<Order>, RepoError>)
    ensures err == Some(ExecFailed(1))
    ensures read == Err(NullItemsColumn)
  {
    var repo := new OrderRepository();
    var added := repo.AddOrder(Order(orderId, [MenuItem(previous, 1)], ZeroTime, 0), now, {});
    err := repo.UpdateOrder(Order(orderId, [MenuItem(replacement, 2)], ZeroTime, 0), {Exec(1)});
    read := repo.GetOrder(orderId, {});
  }

  /** The same failure under AddOrderAtomic leaves both tables empty. */
  method AtomicAddLeavesNothing(orderId: Uuid, first: Uuid, second: Uuid, now: Time)
    returns (err: Option<RepoError>, orders: map<Uuid, OrderRow>, itemRows: seq<ItemRow>)
    ensures err.Some?
    ensures orders == map[] && itemRows == []
  {
    var repo := new OrderRepository();
    err := repo.AddOrderAtomic(Order(orderId, [MenuItem(first, 1), MenuItem(second, 2)], ZeroTime, 0), now, {Exec(2)});
    orders, itemRows := repo.orders, repo.orderItems;
  }

  /** An order stored without items (which the service's validation lets through)
      is written successfully but cannot be read back. */
  method ItemlessOrderScenario(orderId: Uuid, now: Time)
    returns (added: Option<RepoError>, read: Result<Option<Order>, RepoError>)
    ensures added == None
    ensures read == Err(NullItemsColumn)
  {
    var repo := new OrderRepository();
    added := repo.AddOrder(Order(orderId, [], ZeroTime, 0), now, {});
    read := repo.GetOrder(orderId, {});
  }

  /** parseOrder reading a NULL item column as an empty item list. */
  function DecodeRowNullable(row: Row): Result<Order, RepoError>
  {
    match Parse(row.id)
    case Err(e) => Err(BadOrderId(e))
    case Ok(orderUuid) =>
      match row.menuItems
      case None => Ok(Order(orderUuid, [], row.time, row.cost))
      case Some(text) =>
        match DecodeItems(text)
        case Err(e) => Err(e)
        case Ok(items) => Ok(Order(orderUuid, items, row.time, row.cost))
  }

  /** With NULL read as "no items", every stored order reads back, with or without items. */
  lemma ReadBackNullable(orderId: Uuid, header: OrderRow, rows: seq<ItemRow>)
    ensures DecodeRowNullable(AggregateRow(orderId, header, rows)) ==
            Ok(Order(orderId, MenuItemsOf(RowsOf(rows, orderId)), header.createdAt, header.cost))
  {
    ParseFormat(orderId);
    if RowsOf(rows, orderId) != [] {
      DecodeEncodeItems(MenuItemsOf(RowsOf(rows, orderId)));
    } else {
      assert MenuItemsOf(RowsOf(rows, orderId)) == [];
    }
  }
}
