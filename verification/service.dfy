/** The order service (service/order_service.go): validation of a request-side
    order, whose identifiers are still text, and its conversion to the storage-side
    order. The service's AddOrder parses the identifier the client sent (it does not
    mint one) and does not call the repository. */
module Service {
  import opened Wrappers
  import opened Strconv
  import UuidCodec
  import Strings
  import Model

  datatype MenuItem = MenuItem(id: string, quantity: Int)

  datatype Order = Order(id: string, menuItems: seq<MenuItem>, time: Model.Time, cost: Int)

  datatype ServiceError =
    | ZeroQuantity     // "Order has item with zero quantity"
    | DuplicatedItems  // "Order has duplicated items"
    | InvalidId(cause: UuidCodec.UuidError)

  predicate HasZeroQuantity(items: seq<MenuItem>)
  {
    exists i :: 0 <= i < |items| && items[i].quantity == 0
  }

  /** Two items with the same identifier TEXT (not the same parsed identifier). */
  predicate HasDuplicateIds(items: seq<MenuItem>)
  {
    exists i, j :: 0 <= i < j < |items| && items[i].id == items[j].id
  }

  /** Fails exactly when some quantity is zero; negative quantities pass. */
  method IsValidItemsQuantity(orderData: Order) returns (err: Option<ServiceError>)
    ensures err == None <==> !HasZeroQuantity(orderData.menuItems)
    ensures err != None ==> err == Some(ZeroQuantity)
  {
    for i := 0 to |orderData.menuItems|
      invariant forall k :: 0 <= k < i ==> orderData.menuItems[k].quantity != 0
    {
      if orderData.menuItems[i].quantity == 0 {
        return Some(ZeroQuantity);
      }
    }
    return None;
  }

  /** Fails exactly when two items carry the same identifier text, remembering the
      identifiers seen so far in a map. */
  method IsOrderHasNotDuplicatedItems(orderData: Order) returns (err: Option<ServiceError>)
    ensures err == None <==> !HasDuplicateIds(orderData.menuItems)
    ensures err != None ==> err == Some(DuplicatedItems)
  {
    var items: map<string, bool> := map[];
    for i := 0 to |orderData.menuItems|
      invariant items.Keys == set k | 0 <= k < i :: orderData.menuItems[k].id
      invariant forall a, b :: 0 <= a < b < i ==> orderData.menuItems[a].id != orderData.menuItems[b].id
    {
      var entry := orderData.menuItems[i];
      if entry.id !in items {
        items := items[entry.id := true];
      } else {
        return Some(DuplicatedItems);
      }
    }
    return None;
  }

  /** The quantity check runs first and its failure is returned as is; the
      duplicate check decides only orders without a zero quantity. */
  method ValidateOrder(orderData: Order) returns (err: Option<ServiceError>)
    ensures HasZeroQuantity(orderData.menuItems) ==> err == Some(ZeroQuantity)
    ensures !HasZeroQuantity(orderData.menuItems) && HasDuplicateIds(orderData.menuItems) ==>
              err == Some(DuplicatedItems)
    ensures err == None <==> !HasZeroQuantity(orderData.menuItems) && !HasDuplicateIds(orderData.menuItems)
    ensures orderData.menuItems == [] ==> err == None
  {
    err := IsValidItemsQuantity(orderData);
    if err != None {
      return;
    }
    err := IsOrderHasNotDuplicatedItems(orderData);
  }

  function ParseMenuItem(item: MenuItem): Result<Model.MenuItem, ServiceError>
  {
    match UuidCodec.Parse(item.id)
    case Err(e) => Err(InvalidId(e))
    case Ok(id) => Ok(Model.MenuItem(id, item.quantity))
  }

  /** What createOrderModel computes: every item identifier parsed, in order, then
      the order identifier; quantities copied; time and cost left at Go's zero values.
      The first identifier that does not parse decides the error, item identifiers
      being tried before the order's. */
  function OrderModel(orderData: Order): (r: Result<Model.Order, ServiceError>)
    ensures r.Ok? <==>
      && (forall i :: 0 <= i < |orderData.menuItems| ==> UuidCodec.Parse(orderData.menuItems[i].id).Ok?)
      && UuidCodec.Parse(orderData.id).Ok?
    ensures r.Ok? ==>
      && r.value.id == UuidCodec.Parse(orderData.id).value
      && |r.value.menuItems| == |orderData.menuItems|
      && (forall i :: 0 <= i < |orderData.menuItems| ==>
            r.value.menuItems[i] ==
            Model.MenuItem(UuidCodec.Parse(orderData.menuItems[i].id).value, orderData.menuItems[i].quantity))
      && r.value.time == Model.ZeroTime && r.value.cost == 0
    ensures r.Err? && (exists i :: 0 <= i < |orderData.menuItems| && UuidCodec.Parse(orderData.menuItems[i].id).Err?) ==>
      exists k :: 0 <= k < |orderData.menuItems|
        && (forall j :: 0 <= j < k ==> UuidCodec.Parse(orderData.menuItems[j].id).Ok?)
        && UuidCodec.Parse(orderData.menuItems[k].id).Err?
        && r.error == InvalidId(UuidCodec.Parse(orderData.menuItems[k].id).error)
    ensures r.Err? && (forall i :: 0 <= i < |orderData.menuItems| ==> UuidCodec.Parse(orderData.menuItems[i].id).Ok?) ==>
      r.error == InvalidId(UuidCodec.Parse(orderData.id).error)
  {
    match MapAll(orderData.menuItems, ParseMenuItem)
    case Err(e) => Err(e)
    case Ok(items) =>
      match UuidCodec.Parse(orderData.id)
      case Err(e) => Err(InvalidId(e))
      case Ok(id) => Ok(Model.Order(id, items, Model.ZeroTime, 0))
  }

  /** createOrderModel: the loop that appends parsed items to a slice. */
  method CreateOrderModel(orderData: Order) returns (r: Result<Model.Order, ServiceError>)
    ensures r == OrderModel(orderData)
  {
    var items := orderData.menuItems;
    var menuItems: seq<Model.MenuItem> := [];
    for i := 0 to |items|
      invariant MapAll(items[..i], ParseMenuItem) == Ok(menuItems)
    {
      assert items[..i + 1][..i] == items[..i];
      match UuidCodec.Parse(items[i].id)
      case Err(e) =>
        MapAllStopsAt(items, ParseMenuItem, i);
        return Err(InvalidId(e));
      case Ok(itemUuid) =>
        menuItems := menuItems + [Model.MenuItem(itemUuid, items[i].quantity)];
    }
    assert items[..|items|] == items;
    match UuidCodec.Parse(orderData.id)
    case Err(e) =>
      return Err(InvalidId(e));
    case Ok(orderUuid) =>
      return Ok(Model.Order(orderUuid, menuItems, Model.ZeroTime, 0));
  }

  /** AddOrder: a validation failure is returned before any identifier is parsed;
      otherwise the outcome is that of building the model. */
  method AddOrder(orderData: Order) returns (err: Option<ServiceError>)
    ensures HasZeroQuantity(orderData.menuItems) ==> err == Some(ZeroQuantity)
    ensures !HasZeroQuantity(orderData.menuItems) && HasDuplicateIds(orderData.menuItems) ==>
              err == Some(DuplicatedItems)
    ensures !HasZeroQuantity(orderData.menuItems) && !HasDuplicateIds(orderData.menuItems) ==>
              err == (if OrderModel(orderData).Ok? then None else Some(OrderModel(orderData).error))
  {
    err := ValidateOrder(orderData);
    if err != None {
      return;
    }
    var orderModel := CreateOrderModel(orderData);
    if orderModel.Err? {
      return Some(orderModel.error);
    }
    return None;
  }

  /** Two spellings of one identifier, differing only in letter case, are not
      duplicates to the validator, yet the model built from them holds the same
      identifier twice. */
  lemma CaseVariantsPassDuplicateCheck(u: UuidCodec.Uuid)
    requires u[0] >= 0xA0
    ensures
      var lower := UuidCodec.Format(u);
      var upper := Strings.ToUpper(lower);
      var orderData := Order(lower, [MenuItem(lower, 1), MenuItem(upper, 1)], Model.ZeroTime, 0);
      && lower != upper
      && !HasZeroQuantity(orderData.menuItems)
      && !HasDuplicateIds(orderData.menuItems)
      && OrderModel(orderData).Ok?
      && OrderModel(orderData).value.menuItems[0].id == u
      && OrderModel(orderData).value.menuItems[1].id == u
  {
    var lower := UuidCodec.Format(u);
    var upper := Strings.ToUpper(lower);
    UuidCodec.ParseFormat(u);
    UuidCodec.ParseIgnoresCase(lower);
    assert lower[0] == UuidCodec.HexDigit(u[0] / 16);
    assert upper[0] != lower[0];
    var items := [MenuItem(lower, 1), MenuItem(upper, 1)];
    assert !HasDuplicateIds(items) by {
      forall i, j | 0 <= i < j < |items| ensures items[i].id != items[j].id {
        assert i == 0 && j == 1;
      }
    }
  }
}
