/**
 * The Order service handlers: placing an order (validation against the
 * Restaurant service, then a two-step persist), reading, re-statusing and
 * deleting an order.
 */
module OrderService {
  import opened Wrappers
  import opened Http
  import opened Models
  import opened Schemas
  import opened Store
  import opened OrderValidation
  import RestaurantService

  const OrderNotFound := Failure(NotFound, "Order not found")

  /** An ordered line as shown to the client: name, quantity and price. */
  function OutItem(item: OrderItem): OrderItemOutSchema {
    OrderItemOutSchema(item.menuItemName, item.quantity, item.price)
  }

  function OutItems(items: seq<OrderItem>): (r: seq<OrderItemOutSchema>)
    ensures |r| == |items| && forall i :: 0 <= i < |items| ==> r[i] == OutItem(items[i])
  {
    seq(|items|, i requires 0 <= i < |items| => OutItem(items[i]))
  }

  /** The row written for `item`: stamped with order `oid`, then given row id `id`. */
  function Stamp(item: OrderItem, oid: int, id: int): OrderItem {
    item.(orderId := Some(oid)).(id := Some(id))
  }

  /** The rows written for `items`: order `oid` and consecutive ids from `firstId`. */
  function Stamped(items: seq<OrderItem>, oid: int, firstId: int): (r: seq<OrderItem>)
    ensures |r| == |items|
    ensures forall i :: 0 <= i < |items| ==> r[i] == Stamp(items[i], oid, firstId + i)
  {
    seq(|items|, i requires 0 <= i < |items| => Stamp(items[i], oid, firstId + i))
  }

  /** Stamping one more line of the request extends the stamped prefix by that line. */
  lemma StampedPrefixExtends(items: seq<OrderItem>, i: int, oid: int, base: int)
    requires 0 <= i < |items|
    ensures Stamped(items[..i + 1], oid, base) == Stamped(items[..i], oid, base) + [Stamp(items[i], oid, base + i)]
  {
  }

  /** Stamping ids never changes what the client is shown. */
  lemma OutItemsStamped(items: seq<OrderItem>, oid: int, firstId: int)
    ensures OutItems(Stamped(items, oid, firstId)) == OutItems(items)
  {
  }

  /** GET /orders/{id}: the order with its items, validated against OrderOutSchema. */
  function GetOrderById(db: Database, id: int): (r: Result<OrderOutSchema, Failure>)
    reads db
    requires db.Valid()
    ensures id !in db.orders ==> r == Err(OrderNotFound)
    ensures r.Err? ==> r.error == if id in db.orders then Unhandled else OrderNotFound
    ensures r.Ok? ==> ValidOrderOut(r.value)
    ensures id in db.orders ==>
      (r.Ok? <==> ValidOrderOut(OrderOutSchema(Some(id), db.orders[id].customerName, db.orders[id].customerPhone,
                                               db.orders[id].deliveryAddress, OutItems(db.ItemsOf(id)), db.orders[id].status)))
    ensures r.Ok? ==>
      && id in db.orders
      && r.value == OrderOutSchema(Some(id), db.orders[id].customerName, db.orders[id].customerPhone,
                                   db.orders[id].deliveryAddress, OutItems(db.ItemsOf(id)), db.orders[id].status)
    ensures (id in db.orders && ValidOrder(db.orders[id]) &&
             forall i :: 0 <= i < |db.ItemsOf(id)| ==> ValidOrderItem(db.ItemsOf(id)[i]))
      ==> r.Ok?
  {
    if id !in db.orders then Err(OrderNotFound)
    else
      var o := db.orders[id];
      BuildOrderOut(o.id, o.customerName, o.customerPhone, o.deliveryAddress, OutItems(db.ItemsOf(id)), Some(o.status))
  }

  /** The order header built from a request; the status takes its default. */
  function NewOrder(req: OrderInSchema): (o: Order)
    ensures o.id.None? && o.status == Pending && o.restaurantId == Some(req.restaurantId)
    ensures o.customerName == req.customerName && o.customerPhone == req.customerPhone
    ensures o.deliveryAddress == req.deliveryAddress
    ensures ValidOrderIn(req) ==> ValidOrder(o)
  {
    Order(
      customerName := req.customerName,
      customerPhone := req.customerPhone,
      deliveryAddress := req.deliveryAddress,
      restaurantId := Some(req.restaurantId))
  }

  /** The response as the handler builds it: `status` is not passed. */
  function CreateResponseAsWritten(order: Order, items: seq<OrderItem>): Result<OrderOutSchema, Failure> {
    BuildOrderOut(None, order.customerName, order.customerPhone, order.deliveryAddress, OutItems(items), None)
  }

  /** The as-written response raises for every order, after the order is stored. */
  lemma CreateResponseAsWrittenFails(order: Order, items: seq<OrderItem>)
    ensures CreateResponseAsWritten(order, items) == Err(Unhandled)
  {
  }

  /** The response with the stored order's status passed. */
  function CreateResponse(order: Order, items: seq<OrderItem>): Result<OrderOutSchema, Failure> {
    BuildOrderOut(None, order.customerName, order.customerPhone, order.deliveryAddress, OutItems(items), Some(order.status))
  }

  /** For a valid order and valid items the corrected response is built, with the order's status and the snapshots. */
  lemma CreateResponseSucceeds(order: Order, items: seq<OrderItem>)
    requires ValidOrder(order) && forall i :: 0 <= i < |items| ==> ValidOrderItem(items[i])
    ensures CreateResponse(order, items).Ok?
    ensures CreateResponse(order, items).value.status == order.status
    ensures CreateResponse(order, items).value.items == OutItems(items)
  {
  }

  /** The response built before the order had an id equals the stored order's response, but for the id. */
  lemma ResponseRoundTrip(order: Order, id: int, items: seq<OrderItemOutSchema>)
    requires BuildOrderOut(None, order.customerName, order.customerPhone, order.deliveryAddress, items, Some(order.status)).Ok?
    ensures var created := BuildOrderOut(None, order.customerName, order.customerPhone, order.deliveryAddress, items, Some(order.status));
      BuildOrderOut(Some(id), order.customerName, order.customerPhone, order.deliveryAddress, items, Some(order.status))
        == Ok(created.value.(id := Some(id)))
  {
  }

  /** The second commit: each item is stamped with the new order's id and added. */
  method AddOrderItems(db: Database, oid: int, items: seq<OrderItem>)
    requires db.Valid() && oid in db.orders && db.ItemsOf(oid) == []
    modifies db`orderItems, db`nextOrderItemId
    ensures db.Valid()
    ensures db.nextOrderItemId == old(db.nextOrderItemId) + |items|
    ensures db.ItemsOf(oid) == Stamped(items, oid, old(db.nextOrderItemId))
    ensures forall k :: k in old(db.orderItems) ==> k in db.orderItems && db.orderItems[k] == old(db.orderItems)[k]
    ensures forall k :: k in db.orderItems ==> k in old(db.orderItems) || old(db.nextOrderItemId) <= k < db.nextOrderItemId
  {
    ghost var initial, base := db.orderItems, db.nextOrderItemId;
    var i := 0;
    while i < |items|
      invariant 0 <= i <= |items|
      invariant db.Valid()
      invariant db.nextOrderItemId == base + i
      invariant db.ItemsOf(oid) == Stamped(items[..i], oid, base)
      invariant forall k :: k in initial ==> k in db.orderItems && db.orderItems[k] == initial[k]
      invariant forall k :: k in db.orderItems ==> k in initial || base <= k < db.nextOrderItemId
    {
      var item := items[i].(orderId := Some(oid));
      var id := db.InsertOrderItem(item);
      StampedPrefixExtends(items, i, oid, base);
      i := i + 1;
    }
    assert items[..i] == items;
  }

  /**
   * POST /orders. Validation failures return before anything is written.
   * Otherwise the header is committed (leaving the order with no items), then
   * the stamped items are committed, and the response is built.
   */
  method CreateOrder(db: Database, c: Catalog, req: OrderInSchema) returns (r: Result<OrderOutSchema, Failure>)
    requires db.Valid() && ValidOrderIn(req)
    modifies db`orders, db`nextOrderId, db`orderItems, db`nextOrderItemId
    ensures db.Valid()
    ensures Validate(c, req).result.Err? ==> r == Err(Validate(c, req).result.error) && unchanged(db)
    ensures Validate(c, req).result.Ok? ==>
      var id := old(db.nextOrderId);
      var items := Validate(c, req).result.value;
      && id !in old(db.orders)
      && db.orders == old(db.orders)[id := NewOrder(req).(id := Some(id))]
      && db.nextOrderId == id + 1
      && db.ItemsOf(id) == Stamped(items, id, old(db.nextOrderItemId))
      && db.nextOrderItemId == old(db.nextOrderItemId) + |items|
      && (forall k :: k in old(db.orderItems) ==> k in db.orderItems && db.orderItems[k] == old(db.orderItems)[k])
      && (forall k :: k in db.orderItems ==> k in old(db.orderItems) || old(db.nextOrderItemId) <= k < db.nextOrderItemId)
      && r == CreateResponse(NewOrder(req), items)
      && (r.Ok? ==> GetOrderById(db, id) == Ok(r.value.(id := Some(id))))
    ensures WellFormed(c) && Validate(c, req).result.Ok? ==> r.Ok? && r.value.status == Pending
  {
    var outcome := ValidateOrder(c, req);
    if outcome.result.Err? {
      return Err(outcome.result.error);
    }
    var items := outcome.result.value;
    var order := NewOrder(req);
    var id := db.InsertOrder(order);
    AddOrderItems(db, id, items);
    r := CreateResponse(order, items);
    assert db.orders[id] == order.(id := Some(id));
    OutItemsStamped(items, id, old(db.nextOrderItemId));
    assert OutItems(db.ItemsOf(id)) == OutItems(items);
    if r.Ok? {
      ResponseRoundTrip(order, id, OutItems(items));
      assert GetOrderById(db, id) == Ok(r.value.(id := Some(id)));
    }
    if WellFormed(c) {
      SnapshotsAreValid(c, req);
      CreateResponseSucceeds(order, items);
    }
  }

  /** POST /orders/{id}/change-status: any status from any status; nothing else changes. */
  method ChangeOrderStatus(db: Database, id: int, status: OrderStatus) returns (r: Result<OrderOutSchema, Failure>)
    requires db.Valid()
    modifies db`orders
    ensures db.Valid()
    ensures id !in old(db.orders) ==> r == Err(OrderNotFound) && db.orders == old(db.orders)
    ensures id in old(db.orders) ==>
      && db.orders == old(db.orders)[id := old(db.orders)[id].(status := status)]
      && r == GetOrderById(db, id)
      && (r.Ok? ==> r.value.status == status)
  {
    if id !in db.orders {
      return Err(OrderNotFound);
    }
    db.orders := db.orders[id := db.orders[id].(status := status)];
    r := GetOrderById(db, id);
  }

  /** DELETE /orders/{id}: the order and, by cascade, its items. */
  method DeleteOrder(db: Database, id: int) returns (r: Result<(), Failure>)
    requires db.Valid()
    modifies db`orders, db`orderItems
    ensures db.Valid()
    ensures id !in old(db.orders) ==> r == Err(OrderNotFound) && unchanged(db)
    ensures id in old(db.orders) ==>
      && r.Ok?
      && db.orders == old(db.orders) - {id}
      && GetOrderById(db, id) == Err(OrderNotFound)
      && (forall k :: k in db.orderItems <==> k in old(db.orderItems) && old(db.orderItems)[k].orderId != Some(id))
      && (forall k :: k in db.orderItems ==> db.orderItems[k] == old(db.orderItems)[k])
  {
    if id !in db.orders {
      return Err(OrderNotFound);
    }
    db.DeleteOrder(id);
    r := Ok(());
  }

  /**
   * Validation against a healthy Restaurant service reading the same tables:
   * it passes exactly when the restaurant exists and every requested menu
   * item exists and is available, and each snapshot carries the item's
   * current name and price.
   */
  lemma {:induction false} ValidateAgainstTables(restaurants: map<int, Restaurant>, menuItems: map<int, MenuItem>, req: OrderInSchema)
    ensures var v := Validate(RestaurantService.CatalogOf(restaurants, menuItems), req);
      v.result.Ok? <==>
        && req.restaurantId in restaurants
        && forall i :: 0 <= i < |req.items| ==> req.items[i].menuItemId in menuItems && menuItems[req.items[i].menuItemId].isAvailable
    ensures var v := Validate(RestaurantService.CatalogOf(restaurants, menuItems), req);
      v.result.Ok? ==> |v.result.value| == |req.items| && forall i :: 0 <= i < |req.items| ==>
        && req.items[i].menuItemId in menuItems
        && v.result.value[i].menuItemName == menuItems[req.items[i].menuItemId].name
        && v.result.value[i].price == menuItems[req.items[i].menuItemId].price
  {
    var c := RestaurantService.CatalogOf(restaurants, menuItems);
    CheckItemsSucceeds(c, req.items);
    if req.restaurantId in restaurants {
      forall i | 0 <= i < |req.items|
        ensures CheckItem(c, req.items[i]).Ok? <==>
          req.items[i].menuItemId in menuItems && menuItems[req.items[i].menuItemId].isAvailable
      {
        CheckItemCases(c, req.items[i]);
      }
    }
  }

  /**
   * Nothing ties a requested menu item to the ordered restaurant: an order
   * with restaurant 1 validates with a menu item of restaurant 2.
   */
  lemma ForeignMenuItemAccepted(restaurants: map<int, Restaurant>, menuItems: map<int, MenuItem>, req: OrderInSchema)
    requires restaurants == map[1 := Restaurant(Some(1), "A", None, None), 2 := Restaurant(Some(2), "B", None, None)]
    requires menuItems == map[7 := MenuItem(Some(7), Some(2), "Soup", None, 300, true, "Main")]
    requires req == OrderInSchema(None, "555", "Main St", 1, [OrderItemInSchema(7, 1)])
    ensures menuItems[7].restaurantId != Some(req.restaurantId)
    ensures Validate(RestaurantService.CatalogOf(restaurants, menuItems), req).result == Ok([OrderItem(None, None, 7, "Soup", 300, 1)])
  {
    var c := RestaurantService.CatalogOf(restaurants, menuItems);
    assert c.restaurant(1) == Reply(200, None);
    assert c.menuItem(7) == Reply(200, Some(ItemData("Soup", 300, true)));
    assert CheckItem(c, req.items[0]) == Ok(OrderItem(None, None, 7, "Soup", 300, 1));
    CheckItemsSucceeds(c, req.items);
    assert CheckRestaurant(c.restaurant(req.restaurantId)).None?;
    assert Validate(c, req) == CheckItems(c, req.items);
    var v := CheckItems(c, req.items).result.value;
    assert |v| == 1 && v[0] == OrderItem(None, None, 7, "Soup", 300, 1);
    assert v == [OrderItem(None, None, 7, "Soup", 300, 1)];
  }

}
