/**
 * The relational store shared by both services: four tables keyed by id, one
 * id sequence per table, the foreign keys the handlers keep, and the cascades
 * declared on the relationships (a restaurant's menu items and orders, an
 * order's items). A relationship list (`restaurant.menu_items`, `order.items`)
 * is read in ascending id order, which is insertion order.
 */
module Store {
  import opened Wrappers
  import opened Models

  /** A nullable foreign key is null or names a row of `table`. */
  predicate Refers<T>(fk: Option<int>, table: map<int, T>) {
    fk.None? || fk.value in table
  }

  /** The rows with id below `n` that `owned` selects, by ascending id: a relationship list. */
  function Rows<T>(rows: map<int, T>, owned: T -> bool, n: nat): seq<T>
    decreases n
  {
    if n == 0 then []
    else
      var k := n - 1;
      Rows(rows, owned, k) + if k in rows && owned(rows[k]) then [rows[k]] else []
  }

  /** The listing holds only selected rows of the table, and every selected row below `n`. */
  lemma {:induction false} RowsExact<T>(rows: map<int, T>, owned: T -> bool, n: nat)
    ensures forall x :: x in Rows(rows, owned, n) ==> owned(x) && x in rows.Values
    ensures forall k :: 0 <= k < n && k in rows && owned(rows[k]) ==> rows[k] in Rows(rows, owned, n)
    decreases n
  {
    if n > 0 {
      RowsExact(rows, owned, n - 1);
    }
  }

  /** Rows at or above `n` do not change the listing below `n`. */
  lemma {:induction false} RowsFrame<T>(rows: map<int, T>, rows': map<int, T>, owned: T -> bool, n: nat)
    requires forall k :: 0 <= k < n ==> (k in rows <==> k in rows')
    requires forall k :: 0 <= k < n && k in rows ==> rows[k] == rows'[k]
    ensures Rows(rows, owned, n) == Rows(rows', owned, n)
  {
    if n > 0 {
      RowsFrame(rows, rows', owned, n - 1);
    }
  }

  /** When no row is selected, the listing is empty. */
  lemma {:induction false} RowsNone<T>(rows: map<int, T>, owned: T -> bool, n: nat)
    requires forall k :: k in rows ==> !owned(rows[k])
    ensures Rows(rows, owned, n) == []
  {
    if n > 0 {
      RowsNone(rows, owned, n - 1);
    }
  }

  /** Adding a row at the next id appends it to the listing that selects it. */
  lemma RowsAppend<T>(rows: map<int, T>, owned: T -> bool, n: nat, row: T)
    requires forall k :: k in rows ==> k < n
    ensures Rows(rows[n := row], owned, n + 1) == Rows(rows, owned, n) + if owned(row) then [row] else []
  {
    RowsFrame(rows, rows[n := row], owned, n);
  }

  /** `restaurant.menu_items` selects the menu items whose foreign key is `rid`. */
  function OfRestaurant(rid: int): MenuItem -> bool {
    (m: MenuItem) => m.restaurantId == Some(rid)
  }

  /** `order.items` selects the order items whose foreign key is `oid`. */
  function OfOrder(oid: int): OrderItem -> bool {
    (i: OrderItem) => i.orderId == Some(oid)
  }

  /** The rows of a table that the cascade keeps: those for which `gone` is false. */
  function Keep<T>(rows: map<int, T>, gone: T -> bool): (r: map<int, T>)
    ensures forall k :: k in r <==> k in rows && !gone(rows[k])
    ensures forall k :: k in r ==> r[k] == rows[k]
  {
    map k | k in rows && !gone(rows[k]) :: rows[k]
  }

  class Database {
    var restaurants: map<int, Restaurant>
    var menuItems: map<int, MenuItem>
    var orders: map<int, Order>
    var orderItems: map<int, OrderItem>
    // The next value of each table's id sequence.
    var nextRestaurantId: nat
    var nextMenuItemId: nat
    var nextOrderId: nat
    var nextOrderItemId: nat

    /** Ids are keys, drawn from each table's sequence. */
    ghost predicate IdsValid()
      reads this
    {
      && 1 <= nextRestaurantId && 1 <= nextMenuItemId && 1 <= nextOrderId && 1 <= nextOrderItemId
      && (forall k :: k in restaurants ==> 1 <= k < nextRestaurantId && restaurants[k].id == Some(k))
      && (forall k :: k in menuItems ==> 1 <= k < nextMenuItemId && menuItems[k].id == Some(k))
      && (forall k :: k in orders ==> 1 <= k < nextOrderId && orders[k].id == Some(k))
      && (forall k :: k in orderItems ==> 1 <= k < nextOrderItemId && orderItems[k].id == Some(k))
    }

    /** Menu items and order items reference live parents. */
    ghost predicate ParentsExist()
      reads this
    {
      && (forall k :: k in menuItems ==> Refers(menuItems[k].restaurantId, restaurants))
      && (forall k :: k in orderItems ==> Refers(orderItems[k].orderId, orders))
    }

    ghost predicate Valid()
      reads this
    {
      IdsValid() && ParentsExist()
    }

    constructor ()
      ensures Valid()
      ensures restaurants == map[] && menuItems == map[] && orders == map[] && orderItems == map[]
      ensures nextRestaurantId == 1 && nextMenuItemId == 1 && nextOrderId == 1 && nextOrderItemId == 1
    {
      restaurants, menuItems, orders, orderItems := map[], map[], map[], map[];
      nextRestaurantId, nextMenuItemId, nextOrderId, nextOrderItemId := 1, 1, 1, 1;
    }

    /** `restaurant.menu_items`. */
    function MenuOf(rid: int): seq<MenuItem>
      reads this
    {
      Rows(menuItems, OfRestaurant(rid), nextMenuItemId)
    }

    /** `order.items`. */
    function ItemsOf(oid: int): seq<OrderItem>
      reads this
    {
      Rows(orderItems, OfOrder(oid), nextOrderItemId)
    }

    /** Adds a restaurant row and commits; the id comes from the sequence. */
    method InsertRestaurant(r: Restaurant) returns (id: int)
      requires Valid()
      modifies this`restaurants, this`nextRestaurantId
      ensures Valid()
      ensures id == old(nextRestaurantId) && nextRestaurantId == id + 1 && id !in old(restaurants)
      ensures restaurants == old(restaurants)[id := r.(id := Some(id))]
    {
      id := nextRestaurantId;
      restaurants := restaurants[id := r.(id := Some(id))];
      nextRestaurantId := nextRestaurantId + 1;
    }

    method InsertMenuItem(m: MenuItem) returns (id: int)
      requires Valid() && Refers(m.restaurantId, restaurants)
      modifies this`menuItems, this`nextMenuItemId
      ensures Valid()
      ensures id == old(nextMenuItemId) && nextMenuItemId == id + 1 && id !in old(menuItems)
      ensures menuItems == old(menuItems)[id := m.(id := Some(id))]
      ensures m.restaurantId.Some? ==> MenuOf(m.restaurantId.value) == old(MenuOf(m.restaurantId.value)) + [m.(id := Some(id))]
    {
      id := nextMenuItemId;
      var row := m.(id := Some(id));
      ghost var before := menuItems;
      menuItems := menuItems[id := row];
      nextMenuItemId := nextMenuItemId + 1;
      assert IdsValid();
      assert ParentsExist();
      if m.restaurantId.Some? {
        RowsAppend(before, OfRestaurant(m.restaurantId.value), id, row);
        assert MenuOf(m.restaurantId.value) == Rows(before[id := row], OfRestaurant(m.restaurantId.value), id + 1);
      }
    }

    /**
     * Adds an order header and commits. Once this returns, the order is
     * stored and has no items.
     */
    method InsertOrder(o: Order) returns (id: int)
      requires Valid()
      modifies this`orders, this`nextOrderId
      ensures Valid()
      ensures id == old(nextOrderId) && nextOrderId == id + 1 && id !in old(orders)
      ensures orders == old(orders)[id := o.(id := Some(id))]
      ensures ItemsOf(id) == []
    {
      id := nextOrderId;
      forall k | k in orderItems
        ensures orderItems[k].orderId != Some(id)
      {
        assert Refers(orderItems[k].orderId, orders);
      }
      RowsNone(orderItems, OfOrder(id), nextOrderItemId);
      orders := orders[id := o.(id := Some(id))];
      nextOrderId := nextOrderId + 1;
    }

    /** Adds an order item row; it joins the listing of the order it references. */
    method InsertOrderItem(item: OrderItem) returns (id: int)
      requires Valid() && item.orderId.Some? && item.orderId.value in orders
      modifies this`orderItems, this`nextOrderItemId
      ensures Valid()
      ensures id == old(nextOrderItemId) && nextOrderItemId == id + 1 && id !in old(orderItems)
      ensures orderItems == old(orderItems)[id := item.(id := Some(id))]
      ensures ItemsOf(item.orderId.value) == old(ItemsOf(item.orderId.value)) + [item.(id := Some(id))]
    {
      id := nextOrderItemId;
      var row := item.(id := Some(id));
      ghost var before := orderItems;
      orderItems := orderItems[id := row];
      nextOrderItemId := nextOrderItemId + 1;
      assert IdsValid();
      assert ParentsExist();
      RowsAppend(before, OfOrder(item.orderId.value), id, row);
      assert ItemsOf(item.orderId.value) == Rows(before[id := row], OfOrder(item.orderId.value), id + 1);
    }

    /** Deletes an order and, by cascade, its items. */
    method DeleteOrder(oid: int)
      requires Valid() && oid in orders
      modifies this`orders, this`orderItems
      ensures Valid()
      ensures orders == old(orders) - {oid}
      ensures forall k :: k in orderItems <==> k in old(orderItems) && old(orderItems)[k].orderId != Some(oid)
      ensures forall k :: k in orderItems ==> orderItems[k] == old(orderItems)[k]
    {
      orders := orders - {oid};
      orderItems := map k | k in orderItems && orderItems[k].orderId != Some(oid) :: orderItems[k];
    }

    /** The ids of the orders placed with restaurant `rid`. */
    ghost function OrdersOf(rid: int): set<int>
      reads this
    {
      set k | k in orders && orders[k].restaurantId == Some(rid)
    }

    /**
     * Deletes a restaurant and, by cascade, its menu items and its orders,
     * and with those orders their items.
     */
    method DeleteRestaurant(rid: int)
      requires Valid() && rid in restaurants
      modifies this`restaurants, this`menuItems, this`orders, this`orderItems
      ensures Valid()
      ensures restaurants == old(restaurants) - {rid}
      ensures forall k :: k in menuItems <==> k in old(menuItems) && old(menuItems)[k].restaurantId != Some(rid)
      ensures forall k :: k in orders <==> k in old(orders) && old(orders)[k].restaurantId != Some(rid)
      ensures forall k :: k in orderItems <==>
        k in old(orderItems) && !(old(orderItems)[k].orderId.Some? && old(orderItems)[k].orderId.value in old(OrdersOf(rid)))
      ensures forall k :: k in menuItems ==> menuItems[k] == old(menuItems)[k]
      ensures forall k :: k in orders ==> orders[k] == old(orders)[k]
      ensures forall k :: k in orderItems ==> orderItems[k] == old(orderItems)[k]
    {
      var gone := set k | k in orders && orders[k].restaurantId == Some(rid);
      restaurants := restaurants - {rid};
      menuItems := Keep(menuItems, (m: MenuItem) => m.restaurantId == Some(rid));
      orders := Keep(orders, (o: Order) => o.restaurantId == Some(rid));
      orderItems := Keep(orderItems, (i: OrderItem) => i.orderId.Some? && i.orderId.value in gone);
      assert ParentsExist();
    }
  }
}
