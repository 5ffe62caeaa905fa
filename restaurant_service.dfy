/**
 * The Restaurant service handlers: restaurant and menu item create, read,
 * update and delete over the shared store, and the replies the Order service
 * receives from it.
 */
module RestaurantService {
  import opened Wrappers
  import opened Http
  import opened Models
  import opened Schemas
  import opened Store
  import OrderValidation

  const RestaurantNotFound := Failure(NotFound, "Restaurant not found")
  const MenuItemNotFound := Failure(NotFound, "Menu item not found")

  /** POST /restaurants. */
  method CreateRestaurant(db: Database, s: RestaurantSchema) returns (r: Restaurant)
    requires db.Valid() && ValidRestaurantSchema(s)
    modifies db`restaurants, db`nextRestaurantId
    ensures db.Valid()
    ensures r.id == Some(old(db.nextRestaurantId)) && old(db.nextRestaurantId) !in old(db.restaurants)
    ensures r == Restaurant(r.id, s.name, s.description, s.address) && ValidRestaurant(r)
    ensures db.restaurants == old(db.restaurants)[r.id.value := r]
  {
    var id := db.InsertRestaurant(Restaurant(name := s.name, description := s.description, address := s.address));
    r := db.restaurants[id];
  }

  /** GET /restaurants/{id}. */
  function GetRestaurantById(db: Database, id: int): (r: Result<Restaurant, Failure>)
    reads db
    requires db.Valid()
    ensures r.Ok? <==> id in db.restaurants
    ensures r.Ok? ==> r.value == db.restaurants[id] && r.value.id == Some(id)
    ensures r.Err? ==> r.error == RestaurantNotFound
  {
    if id in db.restaurants then Ok(db.restaurants[id]) else Err(RestaurantNotFound)
  }

  /** PUT /restaurants/{id}: overwrites name, description and address. */
  method UpdateRestaurant(db: Database, id: int, s: RestaurantSchema) returns (r: Result<Restaurant, Failure>)
    requires db.Valid() && ValidRestaurantSchema(s)
    modifies db`restaurants
    ensures db.Valid()
    ensures id !in old(db.restaurants) ==> r == Err(RestaurantNotFound) && db.restaurants == old(db.restaurants)
    ensures id in old(db.restaurants) ==>
      && r == Ok(Restaurant(Some(id), s.name, s.description, s.address))
      && ValidRestaurant(r.value)
      && db.restaurants == old(db.restaurants)[id := r.value]
  {
    if id !in db.restaurants {
      return Err(RestaurantNotFound);
    }
    var restaurant := db.restaurants[id].(name := s.name, description := s.description, address := s.address);
    db.restaurants := db.restaurants[id := restaurant];
    r := Ok(restaurant);
  }

  /** DELETE /restaurants/{id}: its menu items and orders, and their items, go with it. */
  method DeleteRestaurant(db: Database, id: int) returns (r: Result<(), Failure>)
    requires db.Valid()
    modifies db`restaurants, db`menuItems, db`orders, db`orderItems
    ensures db.Valid()
    ensures id !in old(db.restaurants) ==> r == Err(RestaurantNotFound) && unchanged(db)
    ensures id in old(db.restaurants) ==>
      && r.Ok?
      && db.restaurants == old(db.restaurants) - {id}
      && (forall k :: k in db.menuItems <==> k in old(db.menuItems) && old(db.menuItems)[k].restaurantId != Some(id))
      && (forall k :: k in db.orders <==> k in old(db.orders) && old(db.orders)[k].restaurantId != Some(id))
      && (forall k :: k in db.orderItems <==>
            k in old(db.orderItems) &&
            !(old(db.orderItems)[k].orderId.Some? && old(db.orderItems)[k].orderId.value in old(db.OrdersOf(id))))
      && (forall k :: k in db.menuItems ==> db.menuItems[k] == old(db.menuItems)[k])
      && (forall k :: k in db.orders ==> db.orders[k] == old(db.orders)[k])
      && (forall k :: k in db.orderItems ==> db.orderItems[k] == old(db.orderItems)[k])
  {
    if id !in db.restaurants {
      return Err(RestaurantNotFound);
    }
    db.DeleteRestaurant(id);
    r := Ok(());
  }

  /** POST /restaurants/{id}/menu-items: the new item belongs to the restaurant in the path. */
  method AddMenuItem(db: Database, rid: int, s: MenuItemSchema) returns (r: Result<MenuItem, Failure>)
    requires db.Valid() && ValidMenuItemSchema(s)
    modifies db`menuItems, db`nextMenuItemId
    ensures db.Valid()
    ensures rid !in db.restaurants ==> r == Err(RestaurantNotFound) && unchanged(db)
    ensures rid in db.restaurants ==>
      && r.Ok?
      && r.value == MenuItem(Some(old(db.nextMenuItemId)), Some(rid), s.name, s.description, s.price, s.isAvailable, s.category)
      && ValidMenuItem(r.value)
      && old(db.nextMenuItemId) !in old(db.menuItems)
      && db.menuItems == old(db.menuItems)[old(db.nextMenuItemId) := r.value]
      && db.MenuOf(rid) == old(db.MenuOf(rid)) + [r.value]
  {
    if rid !in db.restaurants {
      return Err(RestaurantNotFound);
    }
    var item := MenuItem(
      name := s.name, description := s.description, price := s.price,
      isAvailable := s.isAvailable, category := s.category, restaurantId := Some(rid));
    var id := db.InsertMenuItem(item);
    r := Ok(db.menuItems[id]);
  }

  /** `r` lists some of the elements of `s`, in the order they have in `s`. */
  predicate IsSubsequence(r: seq<MenuItem>, s: seq<MenuItem>)
    decreases |s|
  {
    if r == [] then true
    else if s == [] then false
    else if r[0] == s[0] then IsSubsequence(r[1..], s[1..])
    else IsSubsequence(r, s[1..])
  }

  lemma {:induction false} IsSubsequenceReflexive(s: seq<MenuItem>)
    ensures IsSubsequence(s, s)
    decreases |s|
  {
    if s != [] {
      IsSubsequenceReflexive(s[1..]);
    }
  }

  /** The `only_available` list comprehension. */
  function AvailableOnly(items: seq<MenuItem>): (r: seq<MenuItem>)
    ensures forall x :: x in r <==> x in items && x.isAvailable
    ensures forall x :: multiset(r)[x] == if x.isAvailable then multiset(items)[x] else 0
    ensures IsSubsequence(r, items)
  {
    if items == [] then []
    else
      assert items == [items[0]] + items[1..];
      if items[0].isAvailable then [items[0]] + AvailableOnly(items[1..])
      else AvailableOnly(items[1..])
  }

  /** GET /restaurants/{id}/menu-items?only_available=... */
  function GetRestaurantMenuItems(db: Database, rid: int, onlyAvailable: bool := false): (r: Result<seq<MenuItem>, Failure>)
    reads db
    requires db.Valid()
    ensures rid !in db.restaurants ==> r == Err(RestaurantNotFound)
    ensures rid in db.restaurants ==> r.Ok?
    ensures r.Ok? ==> !onlyAvailable ==> r.value == db.MenuOf(rid)
    ensures r.Ok? ==> IsSubsequence(r.value, db.MenuOf(rid))
    ensures r.Ok? && onlyAvailable ==>
      forall x :: multiset(r.value)[x] == if x.isAvailable then multiset(db.MenuOf(rid))[x] else 0
    ensures r.Ok? ==> forall x :: x in r.value ==> x.restaurantId == Some(rid) && x in db.menuItems.Values && (onlyAvailable ==> x.isAvailable)
    ensures r.Ok? ==> forall k ::
      (k in db.menuItems && db.menuItems[k].restaurantId == Some(rid) && (!onlyAvailable || db.menuItems[k].isAvailable))
      ==> db.menuItems[k] in r.value
  {
    if rid !in db.restaurants then Err(RestaurantNotFound)
    else
      var menu := db.MenuOf(rid);
      IsSubsequenceReflexive(menu);
      RowsExact(db.menuItems, OfRestaurant(rid), db.nextMenuItemId);
      Ok(if onlyAvailable then AvailableOnly(menu) else menu)
  }

  /** GET /menu-items/{id}. */
  function GetMenuItemById(db: Database, id: int): (r: Result<MenuItem, Failure>)
    reads db
    requires db.Valid()
    ensures r.Ok? <==> id in db.menuItems
    ensures r.Ok? ==> r.value == db.menuItems[id] && r.value.id == Some(id)
    ensures r.Err? ==> r.error == MenuItemNotFound
  {
    if id in db.menuItems then Ok(db.menuItems[id]) else Err(MenuItemNotFound)
  }

  /**
   * PUT /menu-items/{id}: overwrites name, description, price, availability
   * and category; the id and the owning restaurant stay, and no order item changes.
   */
  method UpdateMenuItem(db: Database, id: int, s: MenuItemSchema) returns (r: Result<MenuItem, Failure>)
    requires db.Valid() && ValidMenuItemSchema(s)
    modifies db`menuItems
    ensures db.Valid()
    ensures db.orderItems == old(db.orderItems)
    ensures id !in old(db.menuItems) ==> r == Err(MenuItemNotFound) && db.menuItems == old(db.menuItems)
    ensures id in old(db.menuItems) ==>
      && r == Ok(MenuItem(Some(id), old(db.menuItems)[id].restaurantId, s.name, s.description, s.price, s.isAvailable, s.category))
      && ValidMenuItem(r.value)
      && db.menuItems == old(db.menuItems)[id := r.value]
  {
    if id !in db.menuItems {
      return Err(MenuItemNotFound);
    }
    var item := db.menuItems[id].(
      name := s.name, description := s.description, price := s.price,
      isAvailable := s.isAvailable, category := s.category);
    db.menuItems := db.menuItems[id := item];
    r := Ok(item);
  }

  /** DELETE /menu-items/{id}: removes the item and returns it. */
  method DeleteMenuItem(db: Database, id: int) returns (r: Result<MenuItem, Failure>)
    requires db.Valid()
    modifies db`menuItems
    ensures db.Valid()
    ensures id !in old(db.menuItems) ==> r == Err(MenuItemNotFound) && db.menuItems == old(db.menuItems)
    ensures id in old(db.menuItems) ==> r == Ok(old(db.menuItems)[id]) && db.menuItems == old(db.menuItems) - {id}
  {
    if id !in db.menuItems {
      return Err(MenuItemNotFound);
    }
    r := Ok(db.menuItems[id]);
    db.menuItems := db.menuItems - {id};
  }

  /** What GET /restaurants/{id} answers when the service is healthy: only the status is read. */
  function RestaurantReply(restaurants: map<int, Restaurant>, id: int): OrderValidation.Reply {
    if id in restaurants then OrderValidation.Reply(200, None) else OrderValidation.Reply(NotFound, None)
  }

  /** What GET /menu-items/{id} answers when the service is healthy. */
  function MenuItemReply(menuItems: map<int, MenuItem>, id: int): OrderValidation.Reply {
    if id in menuItems then
      var m := menuItems[id];
      OrderValidation.Reply(200, Some(OrderValidation.ItemData(m.name, m.price, m.isAvailable)))
    else OrderValidation.Reply(NotFound, None)
  }

  /** The catalog a healthy Restaurant service presents over the given tables. */
  function CatalogOf(restaurants: map<int, Restaurant>, menuItems: map<int, MenuItem>): OrderValidation.Catalog {
    OrderValidation.Catalog(id => RestaurantReply(restaurants, id), id => MenuItemReply(menuItems, id))
  }
}
