/**
 * The request and response bodies. Each schema is a datatype; its declared
 * field bounds are a validity predicate. Decoding a request body applies the declared
 * defaults and rejects, with 422, every body that no valid instance fits.
 */
module Schemas {
  import opened Wrappers
  import opened Http
  import opened Models

  datatype RestaurantSchema = RestaurantSchema(name: string, description: Option<string>, address: Option<string>)

  predicate ValidRestaurantSchema(s: RestaurantSchema) {
    && |s.name| <= RestaurantNameMaxLength
    && WithinLength(s.description, DescriptionMaxLength)
    && WithinLength(s.address, RestaurantAddressMaxLength)
  }

  datatype MenuItemSchema = MenuItemSchema(
    name: string,
    description: Option<string>,
    price: int := DefaultPrice,
    isAvailable: bool := true,
    category: string)

  predicate ValidMenuItemSchema(s: MenuItemSchema) {
    && |s.name| <= MenuItemNameMaxLength
    && WithinLength(s.description, DescriptionMaxLength)
    && s.price >= 0
    && |s.category| <= CategoryMaxLength
  }

  datatype OrderItemInSchema = OrderItemInSchema(menuItemId: int, quantity: int := DefaultQuantity)

  predicate ValidOrderItemIn(s: OrderItemInSchema) {
    s.quantity >= 1
  }

  /** An ordered line as it is shown to the client: no menu item id. */
  datatype OrderItemOutSchema = OrderItemOutSchema(menuItemName: string, quantity: int := DefaultQuantity, price: int)

  predicate ValidOrderItemOut(s: OrderItemOutSchema) {
    s.quantity >= 1 && s.price >= 0
  }

  datatype OrderOutSchema = OrderOutSchema(
    id: Option<int>,
    customerName: Option<string>,
    customerPhone: string,
    deliveryAddress: string,
    items: seq<OrderItemOutSchema>,
    status: OrderStatus)

  predicate ValidOrderOut(s: OrderOutSchema) {
    && WithinLength(s.customerName, CustomerNameMaxLength)
    && |s.customerPhone| <= CustomerPhoneMaxLength
    && |s.deliveryAddress| <= DeliveryAddressMaxLength
    && forall i :: 0 <= i < |s.items| ==> ValidOrderItemOut(s.items[i])
  }

  /** An order request; `items` has no minimum length. */
  datatype OrderInSchema = OrderInSchema(
    customerName: Option<string>,
    customerPhone: string,
    deliveryAddress: string,
    restaurantId: int,
    items: seq<OrderItemInSchema>)

  predicate ValidOrderIn(s: OrderInSchema) {
    && WithinLength(s.customerName, CustomerNameMaxLength)
    && |s.customerPhone| <= CustomerPhoneMaxLength
    && |s.deliveryAddress| <= DeliveryAddressMaxLength
    && forall i :: 0 <= i < |s.items| ==> ValidOrderItemIn(s.items[i])
  }

  // ---------------------------------------------------------------------------
  // Request decoding. In a raw body a field that is left out (or null) is None.
  // ---------------------------------------------------------------------------

  datatype RawOrderItem = RawOrderItem(menuItemId: Option<int>, quantity: Option<int>)

  datatype RawOrder = RawOrder(
    customerName: Option<string>,
    customerPhone: Option<string>,
    deliveryAddress: Option<string>,
    restaurantId: Option<int>,
    items: Option<seq<RawOrderItem>>)

  datatype RawMenuItem = RawMenuItem(
    name: Option<string>,
    description: Option<string>,
    price: Option<int>,
    isAvailable: Option<bool>,
    category: Option<string>)

  /** `s` is what the raw body says, with the declared default for a field left out. */
  predicate FitsOrderItem(raw: RawOrderItem, s: OrderItemInSchema) {
    raw.menuItemId == Some(s.menuItemId) && s.quantity == raw.quantity.GetOr(DefaultQuantity)
  }

  function DecodeOrderItem(raw: RawOrderItem): (r: Result<OrderItemInSchema, Failure>)
    ensures r.Ok? ==> FitsOrderItem(raw, r.value) && ValidOrderItemIn(r.value)
    ensures r.Err? ==> r.error == InvalidRequest && forall s :: FitsOrderItem(raw, s) ==> !ValidOrderItemIn(s)
  {
    match raw.menuItemId
    case None => Err(InvalidRequest)
    case Some(id) =>
      var quantity := raw.quantity.GetOr(DefaultQuantity);
      if quantity >= 1 then Ok(OrderItemInSchema(id, quantity)) else Err(InvalidRequest)
  }

  /** Decodes every line of the `items` list; one bad line rejects the list. */
  function DecodeOrderItems(raws: seq<RawOrderItem>): (r: Result<seq<OrderItemInSchema>, Failure>)
    ensures r.Ok? <==> forall i :: 0 <= i < |raws| ==> DecodeOrderItem(raws[i]).Ok?
    ensures r.Ok? ==> |r.value| == |raws| && forall i :: 0 <= i < |raws| ==> FitsOrderItem(raws[i], r.value[i]) && ValidOrderItemIn(r.value[i])
    ensures r.Err? ==> r.error == InvalidRequest
  {
    if raws == [] then Ok([])
    else
      match DecodeOrderItems(raws[..|raws| - 1])
      case Err(e) => Err(e)
      case Ok(init) =>
        match DecodeOrderItem(raws[|raws| - 1])
        case Err(e) => Err(e)
        case Ok(last) => Ok(init + [last])
  }

  predicate FitsOrder(raw: RawOrder, s: OrderInSchema) {
    && raw.customerName == s.customerName
    && raw.customerPhone == Some(s.customerPhone)
    && raw.deliveryAddress == Some(s.deliveryAddress)
    && raw.restaurantId == Some(s.restaurantId)
    && raw.items.Some?
    && |raw.items.value| == |s.items|
    && forall i :: 0 <= i < |s.items| ==> FitsOrderItem(raw.items.value[i], s.items[i])
  }

  function DecodeOrder(raw: RawOrder): (r: Result<OrderInSchema, Failure>)
    ensures r.Ok? ==> FitsOrder(raw, r.value) && ValidOrderIn(r.value)
    ensures r.Err? ==> r.error == InvalidRequest && forall s :: FitsOrder(raw, s) ==> !ValidOrderIn(s)
  {
    if raw.customerPhone.None? || raw.deliveryAddress.None? || raw.restaurantId.None? || raw.items.None? then
      Err(InvalidRequest)
    else
      match DecodeOrderItems(raw.items.value)
      case Err(e) => Err(e)
      case Ok(items) =>
        var s := OrderInSchema(raw.customerName, raw.customerPhone.value, raw.deliveryAddress.value, raw.restaurantId.value, items);
        if ValidOrderIn(s) then Ok(s) else Err(InvalidRequest)
  }

  predicate FitsMenuItem(raw: RawMenuItem, s: MenuItemSchema) {
    && raw.name == Some(s.name)
    && raw.description == s.description
    && s.price == raw.price.GetOr(DefaultPrice)
    && s.isAvailable == raw.isAvailable.GetOr(true)
    && raw.category == Some(s.category)
  }

  function DecodeMenuItem(raw: RawMenuItem): (r: Result<MenuItemSchema, Failure>)
    ensures r.Ok? ==> FitsMenuItem(raw, r.value) && ValidMenuItemSchema(r.value)
    ensures r.Err? ==> r.error == InvalidRequest && forall s :: FitsMenuItem(raw, s) ==> !ValidMenuItemSchema(s)
  {
    if raw.name.None? || raw.category.None? then Err(InvalidRequest)
    else
      var s := MenuItemSchema(raw.name.value, raw.description, raw.price.GetOr(DefaultPrice), raw.isAvailable.GetOr(true), raw.category.value);
      if ValidMenuItemSchema(s) then Ok(s) else Err(InvalidRequest)
  }

  /** An order request with an empty `items` list is accepted. */
  lemma EmptyItemsAccepted(raw: RawOrder)
    requires raw.customerPhone.Some? && |raw.customerPhone.value| <= CustomerPhoneMaxLength
    requires raw.deliveryAddress.Some? && |raw.deliveryAddress.value| <= DeliveryAddressMaxLength
    requires WithinLength(raw.customerName, CustomerNameMaxLength)
    requires raw.restaurantId.Some? && raw.items == Some([])
    ensures DecodeOrder(raw).Ok? && DecodeOrder(raw).value.items == []
  {
  }

  // ---------------------------------------------------------------------------
  // Constructing OrderOutSchema validates it: a missing required field or a
  // violated bound raises a validation error, which the framework turns into 500.
  // ---------------------------------------------------------------------------

  /**
   * `OrderOutSchema(...)` called with keyword arguments; `status` is None when
   * the caller does not pass it. `status` has no default, so it is required.
   */
  function BuildOrderOut(
    id: Option<int>, customerName: Option<string>, customerPhone: string, deliveryAddress: string,
    items: seq<OrderItemOutSchema>, status: Option<OrderStatus>): (r: Result<OrderOutSchema, Failure>)
    ensures status.None? ==> r == Err(Unhandled)
    ensures r.Err? ==> r.error == Unhandled
    ensures r.Ok? ==> ValidOrderOut(r.value)
    ensures r.Ok? ==> r.value == OrderOutSchema(id, customerName, customerPhone, deliveryAddress, items, status.value)
    ensures status.Some? && ValidOrderOut(OrderOutSchema(id, customerName, customerPhone, deliveryAddress, items, status.value)) ==> r.Ok?
  {
    match status
    case None => Err(Unhandled)
    case Some(st) =>
      var s := OrderOutSchema(id, customerName, customerPhone, deliveryAddress, items, st);
      if ValidOrderOut(s) then Ok(s) else Err(Unhandled)
  }

  /** The id never decides whether an output order is valid. */
  lemma BuildOrderOutIgnoresId(
    id: Option<int>, id': Option<int>, customerName: Option<string>, customerPhone: string, deliveryAddress: string,
    items: seq<OrderItemOutSchema>, status: Option<OrderStatus>)
    ensures BuildOrderOut(id, customerName, customerPhone, deliveryAddress, items, status).Ok?
      == BuildOrderOut(id', customerName, customerPhone, deliveryAddress, items, status).Ok?
  {
  }
}
