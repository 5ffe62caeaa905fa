/**
 * The rows of the four tables and the order status enumeration.
 * Every row carries the id the database assigned to it, or None before its
 * first insert. Defaults declared on a column are the constructor's defaults.
 * The declared bounds (max_length, ge) are stated as validity predicates: they
 * are declared invariants of a row, not checks the handlers perform.
 */
module Models {
  import opened Wrappers

  const RestaurantNameMaxLength := 255
  const DescriptionMaxLength := 500
  const RestaurantAddressMaxLength := 255
  const MenuItemNameMaxLength := 255
  const CategoryMaxLength := 255
  const CustomerNameMaxLength := 100
  const CustomerPhoneMaxLength := 100
  const DeliveryAddressMaxLength := 255
  const OrderItemNameMaxLength := 255

  const DefaultPrice := 0
  const DefaultQuantity := 1

  /** A nullable text column with a length bound. */
  predicate WithinLength(s: Option<string>, max: nat) {
    s.None? || |s.value| <= max
  }

  datatype Restaurant = Restaurant(
    id: Option<int> := None,
    name: string,
    description: Option<string>,
    address: Option<string>)

  predicate ValidRestaurant(r: Restaurant) {
    && |r.name| <= RestaurantNameMaxLength
    && WithinLength(r.description, DescriptionMaxLength)
    && WithinLength(r.address, RestaurantAddressMaxLength)
  }

  datatype MenuItem = MenuItem(
    id: Option<int> := None,
    restaurantId: Option<int> := None,
    name: string,
    description: Option<string>,
    price: int := DefaultPrice,
    isAvailable: bool := true,
    category: string)

  predicate ValidMenuItem(m: MenuItem) {
    && |m.name| <= MenuItemNameMaxLength
    && WithinLength(m.description, DescriptionMaxLength)
    && m.price >= 0
    && |m.category| <= CategoryMaxLength
  }

  datatype OrderStatus = Pending | Preparing | Delivering | Delivered | Canceled

  /** The five statuses, in declaration order. */
  const AllStatuses: seq<OrderStatus> := [Pending, Preparing, Delivering, Delivered, Canceled]

  /** The string value of each member of the `str` enumeration. */
  function StatusValue(s: OrderStatus): string {
    match s
    case Pending => "pending"
    case Preparing => "preparing"
    case Delivering => "delivering"
    case Delivered => "delivered"
    case Canceled => "canceled"
  }

  /**
   * Decoding a status token at the request boundary: a token is accepted
   * exactly when it is the value of some status, and then decodes to that status.
   */
  function ParseStatus(token: string): (r: Option<OrderStatus>)
    ensures r.Some? ==> StatusValue(r.value) == token
    ensures r.None? ==> forall s: OrderStatus :: StatusValue(s) != token
  {
    if token == "pending" then Some(Pending)
    else if token == "preparing" then Some(Preparing)
    else if token == "delivering" then Some(Delivering)
    else if token == "delivered" then Some(Delivered)
    else if token == "canceled" then Some(Canceled)
    else None
  }

  /** The enumeration has exactly five members, with five distinct values. */
  lemma StatusesEnumerated(s: OrderStatus)
    ensures s in AllStatuses
    ensures |AllStatuses| == 5
    ensures forall i, j :: 0 <= i < j < |AllStatuses| ==> StatusValue(AllStatuses[i]) != StatusValue(AllStatuses[j])
  {
  }

  /** Every status survives the trip through its string value. */
  lemma StatusRoundTrip(s: OrderStatus)
    ensures ParseStatus(StatusValue(s)) == Some(s)
  {
  }

  datatype Order = Order(
    id: Option<int> := None,
    customerName: Option<string>,
    customerPhone: string,
    deliveryAddress: string,
    restaurantId: Option<int> := None,
    status: OrderStatus := Pending)

  predicate ValidOrder(o: Order) {
    && WithinLength(o.customerName, CustomerNameMaxLength)
    && |o.customerPhone| <= CustomerPhoneMaxLength
    && |o.deliveryAddress| <= DeliveryAddressMaxLength
  }

  datatype OrderItem = OrderItem(
    id: Option<int> := None,
    orderId: Option<int> := None,
    menuItemId: int,
    menuItemName: string,
    price: int := DefaultPrice,
    quantity: int := DefaultQuantity)

  predicate ValidOrderItem(i: OrderItem) {
    && |i.menuItemName| <= OrderItemNameMaxLength
    && i.price >= 0
    && i.quantity >= 1
  }

  /** A freshly constructed row satisfies its declared bounds when its text fits. */
  lemma DefaultsAreValid(name: string, category: string, menuItemId: int, phone: string, address: string)
    requires |name| <= 255 && |category| <= 255 && |phone| <= 100 && |address| <= 255
    ensures var m := MenuItem(name := name, description := None, category := category);
      ValidMenuItem(m) && m.price == 0 && m.isAvailable
    ensures var i := OrderItem(menuItemId := menuItemId, menuItemName := name);
      ValidOrderItem(i) && i.price == 0 && i.quantity == 1
    ensures var o := Order(customerName := None, customerPhone := phone, deliveryAddress := address);
      ValidOrder(o) && o.status == Pending
  {
  }
}
