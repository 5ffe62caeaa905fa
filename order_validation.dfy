/**
 * The validation half of order placement: the restaurant is checked first,
 * then each requested line in request order, stopping at the first failure;
 * each accepted line snapshots the menu item's name and price.
 *
 * The Restaurant service is a catalog oracle: for each id, the reply the
 * service gives to GET /restaurants/{id} and to GET /menu-items/{id}.
 */
module OrderValidation {
  import opened Wrappers
  import opened Http
  import opened Models
  import opened Schemas

  /** The fields of a menu item reply body that the order service reads. */
  datatype ItemData = ItemData(name: string, price: int, isAvailable: bool)

  /**
   * A reply: its status and, when the body is a menu item, what it says.
   * `TransportError` is a request that raised before any status arrived.
   */
  datatype Reply = Reply(status: int, body: Option<ItemData>) | TransportError

  datatype Catalog = Catalog(restaurant: int -> Reply, menuItem: int -> Reply)

  /** A catalog whose menu item bodies keep the menu item bounds. */
  ghost predicate WellFormed(c: Catalog) {
    forall id :: c.menuItem(id).Reply? && c.menuItem(id).body.Some? ==>
      c.menuItem(id).body.value.price >= 0 && |c.menuItem(id).body.value.name| <= MenuItemNameMaxLength
  }

  const RestaurantNotFound := Failure(NotFound, "Restaurant not found")
  const MenuItemNotFound := Failure(NotFound, "Menu item not found")
  const MenuItemNotAvailable := Failure(NotFound, "Menu item is not available for order")
  const RestaurantServiceUnavailable := Failure(ServiceUnavailable, "Restaurant service unavailable")

  /** The restaurant check: None lets validation go on. */
  function CheckRestaurant(reply: Reply): (r: Option<Failure>)
    ensures reply.Reply? && reply.status == 404 ==> r == Some(RestaurantNotFound)
    ensures reply.Reply? && reply.status >= 500 ==> r == Some(RestaurantServiceUnavailable)
    ensures reply.Reply? && reply.status != 404 && reply.status < 500 ==> r.None?
    ensures reply.TransportError? ==> r == Some(Unhandled)
  {
    match reply
    case TransportError => Some(Unhandled)
    case Reply(status, _) =>
      if status == NotFound then Some(RestaurantNotFound)
      else if status >= 500 then Some(RestaurantServiceUnavailable)
      else None
  }

  /**
   * The check of one requested line against the reply for its menu item. A
   * reply that passes the status checks but has no menu item body makes the
   * key lookup raise.
   */
  function CheckItem(c: Catalog, line: OrderItemInSchema): Result<OrderItem, Failure> {
    match c.menuItem(line.menuItemId)
    case TransportError => Err(Unhandled)
    case Reply(status, body) =>
      if status == NotFound then Err(MenuItemNotFound)
      else if status >= 500 then Err(RestaurantServiceUnavailable)
      else if body.None? then Err(Unhandled)
      else if !body.value.isAvailable then Err(MenuItemNotAvailable)
      else Ok(OrderItem(
        menuItemId := line.menuItemId,
        menuItemName := body.value.name,
        price := body.value.price,
        quantity := line.quantity))
  }

  /** `item` copies id and quantity from `line` and name and price from the catalog's reply. */
  ghost predicate Snapshot(c: Catalog, line: OrderItemInSchema, item: OrderItem) {
    var reply := c.menuItem(line.menuItemId);
    && reply.Reply? && reply.body.Some?
    && item == OrderItem(None, None, line.menuItemId, reply.body.value.name, reply.body.value.price, line.quantity)
  }

  /** A line passes exactly when its reply is a non-404, non-5xx menu item that is available. */
  lemma CheckItemCases(c: Catalog, line: OrderItemInSchema)
    ensures var reply := c.menuItem(line.menuItemId);
      CheckItem(c, line).Ok? <==>
        reply.Reply? && reply.status != 404 && reply.status < 500 && reply.body.Some? && reply.body.value.isAvailable
    ensures CheckItem(c, line).Ok? ==> Snapshot(c, line, CheckItem(c, line).value)
    ensures c.menuItem(line.menuItemId).Reply? && c.menuItem(line.menuItemId).status == 404 ==>
      CheckItem(c, line) == Err(MenuItemNotFound)
    ensures c.menuItem(line.menuItemId).Reply? && c.menuItem(line.menuItemId).status >= 500 ==>
      CheckItem(c, line) == Err(RestaurantServiceUnavailable)
    ensures c.menuItem(line.menuItemId).TransportError? ==> CheckItem(c, line) == Err(Unhandled)
    ensures var reply := c.menuItem(line.menuItemId);
      reply.Reply? && reply.status != 404 && reply.status < 500 && reply.body.None? ==>
        CheckItem(c, line) == Err(Unhandled)
    ensures var reply := c.menuItem(line.menuItemId);
      reply.Reply? && reply.status != 404 && reply.status < 500 && reply.body.Some? && !reply.body.value.isAvailable ==>
        CheckItem(c, line) == Err(MenuItemNotAvailable)
  {
  }

  /** An unavailable item is reported with the same status as a missing one. */
  lemma UnavailableReportedAsNotFound(c: Catalog, line: OrderItemInSchema)
    requires c.menuItem(line.menuItemId).Reply?
    requires c.menuItem(line.menuItemId).status != 404 && c.menuItem(line.menuItemId).status < 500
    requires c.menuItem(line.menuItemId).body.Some? && !c.menuItem(line.menuItemId).body.value.isAvailable
    ensures CheckItem(c, line).Err? && CheckItem(c, line).error.status == MenuItemNotFound.status
  {
  }

  /** What validation produced and which menu item ids it asked the catalog for, in order. */
  datatype Outcome = Outcome(result: Result<seq<OrderItem>, Failure>, queried: seq<int>)

  function Ids(lines: seq<OrderItemInSchema>): (r: seq<int>)
    ensures |r| == |lines| && forall i :: 0 <= i < |lines| ==> r[i] == lines[i].menuItemId
  {
    seq(|lines|, i requires 0 <= i < |lines| => lines[i].menuItemId)
  }

  /** The loop over the requested lines, defined on ever longer prefixes of the request. */
  function CheckItems(c: Catalog, lines: seq<OrderItemInSchema>): Outcome
    decreases |lines|
  {
    if lines == [] then Outcome(Ok([]), [])
    else
      var done := CheckItems(c, lines[..|lines| - 1]);
      var line := lines[|lines| - 1];
      if done.result.Err? then done
      else
        var queried := done.queried + [line.menuItemId];
        match CheckItem(c, line)
        case Err(e) => Outcome(Err(e), queried)
        case Ok(item) => Outcome(Ok(done.result.value + [item]), queried)
  }

  /** Validation of a whole request: the restaurant, then the lines. */
  function Validate(c: Catalog, req: OrderInSchema): Outcome {
    match CheckRestaurant(c.restaurant(req.restaurantId))
    case Some(e) => Outcome(Err(e), [])
    case None => CheckItems(c, req.items)
  }

  /** Line `k` is the first one that fails. */
  ghost predicate FirstFailureAt(c: Catalog, lines: seq<OrderItemInSchema>, k: int) {
    && 0 <= k < |lines|
    && (forall j :: 0 <= j < k ==> CheckItem(c, lines[j]).Ok?)
    && CheckItem(c, lines[k]).Err?
  }

  /**
   * Success: every line passed, every line was queried in request order, and
   * the result has one snapshot per line, in request order.
   */
  lemma {:induction false} CheckItemsSucceeds(c: Catalog, lines: seq<OrderItemInSchema>)
    ensures CheckItems(c, lines).result.Ok? <==> forall i :: 0 <= i < |lines| ==> CheckItem(c, lines[i]).Ok?
    ensures CheckItems(c, lines).result.Ok? ==>
      && CheckItems(c, lines).queried == Ids(lines)
      && |CheckItems(c, lines).result.value| == |lines|
      && forall i :: 0 <= i < |lines| ==> CheckItems(c, lines).result.value[i] == CheckItem(c, lines[i]).value
    decreases |lines|
  {
    if lines != [] {
      var init := lines[..|lines| - 1];
      CheckItemsSucceeds(c, init);
      assert forall i :: 0 <= i < |init| ==> init[i] == lines[i];
      assert Ids(init) + [lines[|lines| - 1].menuItemId] == Ids(lines);
    }
  }

  /**
   * Fail-fast: when line `k` is the first to fail, validation fails with that
   * line's error and has queried exactly the ids of lines 0..k; the lines
   * after `k` are never asked for.
   */
  lemma {:induction false} CheckItemsFailsFast(c: Catalog, lines: seq<OrderItemInSchema>, k: int)
    requires FirstFailureAt(c, lines, k)
    ensures CheckItems(c, lines) == Outcome(Err(CheckItem(c, lines[k]).error), Ids(lines[..k + 1]))
    decreases |lines|
  {
    var init := lines[..|lines| - 1];
    assert forall i :: 0 <= i < |init| ==> init[i] == lines[i];
    if k < |lines| - 1 {
      assert FirstFailureAt(c, init, k);
      CheckItemsFailsFast(c, init, k);
      assert init[..k + 1] == lines[..k + 1];
    } else {
      CheckItemsSucceeds(c, init);
      assert lines[..k + 1] == lines;
      assert Ids(init) + [lines[k].menuItemId] == Ids(lines);
    }
  }

  /** Either every line passes or some line is the first to fail. */
  lemma {:induction false} SomeLineFailsFirst(c: Catalog, lines: seq<OrderItemInSchema>)
    requires exists i :: 0 <= i < |lines| && CheckItem(c, lines[i]).Err?
    ensures exists k :: FirstFailureAt(c, lines, k)
    decreases |lines|
  {
    var init := lines[..|lines| - 1];
    assert forall i :: 0 <= i < |init| ==> init[i] == lines[i];
    if exists i :: 0 <= i < |init| && CheckItem(c, init[i]).Err? {
      SomeLineFailsFirst(c, init);
      var k :| FirstFailureAt(c, init, k);
      assert FirstFailureAt(c, lines, k);
    } else {
      assert FirstFailureAt(c, lines, |lines| - 1);
    }
  }

  /** A restaurant reply that stops validation stops it before any menu item is asked for. */
  lemma RestaurantCheckedFirst(c: Catalog, req: OrderInSchema)
    requires CheckRestaurant(c.restaurant(req.restaurantId)).Some?
    ensures Validate(c, req) == Outcome(Err(CheckRestaurant(c.restaurant(req.restaurantId)).value), [])
  {
  }

  /** Over a well-formed catalog, every snapshot is a valid order item row. */
  lemma {:induction false} SnapshotsAreValid(c: Catalog, req: OrderInSchema)
    requires WellFormed(c) && ValidOrderIn(req)
    ensures Validate(c, req).result.Ok? ==>
      forall i :: 0 <= i < |Validate(c, req).result.value| ==> ValidOrderItem(Validate(c, req).result.value[i])
  {
    if Validate(c, req).result.Ok? {
      CheckItemsSucceeds(c, req.items);
      forall i | 0 <= i < |req.items|
        ensures ValidOrderItem(CheckItem(c, req.items[i]).value)
      {
        assert ValidOrderItemIn(req.items[i]);
        assert c.menuItem(req.items[i].menuItemId).Reply?;
      }
    }
  }

  /**
   * The validation loop: query the restaurant, then each line in request
   * order, returning at the first failure.
   */
  method ValidateOrder(c: Catalog, req: OrderInSchema) returns (outcome: Outcome)
    ensures outcome == Validate(c, req)
  {
    var failure := CheckRestaurant(c.restaurant(req.restaurantId));
    if failure.Some? {
      return Outcome(Err(failure.value), []);
    }
    var items: seq<OrderItem> := [];
    var queried: seq<int> := [];
    var i := 0;
    while i < |req.items|
      invariant 0 <= i <= |req.items|
      invariant CheckItems(c, req.items[..i]) == Outcome(Ok(items), queried)
    {
      var line := req.items[i];
      queried := queried + [line.menuItemId];
      assert req.items[..i + 1][..i] == req.items[..i];
      var checked := CheckItem(c, line);
      if checked.Err? {
        CheckItemsFailurePersists(c, req.items, i + 1);
        return Outcome(Err(checked.error), queried);
      }
      items := items + [checked.value];
      i := i + 1;
    }
    assert req.items[..i] == req.items;
    outcome := Outcome(Ok(items), queried);
  }

  /** Once a prefix of the lines fails, the whole request fails the same way. */
  lemma {:induction false} CheckItemsFailurePersists(c: Catalog, lines: seq<OrderItemInSchema>, n: nat)
    requires n <= |lines| && CheckItems(c, lines[..n]).result.Err?
    ensures CheckItems(c, lines) == CheckItems(c, lines[..n])
    decreases |lines| - n
  {
    if n < |lines| {
      assert lines[..n + 1][..n] == lines[..n];
      CheckItemsFailurePersists(c, lines, n + 1);
    } else {
      assert lines[..n] == lines;
    }
  }
}
