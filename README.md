# Food-ordering backend: order placement and catalog CRUD in Dafny

This project models the two services of a food-ordering backend that share
one relational store. The Restaurant service owns restaurants and their menu
items. The Order service owns orders and their items.

The core is order placement (`create_order`), modelled in three parts:

- **Validation** (module `OrderValidation`). The Restaurant service is a catalog oracle: for every id, the reply
  to `GET /restaurants/{id}` and to `GET /menu-items/{id}`. The restaurant is checked first.
  Then every requested line is checked in request order, and the first failure stops the loop.
  A reply of 404 means not found. A status of 500 or more means service unavailable (503).
  An unavailable item is reported with 404 too. Each accepted line snapshots the item's name and price.
  `Validate` is the specification function, `ValidateOrder` the loop proved equal to it, and the
  lemmas state fail-fast, the snapshot and the exact set of ids queried.
- **Persisting** (module `OrderService`). The header is committed first, and from then on the order
  exists with no items (`Store.Database.InsertOrder`). Then every item is stamped with the new
  order id and committed (`AddOrderItems`). `CreateOrder` ties the stored rows and the response to `Validate`.
  It also proves that reading the order back gives the same response, apart from the id.
- **The tables** (module `Store`). A `Database` class holds four maps keyed by id, with one id
  sequence per table. It also holds the cascades declared on the relationships: deleting a
  restaurant removes its menu items and orders, and deleting an order removes its items.
  Relationship lists are read in ascending id order.

Around the core are the records and the status enumeration (`Models`), and the request and
response bodies with their declared bounds and defaults (`Schemas`). Decoding a request applies
the defaults and rejects, with 422, exactly the bodies that no valid instance fits. Last come the
order and restaurant handlers (`OrderService`, `RestaurantService`).

Behaviour of the code that the model keeps as it is:

- A transport error while calling the Restaurant service is not caught, so the answer is 500, not 503.
  The same holds for a non-404, non-5xx reply whose body is not a menu item.
- The order header and its items are committed in two separate steps.
- Any status may follow any status. `change-status` enforces no transition table.
- An order request with an empty `items` list is accepted.
- Nothing checks that a requested menu item belongs to the ordered restaurant (`ForeignMenuItemAccepted`).

## Model

| member | source | states |
|---|---|---|
| `Models.ParseStatus` | common/database/models.py:34-39 | a status token is accepted exactly when it is the value of some status, and then decodes to that status |
| `Models.StatusesEnumerated` | common/database/models.py:34-39 | the enumeration has exactly five members with five distinct string values |
| `Models.StatusRoundTrip` | common/database/models.py:34-39 | every status decodes back from its string value |
| `Models.DefaultsAreValid` | common/database/models.py:20-70 | a row built with the column defaults has price 0, is available, has quantity 1 and status pending, and meets its declared bounds |
| `Schemas.DecodeOrderItem` | common/database/schemas.py:29-31 | an order line decodes with quantity defaulting to 1; it is rejected with 422 exactly when no valid line (quantity at least 1) fits the body |
| `Schemas.DecodeOrderItems` | common/database/schemas.py:53 | the items list decodes exactly when every line does, line by line and in order; one bad line rejects it |
| `Schemas.DecodeOrder` | common/database/schemas.py:48-53 | an order body decodes to a request that fits it and meets the bounds (name and phone at most 100, address at most 255); it is rejected exactly when no valid request fits |
| `Schemas.EmptyItemsAccepted` | common/database/schemas.py:53 | a request with an empty items list is accepted |
| `Schemas.DecodeMenuItem` | common/database/schemas.py:13-18 | a menu item body decodes with price 0 and availability true by default; it is rejected exactly when no valid schema (price at least 0, name and category at most 255) fits |
| `Schemas.BuildOrderOut` | common/database/schemas.py:33-45 | constructing an output order fails when `status` is not passed, since it has no default; otherwise it succeeds exactly when the bounds hold, with the fields given; every failure is the unhandled validation error (500) |
| `Schemas.BuildOrderOutIgnoresId` | common/database/schemas.py:39-40 | whether an output order can be built does not depend on its optional id |
| `Store.RowsExact` | common/database/models.py:16-58 | a relationship list (a restaurant's `menu_items`, an order's `items`) holds only the rows whose foreign key names the parent, and every one of them |
| `Store.Database.InsertOrder` | order-service/main.py:81-83 | after the header commit the order is stored under a fresh id and has no items |
| `Store.Database.InsertOrderItem` | order-service/main.py:85-89 | an added item gets the next id and is appended to its order's item listing |
| `Store.Database.InsertMenuItem` | restaurant-service/main.py:102-105 | an added menu item gets the next id and is appended to its restaurant's menu |
| `Store.Database.DeleteOrder` | common/database/models.py:58 | deleting an order removes it and exactly the items that reference it |
| `Store.Database.DeleteRestaurant` | common/database/models.py:16-17 | deleting a restaurant removes it, exactly its menu items and orders, and exactly the items of those orders; the invariant is kept |
| `OrderValidation.CheckRestaurant` | order-service/main.py:46-51 | restaurant 404 gives not found, 500 and above gives 503, a transport error gives 500, and any other status lets validation continue |
| `OrderValidation.CheckItemCases` | order-service/main.py:54-72 | a line passes exactly when its reply is neither 404 nor 5xx and carries an available menu item; a passed line is the snapshot of that reply; 404 gives not found, 5xx gives 503, a transport error or a reply without a body gives 500, and an unavailable item gives the not-available 404 |
| `OrderValidation.UnavailableReportedAsNotFound` | order-service/main.py:61-64 | an unavailable item fails with the same 404 status as a missing one |
| `OrderValidation.CheckItemsSucceeds` | order-service/main.py:53-72 | the lines pass exactly when each line passes; then every id was queried in request order and the result has one snapshot per line in request order |
| `OrderValidation.CheckItemsFailsFast` | order-service/main.py:53-64 | when line k is the first to fail, validation fails with its error and has queried exactly the ids of lines 0 to k |
| `OrderValidation.SomeLineFailsFirst` | order-service/main.py:53-64 | if some line fails, there is a first failing line |
| `OrderValidation.CheckItemsFailurePersists` | order-service/main.py:53-64 | once a prefix of the lines fails, the whole request fails with the same outcome |
| `OrderValidation.RestaurantCheckedFirst` | order-service/main.py:45-53 | when the restaurant reply stops validation, no menu item is queried |
| `OrderValidation.SnapshotsAreValid` | order-service/main.py:66-71 | over a catalog whose bodies keep the menu item bounds, every snapshot has price at least 0, quantity at least 1 and a name of at most 255 |
| `OrderValidation.ValidateOrder` | order-service/main.py:44-72 | the validation loop returns exactly the outcome and the query sequence of `Validate` |
| `OrderService.GetOrderById` | order-service/main.py:33-39 | an absent id gives 404; otherwise the response is exactly the order's id, customer name, phone, delivery address and status with its items in order and passes the output schema; for an existing order it succeeds exactly when the output schema holds, and otherwise gives 500 |
| `OrderService.NewOrder` | order-service/main.py:74-79 | the header copies the request's customer name, phone, delivery address and restaurant id, has no id, and takes status pending by default |
| `OrderService.CreateResponseAsWrittenFails` | order-service/main.py:92-104 | the response as the handler builds it, without `status`, fails for every order |
| `OrderService.CreateResponseSucceeds` | order-service/main.py:92-104 | with the status passed, the response is built for every valid order with valid items, with that status and the snapshots |
| `OrderService.ResponseRoundTrip` | order-service/main.py:92-104 | the response built at creation equals the response for the stored order, except for the id |
| `OrderService.OutItemsStamped` | order-service/main.py:85-87 | stamping the order id and row ids leaves the client-visible lines unchanged |
| `OrderService.AddOrderItems` | order-service/main.py:85-90 | the order's item listing becomes the items stamped with its id and consecutive row ids, in request order; no other row changes |
| `OrderService.CreateOrder` | order-service/main.py:42-104 | a failed validation returns its error and writes nothing; otherwise the header is stored under the next order id, the new order's items are the validated snapshots stamped with consecutive fresh ids, every existing order item keeps its value and no other row is added, the response follows `Validate`, reading the order back gives the response, and over a well-formed catalog the response succeeds with status pending |
| `OrderService.ChangeOrderStatus` | order-service/main.py:107-118 | an unknown id gives 404; otherwise only the status changes, to the given value whatever it was |
| `OrderService.DeleteOrder` | order-service/main.py:121-128 | an unknown id gives 404 and changes nothing; otherwise the order and exactly its items are removed, every other order item keeps its value, and a later lookup gives 404 |
| `OrderService.ValidateAgainstTables` | order-service/main.py:46-72 | against a healthy Restaurant service over the same tables, validation passes exactly when the restaurant exists and every item exists and is available, and each snapshot carries the item's current name and price |
| `OrderService.ForeignMenuItemAccepted` | order-service/main.py:53-72 | an order with restaurant 1 validates with a menu item that belongs to restaurant 2 |
| `RestaurantService.CreateRestaurant` | restaurant-service/main.py:36-46 | the new restaurant gets the next id and copies name, description and address |
| `RestaurantService.GetRestaurantById` | restaurant-service/main.py:49-54 | returns the restaurant with that id, or 404 exactly when it is absent |
| `RestaurantService.UpdateRestaurant` | restaurant-service/main.py:65-76 | an absent id gives 404; otherwise exactly name, description and address are overwritten and the id is kept |
| `RestaurantService.DeleteRestaurant` | restaurant-service/main.py:79-86 | an absent id gives 404 and changes nothing; otherwise the restaurant goes with its menu items, its orders and their items, and every surviving menu item, order and order item keeps its value |
| `RestaurantService.AddMenuItem` | restaurant-service/main.py:89-108 | an absent restaurant gives 404; otherwise the new item belongs to the path's restaurant, copies the five schema fields and ends that restaurant's menu |
| `RestaurantService.AvailableOnly` | restaurant-service/main.py:119-120 | the filtered list holds exactly the available items, each as many times as in the input, in their original order |
| `RestaurantService.GetRestaurantMenuItems` | restaurant-service/main.py:111-121 | an absent restaurant gives 404; otherwise the listing is that restaurant's menu, or with `only_available` exactly its available items with their multiplicities, in menu order |
| `RestaurantService.GetMenuItemById` | restaurant-service/main.py:124-129 | returns the menu item with that id, or 404 exactly when it is absent |
| `RestaurantService.UpdateMenuItem` | restaurant-service/main.py:132-146 | an absent id gives 404; otherwise name, description, price, availability and category are overwritten, the id and restaurant are kept, and no order item changes |
| `RestaurantService.DeleteMenuItem` | restaurant-service/main.py:149-156 | an absent id gives 404; otherwise the item is removed and returned |

## Findings

| source | as written | input that shows it | evidently intended | confidence | as-written member | corrected member |
|---|---|---|---|---|---|---|
| order-service/main.py:92-104 | the response `OrderOutSchema(...)` is built without `status`, which is declared with no default (common/database/schemas.py:45); the validation error raised there becomes a 500, after both commits have stored the order | any placement that passes validation, e.g. restaurant 1 with one available item | the response carries the stored order's status (pending) | not executed; high: a pydantic field without a default is required | `OrderService.CreateResponseAsWritten`, `OrderService.CreateResponseAsWrittenFails` | `OrderService.CreateResponse`, `OrderService.CreateResponseSucceeds` (used by `OrderService.CreateOrder`) |

## Left out

- HTTP transport: routing, `httpx.AsyncClient`, URL building and JSON decoding are not modelled. The Restaurant service is a parameter, the catalog oracle (`OrderValidation.Catalog`).
- async/await and concurrent requests are not modelled. Every handler runs sequentially, and isolation between requests is the database's concern.
- Engine, session creation and `init_db` (common/database/dbsetup.py) are not part of this model. `Store.Database` stands for the committed tables.
- Storage failures are not modelled: every commit succeeds. So the window between the two commits is stated (`Store.Database.InsertOrder`), but no failure inside it is modelled.
- The database's own checks are not modelled: foreign keys on `orders.restaurant_id` and `order_items.menu_item_id`, and column lengths. The catalog is independent of the tables, so these keys are not part of `Store.Database.Valid`. Deleting a menu item that an order item references succeeds in the model, though the database would refuse it.
- Relationship lists have no ORDER BY in the queries; the model reads them in ascending id order, which is insertion order.
- `get_restaurant_by_name` is not modelled. With several restaurants of one name it depends on `one_or_none` raising, outside this code.
- `ping`, the startup hooks, `get_all_restaurants` and `get_orders` are not modelled. They are plain full-table listings.
- The restaurant-service handlers return the stored row, and the response-model projection is not modelled. That projection drops a menu item's `restaurant_id`.
- `OrderService.DeleteOrder` and `RestaurantService.DeleteRestaurant` return `Ok(())`; their message text is not modelled.
- The catalog answers each id with one fixed reply, so a request naming the same menu item twice checks both lines against that one reply. The handler sends one GET per line, and two replies for the same id may differ, for example a transient 503 or an item edited in between.
- A request body field given as null and one left out are not distinguished. The body of a 422 answer is not modelled.
- Whether SQLModel enforces `ge=` and `max_length` on table rows is not modelled. The model states them as validity predicates and proves the handlers keep them where their inputs do.
- `OrderValidation.SnapshotsAreValid`: states the order-item bounds only for a catalog whose menu item bodies keep the menu item bounds, because the order service copies name and price from the reply without checking them.
