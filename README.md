# Order lifecycle of a restaurant ordering backend

This project models the core of a small FastAPI/SQLAlchemy backend for a
restaurant menu: the repository that creates, cancels and advances orders,
the order status enumeration it relies on, and the dish repository whose
table orders are checked against.

- The database session is a `Session` object with two tables, `dishes:
  map<int, Dish>` and `orders: map<int, Order>`, and the next id each table
  assigns. `Valid()` says every row is stored under its own id and every id
  in use is below the next one. Both repositories hold the same session
  (`const db`), as the repositories hold `self.db`. Their methods change the
  tables in place (`modifies db`).
- An `HTTPException` becomes `Raised(code, kind)` in `Result<T>`. `code` is
  the HTTP status (404 or 400) and `kind` says which of the raises it was.
- `OrderStatus` is the datatype `Status`. `Tag` gives each status its text
  value. `ParseStatus` is the lookup by text value and returns `None` where
  the source raises `ValueError`. `StatusOrder` is the fixed forward list,
  and `Position` is its `index`.
- `Advances(cur, new)` is the index check `Position(new) == Position(cur) + 1`.
  It is proved equal to an independent, case-by-case `Successor` function.
- Creating an order runs the query "dishes whose id is in the request"
  (`QueryDishes`). It then compares the number of rows found with the number
  of ids requested. `Tables.FoundCount` proves that these numbers are equal
  exactly when every id is known and no id is repeated. So a request that
  names a dish twice is refused like one that names an unknown dish.
- `Lifecycle` holds two client methods. Using only the repositories'
  contracts, they prove a whole lifecycle: create dishes, place an order,
  advance it, fail to cancel it, complete it, fail to move it back. They also
  prove that the refused requests are refused.

Three behaviours of the code worth stating:

- A status is requested by its text value ("готовится"), not by its
  identifier ("PREPARING"). `OrderModel.NamesNotRecognised` proves that an
  identifier is refused with 400.
- The dish ids of an order are a list, and the count comparison rejects a
  repeated id. Set semantics would accept it.
- Deleting a dish does not look at orders.

## Model

| member | source | states |
|---|---|---|
| `OrderModel.Tag` | src/models/order.py:17-20 | computes the text value each status is declared with, which is what a status update request names |
| `OrderModel.Name` | src/models/order.py:17-20 | computes the identifier each status is declared under (not accepted as request text) |
| `OrderModel.StatusOrder` | src/repositories/order.py:42 | the forward ordering IN_PROCESSING, PREPARING, DELIVERING, COMPLETED, as one fixed list |
| `OrderModel.Advances` | src/repositories/order.py:48-51 | computes the transition check: the requested status's index is the current status's index plus one |
| `OrderModel.NewOrder` | src/repositories/order.py:20 | computes a newly constructed order: the given id, customer and dishes, with the column default status IN_PROCESSING (src/models/order.py:28) |
| `DishModel.FromInput` | src/repositories/dish.py:13 | computes the dish row built from a create request's fields and the id the table assigns |
| `OrderModel.TagsDistinct` | src/models/order.py:16-20 | the four statuses have pairwise distinct text values |
| `OrderModel.ParseStatus` | src/repositories/order.py:43-46 | lookup by text yields a status whose text value is exactly the input, and fails exactly when no status has that text value |
| `OrderModel.ParseTag` | src/models/order.py:16-20 | looking up a status's own text value gives that status back (round trip) |
| `OrderModel.NamesNotRecognised` | src/repositories/order.py:44 | a status's declared identifier is not accepted as status text |
| `OrderModel.StatusOrderLists` | src/repositories/order.py:42 | the forward ordering has four entries, no repeats, and lists every status, so the enumeration has exactly four values |
| `OrderModel.IndexIn` | src/repositories/order.py:48-49 | the list `index` returns a position holding the status, with no earlier occurrence |
| `OrderModel.Position` | src/repositories/order.py:48-49 | every status has a position in the forward ordering, and the ordering at that position is the status |
| `OrderModel.AdvancesIsSuccessor` | src/repositories/order.py:42-52 | the index check accepts a move iff the requested status is the next stage: IN_PROCESSING→PREPARING→DELIVERING→COMPLETED, nothing after COMPLETED |
| `OrderModel.TransitionRejections` | src/repositories/order.py:51-52 | the check rejects no-ops, backward moves, skips, any move out of COMPLETED, and any move into IN_PROCESSING |
| `OrderModel.RunMovesForward` | src/repositories/order.py:48-54 | after a series of accepted updates the status is exactly that many stages further on, so an order accepts at most three updates in its life |
| `Tables.FoundCount` | src/repositories/order.py:16-17 | the number of distinct known ids never exceeds the number requested, and equals it iff every id is known and none repeats |
| `Tables.Rows` | src/repositories/dish.py:10 | listing a table yields each key once, and for each key the row stored under it |
| `DishRepo.DishRepository.constructor` | src/repositories/dish.py:6-7 | the repository works on the session it is given |
| `DishRepo.DishRepository.GetAll` | src/repositories/dish.py:9-10 | returns exactly the dishes in the table, each once |
| `DishRepo.DishRepository.Create` | src/repositories/dish.py:12-17 | stores and returns one dish under a fresh id with the request's fields; other dishes and all orders unchanged |
| `DishRepo.DishRepository.Delete` | src/repositories/dish.py:19-24 | removes and returns the dish if present, else returns None and changes nothing; orders are never consulted or changed |
| `OrderRepo.OrderRepository.constructor` | src/repositories/order.py:9-10 | the repository works on the session it is given |
| `OrderRepo.OrderRepository.GetAll` | src/repositories/order.py:12-13 | returns exactly the orders in the table, each once |
| `OrderRepo.OrderRepository.QueryDishes` | src/repositories/order.py:16 | returns the table's dishes whose id is requested, each once and all of them, as many as there are distinct known ids |
| `OrderRepo.OrderRepository.Create` | src/repositories/order.py:15-25 | fails with 400 and stores nothing iff some id is unknown or repeated; otherwise stores exactly one new order with a fresh id, the customer name, status IN_PROCESSING and the resolved dishes, and leaves every other order and dish unchanged |
| `OrderRepo.OrderRepository.Cancel` | src/repositories/order.py:27-35 | 404 and no change for an unknown id; 400 and no change (the order stays) when its status is not IN_PROCESSING; otherwise removes exactly that order and returns it as it was |
| `OrderRepo.OrderRepository.UpdateStatus` | src/repositories/order.py:37-57 | 404 for an unknown id whatever the text; then 400 for text that names no status; then 400 unless the requested status is the immediate successor. It succeeds iff all three checks pass. On success only that order's status changes, and the updated order is returned. On failure nothing changes |
| `Lifecycle.PlaceAndAdvance` | src/repositories/order.py:15-57 | an order placed with two dishes starts IN_PROCESSING and advances to PREPARING, DELIVERING, COMPLETED. A cancel while DELIVERING is refused with 400. The completed order keeps its id, customer and dishes. A move back is refused with 400 |
| `Lifecycle.RefusedRequests` | src/repositories/order.py:15-46 | a repeated dish id is refused with 400, cancelling an unknown order with 404, and a status given by identifier with 400. Deleting a dish leaves the order that was placed with it stored, with the same customer and status |

## Left out

- The HTTP service layer is not modelled. It only delegates to the repositories and wires dependencies.
- Request/response schema validation and serialisation are not modelled. Only the fact that the dish ids are a list shapes the model.
- Session mechanics are not modelled: `commit`, `refresh`, transactions, lazy relationship loading and the join-table layout. Each successful operation is one atomic update of the maps.
- Database row order is not modelled. `GetAll` and `QueryDishes` promise which rows they return, not in what order. `QueryDishes` lists them in request order.
- An order's `dishes` are a snapshot of the rows found at creation. The model does not capture a reload through the join table after a referenced dish is deleted. It also does not capture foreign-key enforcement by the storage engine.
- `order_time` is not modelled. It comes from the database clock.
- The dish `price` is a floating-point value. It is carried opaquely and never reasoned about.
- The exception detail texts are not modelled. Only the HTTP code and the kind of error are kept.
- Concurrent updates to the same order are not modelled.
- `customer_name` being non-null is implicit: a Dafny `string` always has a value.
- Ids start at 1 and are never reused. This stands in for the database's autoincrement.
