# E-commerce product and order stores, modelled in Dafny

This project models the stateful core of a small e-commerce backend built from two
services:

- the **product service**, which keeps a table of products. It creates, looks up and
  lists products. It replaces a product's fields wholesale, soft-deletes a product by
  clearing its `active` flag, and adjusts stock by a relative quantity behind a
  non-negativity guard;
- the **order service**, which keeps a table of orders. It creates orders, always with
  status `PENDING`. It overwrites an order's status with no transition table, and
  cancels an order unless it is already `SHIPPED` or `DELIVERED`.

Each table is a class holding a `map<int, Row>` from id to row and the next id to
assign. Each service operation is a method on that class. It returns a `Result`
(`Ok(row)` or a named error) where the Java code throws a `RuntimeException`. Each
guarded update is also specified by a pure function. That function gives the row the
service saves, or the reason it refuses. The method's postcondition ties the returned
value and the new table to that function (`Table.Saved`). A refusal always comes
before any change. The repository queries are pure filters, and one sort, over the
table's rows.

Modules, one per source component: `OrderModel` and `ProductModel` (the records),
`ProductRepository` and `OrderRepository` (the queries), `ProductService` and
`OrderService` (the tables and their operations). Shared helpers: `Outcomes`
(Option/Result), `JavaInt` (Java's 32-bit `int` and its wrapping `+`), `Text` (ASCII
lower-casing, substring search, Java's `trim`) and `Table` (listing a table in id order,
filtering, saving one row). `ProductService.StockScenario` and
`OrderService.OrderScenario` are client methods. They check, by verification against the
method contracts alone, scenarios of the intended behaviour: a product with stock 10 goes to 7 after
-3, and -8 is then refused; an order posted with status `DELIVERED` is stored
`PENDING`; an order set to `SHIPPED` cannot be cancelled. They extend, and do not
replay, the integration tests, which only create one product and one order.

Modelling choices worth knowing:

- `updateStock` adds with Java `int` semantics (`JavaInt.Add`). When the exact sum fits
  in 32 bits the new stock is exactly `stock + quantity`, and the guard is
  `stock + quantity >= 0`; `ProductService.StockAdjusted` states both. Outside that
  range the sum wraps, as the Java code does. A decrement that passes below -2^31
  comes out non-negative (0 only when both are -2^31) and is accepted. This needs a negative stock. Both
  `createProduct` and `updateProduct` store the stock they are given, negative
  included.
- `updateProduct` copies the stock with no guard, so a negative stock is stored. The
  asymmetry with `updateStock` is kept.
- The `@PreUpdate` hook runs when the persistence layer writes back a changed order
  (`OrderModel.Flush`). A status operation that leaves the order as it was issues no
  update. This covers cancelling an already cancelled order, or overwriting a status
  with the same one. Then `updatedAt` keeps its old value too. Otherwise `updatedAt`
  becomes the `now` the caller passes.
- An order must satisfy its field constraints to be stored: product id, quantity and
  total amount present, quantity at least 1, customer e-mail and name not blank. The
  framework enforces them (`@Valid` on the create endpoint, bean validation on
  persist). The model makes this an explicit `Invalid` refusal in `CreateOrder`, and
  the order table's invariant says every stored order satisfies them. The code puts no
  lower bound on `totalAmount`, so the model does not either.
- The product searches by name and by category do not filter on `active`, so
  soft-deleted products are found by them. The model follows the code here.
- SQL promises no order for `findAll` or for a derived query without `ORDER BY`. The
  model lists such rows in id order, and no contract relies on that order. Each
  listing holds every matching row exactly once. The customer listing sorts newest
  first; orders created at the same instant come out in one fixed order, which is one
  of the orders the database may return.

## Model

| member | source | states |
|---|---|---|
| JavaInt.Add | product-service/src/main/java/com/ecommerce/product/service/ProductService.java:80 | the Java int sum is congruent to the exact sum modulo 2^32; it is exact when the exact sum fits in 32 bits; a negative overflow comes out larger than the addend, a positive one smaller |
| Text.Contains | product-service/src/main/java/com/ecommerce/product/repository/ProductRepository.java:13 | true exactly when the second string occurs at some index of the first |
| Text.Lower | product-service/src/main/java/com/ecommerce/product/repository/ProductRepository.java:13-15 | lower-casing keeps the length and maps each character through ASCII lower-casing |
| Text.LowerChar | product-service/src/main/java/com/ecommerce/product/repository/ProductRepository.java:13-15 | upper-case ASCII letters move 32 code points to their lower-case form; every other character is kept |
| Text.TrimStart | order-service/src/main/java/com/ecommerce/order/model/Order.java:39-43 | the result is a suffix of the input, everything dropped is at or below the space, and a non-empty result starts above the space |
| Text.TrimEnd | order-service/src/main/java/com/ecommerce/order/model/Order.java:39-43 | the result is a prefix of the input, everything dropped is at or below the space, and a non-empty result ends above the space |
| Text.NotBlankIffVisibleChar | order-service/src/main/java/com/ecommerce/order/model/Order.java:39-43 | after Java's trim a string is non-empty exactly when it holds a character above the space |
| Table.InIdOrder | order-service/src/main/java/com/ecommerce/order/service/OrderService.java:26-29 | the listing is no longer than the range, holds exactly the rows whose ids lie in the range, and holds each row once per id in the range that stores it |
| Table.AllInIdOrder | order-service/src/main/java/com/ecommerce/order/service/OrderService.java:26-29 | when all ids lie in the range, the listing holds exactly the stored rows; when no two ids store the same row, each stored row appears exactly once |
| Table.DistinctHeldOnce | order-service/src/main/java/com/ecommerce/order/service/OrderService.java:26-29 | when all ids lie in the range and no two ids store the same row, each stored row is stored under exactly one id and any other row under none |
| Table.Get | order-service/src/main/java/com/ecommerce/order/service/OrderService.java:31-34 | a lookup by id returns the row stored under it, and nothing exactly when the id is absent |
| Table.Filter | product-service/src/main/java/com/ecommerce/product/repository/ProductRepository.java:17 | a query keeps a row exactly when it matches, with the row's multiplicity in the input, and never returns more rows than it reads |
| Table.Any | product-service/src/main/java/com/ecommerce/product/repository/ProductRepository.java:22 | true exactly when some row matches |
| Table.Saved | product-service/src/main/java/com/ecommerce/product/service/ProductService.java:61-87 | a refused update leaves the table unchanged; a successful one stores its row under the id; every other row stays |
| ProductRepository.FindByActiveTrue | product-service/src/main/java/com/ecommerce/product/repository/ProductRepository.java:17 | exactly the active products, each as often as in the table |
| ProductRepository.FindAllInStock | product-service/src/main/java/com/ecommerce/product/repository/ProductRepository.java:19-20 | exactly the products with stock above 0 that are active |
| ProductRepository.FindByNameContainingIgnoreCase | product-service/src/main/java/com/ecommerce/product/repository/ProductRepository.java:13 | exactly the products whose lower-cased name contains the lower-cased text, active or not, each as often as in the input |
| ProductRepository.FindByCategoryIgnoreCase | product-service/src/main/java/com/ecommerce/product/repository/ProductRepository.java:15 | exactly the products whose category equals the given one up to ASCII case, active or not, each as often as in the input |
| ProductRepository.ExistsByNameIgnoreCase | product-service/src/main/java/com/ecommerce/product/repository/ProductRepository.java:22 | true exactly when some product's name equals the given one up to ASCII case |
| ProductRepository.InStockAreActive | product-service/src/main/java/com/ecommerce/product/repository/ProductRepository.java:17-20 | every in-stock product is also returned by the active query |
| ProductRepository.ExistingNameIsFound | product-service/src/main/java/com/ecommerce/product/repository/ProductRepository.java:13-22 | when a name exists up to case, the substring search for it returns something |
| ProductService.Replaced | product-service/src/main/java/com/ecommerce/product/service/ProductService.java:51-63 | succeeds exactly when the id is present; the saved row equals the patch but keeps its id, with no guard on stock; otherwise NotFound(id) |
| ProductService.SoftDeleted | product-service/src/main/java/com/ecommerce/product/service/ProductService.java:67-73 | succeeds exactly when the id is present; the row keeps every field but has active false; otherwise NotFound(id) |
| ProductService.StockAdjusted | product-service/src/main/java/com/ecommerce/product/service/ProductService.java:76-88 | absent id gives NotFound(id); otherwise succeeds exactly when the Java sum is not negative, else InsufficientStock(id); on success only the stock changes, to the Java sum, which is stock + quantity whenever that fits in 32 bits |
| ProductService.UpdatesTouchOnlyTheirRow | product-service/src/main/java/com/ecommerce/product/service/ProductService.java:50-88 | after each of the three updates the set of ids is unchanged and every row other than the targeted one is unchanged |
| ProductService.SoftDeleteIdempotent | product-service/src/main/java/com/ecommerce/product/service/ProductService.java:69-72 | deleting a deleted product succeeds again and leaves the table as one delete did |
| ProductService.RefusedAdjustmentKeepsStock | product-service/src/main/java/com/ecommerce/product/service/ProductService.java:80-84 | an adjustment whose sum is negative is refused with InsufficientStock and the stock stays as it was |
| ProductService.ProductTable.constructor | product-service/src/main/java/com/ecommerce/product/repository/ProductRepository.java:11 | a fresh database: the product table is empty and meets its invariant; the model starts the id counter at 1, as an assumption about a fresh database, since the product entity's id strategy is not part of this model |
| ProductService.ProductTable.Listing | product-service/src/main/java/com/ecommerce/product/service/ProductService.java:20-23 | the listing holds exactly the stored products, each once |
| ProductService.ProductTable.CreateProduct | product-service/src/main/java/com/ecommerce/product/service/ProductService.java:44-48 | the product is stored under a fresh id, the next id advances, and no existing row changes |
| ProductService.ProductTable.GetProductById | product-service/src/main/java/com/ecommerce/product/service/ProductService.java:25-28 | returns the row under the id whatever its active flag, and nothing when the id is absent |
| ProductService.ProductTable.GetAllProducts | product-service/src/main/java/com/ecommerce/product/service/ProductService.java:20-23 | exactly the stored products that are active, each once |
| ProductService.ProductTable.SearchByName | product-service/src/main/java/com/ecommerce/product/service/ProductService.java:30-33 | exactly the stored products whose name contains the text up to case, each once |
| ProductService.ProductTable.GetByCategory | product-service/src/main/java/com/ecommerce/product/service/ProductService.java:35-38 | exactly the stored products whose category matches up to case, each once |
| ProductService.ProductTable.GetInStockProducts | product-service/src/main/java/com/ecommerce/product/service/ProductService.java:40-42 | exactly the stored products that are active with positive stock, each once |
| ProductService.ProductTable.UpdateProduct | product-service/src/main/java/com/ecommerce/product/service/ProductService.java:50-64 | returns what Replaced gives and saves that row, if any; the table invariant and the next id are kept |
| ProductService.ProductTable.DeleteProduct | product-service/src/main/java/com/ecommerce/product/service/ProductService.java:66-73 | succeeds exactly when the id is present, else NotFound(id); saves the soft-deleted row; afterwards the product is still found by id but is not in the full listing |
| ProductService.ProductTable.UpdateStock | product-service/src/main/java/com/ecommerce/product/service/ProductService.java:75-88 | returns what StockAdjusted gives and saves that row, if any; a refusal leaves the table unchanged |
| OrderModel.SevenStatuses | order-service/src/main/java/com/ecommerce/order/model/Order.java:60-68 | the status enumeration has exactly seven distinct values, in declaration order |
| OrderModel.Build | order-service/src/main/java/com/ecommerce/order/model/Order.java:14-53 | a built order has status PENDING and creation time now by default, no id and no update time, and the given fields |
| OrderModel.ValidityIgnoresBookkeeping | order-service/src/main/java/com/ecommerce/order/model/Order.java:21-44 | whether an order satisfies its field constraints does not depend on its id, status or update time |
| OrderModel.ValidOrderIff | order-service/src/main/java/com/ecommerce/order/model/Order.java:21-44 | an order satisfies its field constraints exactly when product id, quantity and total amount are present, the quantity is at least 1, and the customer e-mail and name are present and each holds a character above the space |
| OrderModel.TestOrderIsValid | order-service/src/test/java/com/ecommerce/order/OrderServiceApplicationTests.java:45-52 | the order the integration test posts satisfies the field constraints and is PENDING as built |
| OrderModel.PreUpdate | order-service/src/main/java/com/ecommerce/order/model/Order.java:55-58 | sets the update time to now and changes no other field |
| OrderModel.Flush | order-service/src/main/java/com/ecommerce/order/model/Order.java:55-58 | the written-back order is the modified one; its update time moves to now exactly when it differs from the loaded one |
| OrderRepository.FindByCustomerEmail | order-service/src/main/java/com/ecommerce/order/repository/OrderRepository.java:12 | exactly the orders with that customer e-mail, each as often as in the table |
| OrderRepository.FindByStatus | order-service/src/main/java/com/ecommerce/order/repository/OrderRepository.java:14 | exactly the orders with that status, each as often as in the table |
| OrderRepository.FindByProductId | order-service/src/main/java/com/ecommerce/order/repository/OrderRepository.java:16 | exactly the orders for that product id, each as often as in the table |
| OrderRepository.PrependNewest | order-service/src/main/java/com/ecommerce/order/repository/OrderRepository.java:18 | an order no older than every order of a newest-first sequence can head it |
| OrderRepository.Insert | order-service/src/main/java/com/ecommerce/order/repository/OrderRepository.java:18 | inserting into a newest-first sequence adds exactly that order and keeps it newest first |
| OrderRepository.SortByCreatedAtDesc | order-service/src/main/java/com/ecommerce/order/repository/OrderRepository.java:18 | the result is a permutation of the input with creation times non-increasing |
| OrderRepository.FindByCustomerEmailOrderByCreatedAtDesc | order-service/src/main/java/com/ecommerce/order/repository/OrderRepository.java:18 | the same orders, with the same multiplicities, as the e-mail query, newest first |
| OrderService.StatusOverwritten | order-service/src/main/java/com/ecommerce/order/service/OrderService.java:56-63 | succeeds exactly when the id is present, for any old and new status, else NotFound(id); only status and update time change; the update time moves exactly when the status changes |
| OrderService.CancelApplied | order-service/src/main/java/com/ecommerce/order/service/OrderService.java:67-78 | absent id gives NotFound(id); SHIPPED or DELIVERED gives CannotCancel(status); every other status succeeds with CANCELLED, changing only status and update time |
| OrderService.OverwriteTouchesOnlyItsRow | order-service/src/main/java/com/ecommerce/order/service/OrderService.java:58-62 | after a status overwrite the ids and all other rows are unchanged, the creation time is kept, and a valid order stays valid |
| OrderService.CancelTouchesOnlyItsRow | order-service/src/main/java/com/ecommerce/order/service/OrderService.java:69-77 | after a cancel the ids and all other rows are unchanged, the creation time is kept, and a valid order stays valid |
| OrderService.RefusedCancelKeepsOrder | order-service/src/main/java/com/ecommerce/order/service/OrderService.java:71-74 | cancelling a SHIPPED or DELIVERED order is refused with its status and leaves the table, update time included, unchanged |
| OrderService.CancelIdempotent | order-service/src/main/java/com/ecommerce/order/service/OrderService.java:75-76 | cancelling a cancelled order succeeds again, at any later time, and leaves the table as the first cancel did |
| OrderService.ShippedThenCancelRefused | order-service/src/main/java/com/ecommerce/order/service/OrderService.java:60-74 | after overwriting the status with SHIPPED a cancel is refused with SHIPPED and the order stays SHIPPED |
| OrderService.SavingKeepsWellFormed | order-service/src/main/java/com/ecommerce/order/service/OrderService.java:50-76 | saving a valid order under its own id, either an existing id or the next one, keeps the table invariant |
| OrderService.OrderTable.constructor | order-service/src/main/java/com/ecommerce/order/model/Order.java:17-19 | a fresh database: the table is empty, meets its invariant, and its identity counter starts at 1 |
| OrderService.OrderTable.Listing | order-service/src/main/java/com/ecommerce/order/service/OrderService.java:26-29 | the listing holds exactly the stored orders, each once |
| OrderService.OrderTable.CreateOrder | order-service/src/main/java/com/ecommerce/order/service/OrderService.java:47-53 | succeeds exactly when the order satisfies its constraints, else Invalid with nothing changed; the stored order is the input with status PENDING whatever it carried, under a fresh id; no existing row changes |
| OrderService.OrderTable.GetAllOrders | order-service/src/main/java/com/ecommerce/order/service/OrderService.java:26-29 | exactly the stored orders, each once |
| OrderService.OrderTable.GetOrderById | order-service/src/main/java/com/ecommerce/order/service/OrderService.java:31-34 | the order under the id, or nothing when it is absent |
| OrderService.OrderTable.GetOrdersByCustomer | order-service/src/main/java/com/ecommerce/order/service/OrderService.java:36-39 | exactly the stored orders of that customer, each once, newest first |
| OrderService.OrderTable.GetOrdersByStatus | order-service/src/main/java/com/ecommerce/order/service/OrderService.java:41-44 | exactly the stored orders with that status, each once |
| OrderService.OrderTable.UpdateOrderStatus | order-service/src/main/java/com/ecommerce/order/service/OrderService.java:55-64 | returns what StatusOverwritten gives and saves that row, if any; the table invariant and the next id are kept |
| OrderService.OrderTable.CancelOrder | order-service/src/main/java/com/ecommerce/order/service/OrderService.java:66-79 | returns what CancelApplied gives and saves that row, if any; a refusal leaves the table unchanged |

## Left out

- Table.InIdOrder: its contract states which rows a listing holds and how often, not that they come in ascending id order, because SQL promises no order here and no contract relies on it.
- HTTP controllers, request routing, the mapping of errors to 404/400 responses and the gateway fallback payloads: web plumbing with no state of its own.
- Logging, transactions, dependency injection and the JPA persistence layer: each service call is one atomic update of an in-memory map, so concurrent requests and their read-modify-write races are not modelled.
- The `RestTemplate` and product-service URL in the order service: no operation uses them.
- The `@Email` format constraint: a library regular expression; only the not-blank part of the e-mail constraint is modelled.
- `BigDecimal` price and total amount: they are only stored, so they are integers in minor units.
- `LocalDateTime.now()`: the clock is the `now` parameter of the operations and of `OrderModel.Build`.
- Unicode case mapping: the case-insensitive queries use ASCII lower-casing.
- Ids are unbounded integers; the 64-bit range of `Long` ids is not modelled.
- A caller-supplied id on create: the persistence layer would merge such an entity into an existing row, but the model always inserts under a fresh id.
- The `Product` entity class is not part of this model. Its fields are those the service sets; its nullability and its validation constraints, if any, are unknown, so products are stored as given and no product field is nullable.
- A null order status or creation time: both are always present in the model.
- `deleteAll` (used only by the tests to reset a table).
