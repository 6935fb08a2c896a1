# ordermaker in Dafny

A model of the ordermaker service's core: a versioned product catalogue and
the pricing of orders placed against it.

- **PRODUCTS.** The table keeps every version of every product. Creating a
  product stores version 1 with `latest = TRUE`. Updating a product clears
  `latest` on its current top version and appends version count + 1.
- **ORDERS and ORDERS_PRODUCTS.** Placing an order stores one ORDERS row.
  It then pins each requested product at its current version number in
  ORDERS_PRODUCTS.
- **Costs.** An order's cost is the sum of the prices of its pinned
  versions. It never moves, whatever later updates do. Recalculating an
  order sums the current latest prices of its pinned products instead.
- **Controller.** It refuses to place an order whose product set is
  missing, empty or names a product that was never created. It answers
  not-found for an unknown orderId.

The database is one object, `Store.Database`. It holds the three tables as
sequences of rows and the two SQL sequences as counters. Its invariant
`Tables.Consistent` says:

- the versions of every productId are exactly 1..N, in insertion order;
- exactly the top version is `latest`;
- order ids are increasing and below the order counter;
- product ids are below the product counter;
- every pin names an existing (productId, version);
- no order pins a product twice.

The modules follow the program:

- the repositories (`ProductRepository`, `OrderRepository`,
  `OrderProductRepository`) are the SQL statements over that object;
- the services (`ProductService`, `OrderService`) map rows to products and
  orders and compute costs;
- `OrderController` holds the two branches of the REST layer that decide
  something.

The queries and stream pipelines are functions over table snapshots. The
query callbacks that fill a set row by row, and `save`'s loop over the
product set, are methods with loops. The callbacks are proved to return what those functions compute. The save loop takes the products in whatever order the set yields them, and is proved to pin each requested product once. A
`TreeSet` built with `Comparator.comparingLong(key)` is `TreeSets.Collect`:
sorted by key, with one element kept per key. `Scenario` replays the
repository's integration test through the model, from a fresh database and
call by call:

- the probes of the empty store miss, and the three malformed placements
  are refused;
- ten products are created, the active list has ten entries, and each reads
  back as created;
- order 1 is placed for products 1..5 and costs 17.5;
- product 1 is updated to price 1000;
- order 1 still costs 17.5, and recalculating it gives 1016;
- order 2, placed for the same set, costs 1016.

Lines 69 and 114 of the test re-check the product listing taken earlier
instead of the response just received. The replay states what the new
responses hold: no orders in the window, and ten active products.

Decisions the code leaves open:

- The definition of the `ACTIVE_PRODUCTS` view is not in the Java code. The
  view is taken to select the PRODUCTS rows with `latest = TRUE`, which is
  what `lockProduct`'s query uses.
- The Java DAO and `Product` classes define no `equals`. So each `HashSet`
  the code fills holds one entry per row read, and is modelled as a
  sequence of those rows. `Collectors.toSet()` in
  `getProductsWithLatestPriceForOrder` likewise keeps one product per pin.
- Prices are exact `real`s. Times, ids and versions are unbounded integers.

## Model

| member | source | states |
|---|---|---|
| TreeSets.Add | src/main/java/com/challenge/ordermaker/service/OrderService.java:74 | adding to a key-ordered TreeSet keeps it strictly ordered and its keys become the old keys plus the new element's key |
| TreeSets.AddContents | src/main/java/com/challenge/ordermaker/service/OrderService.java:74 | an element whose key is present leaves the set unchanged; otherwise exactly that element is added |
| TreeSets.Collect | src/main/java/com/challenge/ordermaker/service/ProductService.java:32-35 | collecting into the TreeSet gives a strictly key-ordered set with exactly the keys of the input, drawn from the input |
| TreeSets.CollectKeepsAll | src/main/java/com/challenge/ordermaker/service/OrderService.java:40-43 | when the input keys are distinct, the TreeSet holds every input element (same multiset, same size) |
| TreeSets.KeepsAllMembers | src/main/java/com/challenge/ordermaker/service/OrderService.java:40-43 | with distinct keys an element is in the TreeSet exactly when it was in the input |
| TreeSets.SizeIsKeyCount | src/main/java/com/challenge/ordermaker/service/ProductService.java:31-36 | a key-ordered set has as many elements as distinct keys |
| Tables.RowsAt | src/main/java/com/challenge/ordermaker/repo/H2ProductRepository.java:54 | the rows selected by productId and version are exactly the stored rows with both |
| Tables.LatestOf | src/main/java/com/challenge/ordermaker/repo/H2ProductRepository.java:106 | the rows selected by productId and `latest = TRUE` are exactly those stored |
| Tables.ActiveRows | src/main/java/com/challenge/ordermaker/repo/H2ProductRepository.java:24 | the active rows are exactly the stored rows with `latest` set |
| Tables.OrderWithId | src/main/java/com/challenge/ordermaker/repo/H2OrderRepository.java:45 | the orders selected by id are exactly the stored orders with that id |
| Tables.OrdersBetween | src/main/java/com/challenge/ordermaker/repo/H2OrderRepository.java:28 | the orders selected are exactly those with start <= orderTime <= end, both bounds inclusive |
| Tables.PinsOf | src/main/java/com/challenge/ordermaker/repo/H2OrderProductRepository.java:23 | the pins selected are exactly the stored pins of that order |
| Tables.ClearLatest | src/main/java/com/challenge/ordermaker/repo/H2ProductRepository.java:88 | clearing the flag deletes no row and keeps every id, version, name and price; only the flag of the (productId, version) row is cleared |
| Tables.ConsistentTables | src/main/java/com/challenge/ordermaker/repo/H2OrderRepository.java:77-84 | the store invariant implies the read-side well-formedness the services rely on |
| Tables.OrderWithIdAbsent | src/main/java/com/challenge/ordermaker/repo/H2OrderRepository.java:43-51 | an id no order has selects no row |
| Tables.OrderWithIdSingle | src/main/java/com/challenge/ordermaker/repo/H2OrderRepository.java:43-51 | with increasing order ids, a stored order's id selects exactly that order |
| Tables.PinsOfAbsent | src/main/java/com/challenge/ordermaker/repo/H2OrderProductRepository.java:20-32 | an order with no pins gets the empty set |
| Tables.PinsOfAll | src/main/java/com/challenge/ordermaker/repo/H2OrderProductRepository.java:20-32 | when every pin belongs to the order, all are returned in table order |
| Tables.PinsOfAppend | src/main/java/com/challenge/ordermaker/repo/H2OrderProductRepository.java:20-32 | selecting an order's pins distributes over appending pin rows |
| Tables.PinsOfDistinct | src/main/java/com/challenge/ordermaker/repo/H2OrderRepository.java:69-75 | if no order pins a product twice, one order's pins name distinct products |
| Tables.CountAppend | src/main/java/com/challenge/ordermaker/repo/H2ProductRepository.java:99-101 | inserting a row raises its product's count by one and no other |
| Tables.CountOfFreshId | src/main/java/com/challenge/ordermaker/repo/H2ProductRepository.java:66-70 | an id above every stored productId has no rows |
| Tables.CountPositive | src/main/java/com/challenge/ordermaker/repo/H2ProductRepository.java:99-101 | the count is positive exactly when some row has that productId |
| Tables.CountSameIds | src/main/java/com/challenge/ordermaker/repo/H2ProductRepository.java:88 | changing flags, names or prices but not ids leaves every count as it was |
| Tables.CountPrefixMonotone | src/main/java/com/challenge/ordermaker/repo/H2ProductRepository.java:99-101 | the count over a longer prefix is never smaller |
| Tables.SequentialPrefix | src/main/java/com/challenge/ordermaker/repo/H2ProductRepository.java:83-93 | every prefix of a table whose versions run 1..N also does |
| Tables.VersionBounds | src/main/java/com/challenge/ordermaker/repo/H2ProductRepository.java:83-93 | every stored version lies in 1..count |
| Tables.VersionsIncrease | src/main/java/com/challenge/ordermaker/repo/H2ProductRepository.java:90-93 | later rows of a product carry higher versions |
| Tables.VersionExists | src/main/java/com/challenge/ordermaker/repo/H2ProductRepository.java:83-93 | every version 1..count is stored (no gaps) |
| Tables.RowsAtMissing | src/main/java/com/challenge/ordermaker/repo/H2ProductRepository.java:52-62 | a version outside 1..count selects no row |
| Tables.RowsAtSingle | src/main/java/com/challenge/ordermaker/repo/H2ProductRepository.java:52-62 | a stored (productId, version) selects exactly one row |
| Tables.LatestOfIsTop | src/main/java/com/challenge/ordermaker/repo/H2ProductRepository.java:104-114 | when latest marks exactly one version, selecting latest is selecting that version |
| Tables.LatestRow | src/main/java/com/challenge/ordermaker/repo/H2ProductRepository.java:104-114 | on well-formed rows an unknown product has no latest row and a known one has exactly one, at version count |
| Tables.LatestRowIs | src/main/java/com/challenge/ordermaker/repo/H2ProductRepository.java:39-49 | a stored latest row is the only latest row of its product |
| Tables.ActiveRowsDistinct | src/main/java/com/challenge/ordermaker/repo/H2ProductRepository.java:22-36 | the active rows name distinct products |
| Tables.ActiveRowsNoRepeat | src/main/java/com/challenge/ordermaker/repo/H2ProductRepository.java:22-36 | no row is read twice by the active-row query |
| Tables.ConsistentAfterNextval | src/main/java/com/challenge/ordermaker/repo/H2ProductRepository.java:66 | drawing from either sequence keeps the store invariant |
| Tables.ConsistentAfterCreate | src/main/java/com/challenge/ordermaker/repo/H2ProductRepository.java:65-76 | the fresh id has no rows, and inserting version 1 as latest keeps the store invariant |
| Tables.CountAfterUpdate | src/main/java/com/challenge/ordermaker/repo/H2ProductRepository.java:88-93 | an update raises the updated product's count by one and leaves every other count |
| Tables.CountClearedPrefix | src/main/java/com/challenge/ordermaker/repo/H2ProductRepository.java:88 | clearing a flag keeps the count over every prefix |
| Tables.SequentialAfterUpdate | src/main/java/com/challenge/ordermaker/repo/H2ProductRepository.java:88-93 | appending version count + 1 keeps versions running 1..N |
| Tables.TopAfterUpdate | src/main/java/com/challenge/ordermaker/repo/H2ProductRepository.java:88-93 | after the update only the new top version of each product is latest |
| Tables.ConsistentAfterUpdate | src/main/java/com/challenge/ordermaker/repo/H2ProductRepository.java:80-96 | an update of an existing product keeps the store invariant |
| Tables.UpdatedRows | src/main/java/com/challenge/ordermaker/repo/H2ProductRepository.java:88-93 | an update adds exactly one row: the request's name and price at version count + 1, latest; the rows before it are the old rows with the product's latest flag cleared |
| Tables.UpdatedWellFormed | src/main/java/com/challenge/ordermaker/repo/H2ProductRepository.java:80-96 | the updated table is well formed and only the updated product's count grows, by one |
| Tables.ConsistentAfterPlace | src/main/java/com/challenge/ordermaker/repo/H2OrderRepository.java:56-75 | inserting the order and distinct pins of existing versions keeps the store invariant |
| Store.Database.constructor | src/test/java/com/challenge/ordermaker/OrdermakerIntegrationTests.java:123-136 | a fresh store has empty tables and both sequences at 1, so the first product and order get id 1 |
| Store.Database.NextProductId | src/main/java/com/challenge/ordermaker/repo/H2ProductRepository.java:66 | nextval returns the sequence's value and advances it by one, keeping the invariant |
| Store.Database.NextOrderId | src/main/java/com/challenge/ordermaker/repo/H2OrderRepository.java:57 | nextval returns the sequence's value and advances it by one, keeping the invariant |
| ProductRepository.GetAllActive | src/main/java/com/challenge/ordermaker/repo/H2ProductRepository.java:22-36 | the row-by-row loop returns exactly the latest rows |
| ProductRepository.GetActiveForId | src/main/java/com/challenge/ordermaker/repo/H2ProductRepository.java:39-49 | a returned row is stored, latest and of that product |
| ProductRepository.ActiveForIdResult | src/main/java/com/challenge/ordermaker/repo/H2ProductRepository.java:39-49 | on well-formed rows the lookup succeeds exactly for a created product, gives its top version, and otherwise raises the empty-result error |
| ProductRepository.GetForVersion | src/main/java/com/challenge/ordermaker/repo/H2ProductRepository.java:52-62 | a returned row is stored with that productId and version |
| ProductRepository.ForVersionResult | src/main/java/com/challenge/ordermaker/repo/H2ProductRepository.java:52-62 | the lookup succeeds exactly for versions 1..count and otherwise raises the empty-result error |
| ProductRepository.GetLatestVersionNumber | src/main/java/com/challenge/ordermaker/repo/H2ProductRepository.java:99-101 | the count is 0 exactly when no row has that productId |
| ProductRepository.LockProduct | src/main/java/com/challenge/ordermaker/repo/H2ProductRepository.java:104-114 | locking succeeds only for a product with rows |
| ProductRepository.LockResult | src/main/java/com/challenge/ordermaker/repo/H2ProductRepository.java:104-114 | on well-formed rows the lock succeeds exactly for a created product and otherwise raises the empty-result error |
| ProductRepository.Save | src/main/java/com/challenge/ordermaker/repo/H2ProductRepository.java:65-76 | save draws a fresh id, appends exactly one row (version 1, latest, the request's name and price), returns it, and touches nothing else |
| ProductRepository.Update | src/main/java/com/challenge/ordermaker/repo/H2ProductRepository.java:80-96 | an unknown product raises not-found and changes nothing; otherwise the top version's flag is cleared and version count + 1 is appended and returned; orders, pins and sequences are untouched |
| ProductRepository.UpdateClearsOnlyPreviousLatest | src/main/java/com/challenge/ordermaker/repo/H2ProductRepository.java:88 | the update changes exactly the product's previous latest row and no other |
| ProductService.MapDaoToProduct | src/main/java/com/challenge/ordermaker/service/ProductService.java:62-64 | the product carries the row's id, name and price and drops version and latest |
| ProductService.ProductsOf | src/main/java/com/challenge/ordermaker/service/ProductService.java:34-35 | mapping keeps one product per row, in order |
| ProductService.GetActiveProductForId | src/main/java/com/challenge/ordermaker/service/ProductService.java:38-44 | empty exactly when the product was never created; otherwise the id, name and price of its latest row, which is its top version |
| ProductService.GetProductForVersion | src/main/java/com/challenge/ordermaker/service/ProductService.java:54-60 | empty exactly when the version is outside 1..count; otherwise that stored version's id, name and price |
| ProductService.GetLatestVersionNumber | src/main/java/com/challenge/ordermaker/service/ProductService.java:50-52 | the repository's count, unchanged: 0 exactly when no row has that productId |
| ProductService.GetAllActiveProducts | src/main/java/com/challenge/ordermaker/service/ProductService.java:31-36 | sorted by productId, one product per created productId, each being that product's active lookup |
| ProductService.ActiveKeys | src/main/java/com/challenge/ordermaker/service/ProductService.java:34-35 | the active rows' products name exactly the created productIds |
| ProductService.ActiveKey | src/main/java/com/challenge/ordermaker/service/ProductService.java:34-35 | one productId is among the active products exactly when it was created |
| ProductService.ActiveAreLatest | src/main/java/com/challenge/ordermaker/service/ProductService.java:34-35 | every active product equals the active lookup of its id |
| ProductService.CreateProduct | src/main/java/com/challenge/ordermaker/service/ProductService.java:27-29 | returns the new id with the request's name and price; the active lookup then gives it, at version 1 |
| ProductService.UpdateProduct | src/main/java/com/challenge/ordermaker/service/ProductService.java:46-48 | not-found for an unknown product; otherwise the active lookup gives the new name and price and the count grows by one |
| ProductService.CreateKeepsOthers | src/main/java/com/challenge/ordermaker/service/ProductService.java:38-44 | creating a product leaves every other product's active lookup unchanged |
| ProductService.UpdatedLookup | src/main/java/com/challenge/ordermaker/service/ProductService.java:46-48 | after an update the active lookup gives the request's name and price and the count is one more |
| ProductService.UpdateKeepsOthers | src/main/java/com/challenge/ordermaker/service/ProductService.java:46-48 | an update leaves every other product's active lookup unchanged |
| OrderProductRepository.GetAllForOrderId | src/main/java/com/challenge/ordermaker/repo/H2OrderProductRepository.java:20-32 | the row-by-row loop returns exactly the pins of that order, none of another, empty for an order without pins, and changes nothing |
| OrderRepository.RetrieveAllBetween | src/main/java/com/challenge/ordermaker/repo/H2OrderRepository.java:26-40 | the loop returns exactly the orders with start <= orderTime <= end |
| OrderRepository.Get | src/main/java/com/challenge/ordermaker/repo/H2OrderRepository.java:43-51 | a returned order is stored with the requested id |
| OrderRepository.GetResult | src/main/java/com/challenge/ordermaker/repo/H2OrderRepository.java:43-51 | with orderId a key, the lookup succeeds exactly for a stored id and otherwise raises the empty-result error |
| OrderRepository.LockProductAndGetLatestVersionNumber | src/main/java/com/challenge/ordermaker/repo/H2OrderRepository.java:77-84 | on success the product's count (at least 1); on well-formed rows it fails, with the empty-result error, exactly for a product never created |
| OrderRepository.Pick | src/main/java/com/challenge/ordermaker/repo/H2OrderRepository.java:70 | each step of the iteration takes a member of the remaining set |
| OrderRepository.Save | src/main/java/com/challenge/ordermaker/repo/H2OrderRepository.java:54-67 | null set fails; otherwise succeeds exactly when every product exists; on failure orders and pins are rolled back; on success one order row with the fresh id, buyer and time, the old pins untouched and exactly one pin per requested product at its count; PRODUCTS never changes |
| OrderRepository.UpdateProductListInAssociationTable | src/main/java/com/challenge/ordermaker/repo/H2OrderRepository.java:69-75 | the loop over the product set succeeds exactly when every product exists, failing otherwise with the empty-result error; on success the old pins stay a prefix and one pin per requested product, of this order at the product's count, is appended |
| OrderRepository.PinStep | src/main/java/com/challenge/ordermaker/repo/H2OrderRepository.java:70-74 | one more insertion, for a product not yet pinned, extends the pins to the enlarged set of done products, still one per product |
| OrderRepository.PinnedAll | src/main/java/com/challenge/ordermaker/repo/H2OrderRepository.java:56-75 | once every requested product is pinned, each pin is at its product's latest version and the order and pins keep the store invariant |
| OrderService.TotalOrderPrice | src/main/java/com/challenge/ordermaker/service/OrderService.java:69-71 | an empty set of products totals 0 |
| OrderService.TotalConcat | src/main/java/com/challenge/ordermaker/service/OrderService.java:69-71 | the total of two parts is the sum of their totals |
| OrderService.TotalPermutation | src/main/java/com/challenge/ordermaker/service/OrderService.java:69-71 | the total does not depend on the iteration order |
| OrderService.TotalReplace | src/main/java/com/challenge/ordermaker/service/OrderService.java:69-71 | replacing one product changes the total by the difference of the two prices |
| OrderService.TotalWithout | src/main/java/com/challenge/ordermaker/service/OrderService.java:69-71 | taking one product out of a set lowers the total by exactly its price |
| OrderService.ProductsForPins | src/main/java/com/challenge/ordermaker/service/OrderService.java:79-81 | one product per pin, each the stored version the pin names |
| OrderService.GetProductsForOrder | src/main/java/com/challenge/ordermaker/service/OrderService.java:73-83 | the order's products are sorted by productId, name exactly the products it pins, and each is the version one of its pins names |
| OrderService.PinKeys | src/main/java/com/challenge/ordermaker/service/OrderService.java:79-82 | the products read for pins name exactly the pinned productIds |
| OrderService.PinnedHaveProducts | src/main/java/com/challenge/ordermaker/service/OrderService.java:79-82 | every pinned productId has a product among those read for the pins |
| OrderService.ProductsArePinned | src/main/java/com/challenge/ordermaker/service/OrderService.java:79-82 | every product read for the pins is of a pinned productId |
| OrderService.MapDaoToOrder | src/main/java/com/challenge/ordermaker/service/OrderService.java:94-101 | the order carries the row's id, buyer and time; its products, sorted by productId, are exactly the pinned ones, each at its pinned version; its cost is the sum of their prices |
| OrderService.OrderCost | src/main/java/com/challenge/ordermaker/service/OrderService.java:94-101 | the order keeps every pinned product and its cost is the sum of the prices of the pinned versions |
| OrderService.GetOrderForId | src/main/java/com/challenge/ordermaker/service/OrderService.java:46-52 | empty exactly when no order row has that id; otherwise the mapped order of that row |
| OrderService.GetAllOrdersBetweenDates | src/main/java/com/challenge/ordermaker/service/OrderService.java:38-44 | sorted by orderId, exactly the mapped orders of the rows in the inclusive window |
| OrderService.OrdersInRange | src/main/java/com/challenge/ordermaker/service/OrderService.java:42-43 | the mapped in-window orders have distinct ids, so the TreeSet drops none |
| OrderService.OrdersOf | src/main/java/com/challenge/ordermaker/service/OrderService.java:42-43 | one mapped order per row, in order |
| OrderService.OrdersOfMembers | src/main/java/com/challenge/ordermaker/service/OrderService.java:42-43 | an order is among the mapped orders exactly when it is the mapping of one of the rows |
| OrderService.OrdersOfDistinct | src/main/java/com/challenge/ordermaker/service/OrderService.java:42-43 | rows with increasing ids map to orders with distinct ids |
| OrderService.AppendIncreasing | src/main/java/com/challenge/ordermaker/repo/H2OrderRepository.java:57-62 | appending an order with a higher id keeps order ids increasing |
| OrderService.OrdersBetweenIncreasing | src/main/java/com/challenge/ordermaker/repo/H2OrderRepository.java:26-40 | the window query keeps order ids increasing |
| OrderService.ProductsWithLatestPrice | src/main/java/com/challenge/ordermaker/service/OrderService.java:85-92 | one product per pin, each the latest row of the pinned product |
| OrderService.RecalculateOrderAmount | src/main/java/com/challenge/ordermaker/service/OrderService.java:54-63 | not-found exactly when the order does not exist; otherwise the sum of the pinned products' latest prices |
| OrderService.TopVersionIsActive | src/main/java/com/challenge/ordermaker/service/ProductService.java:38-60 | looking up a product's top version gives its active product |
| OrderService.RecalculateMatchesCost | src/test/java/com/challenge/ordermaker/OrdermakerIntegrationTests.java:158-160 | while every pin is at its product's top version, recalculation equals the stored cost |
| OrderService.PlaceOrder | src/main/java/com/challenge/ordermaker/service/OrderService.java:65-67 | succeeds exactly when the set is present and every product exists; then the new order has the fresh id, exactly the requested products at their active name and price, buyer, time and a cost equal to their sum, and recalculating it gives that cost; ORDERS_PRODUCTS keeps its old rows and gains exactly one row per requested product, carrying the new orderId and the product's version count; on failure no order or pin remains |
| OrderService.PlacedOrder | src/main/java/com/challenge/ordermaker/service/OrderService.java:65-67 | the order just placed has exactly the requested products, each active, and recalculates to its cost |
| OrderService.FreshOrderPins | src/main/java/com/challenge/ordermaker/repo/H2OrderRepository.java:69-75 | a new order's pins are exactly those its save added |
| OrderService.ProductsAtTopAreActive | src/test/java/com/challenge/ordermaker/OrdermakerIntegrationTests.java:190-201 | products pinned at their top versions are the active products, so an order placed after an update shows the new price |
| OrderService.SamePinnedProducts | src/main/java/com/challenge/ordermaker/service/OrderService.java:79-81 | two tables resolving the pins alike give the same products |
| OrderService.VersionLookupAfterUpdate | src/main/java/com/challenge/ordermaker/service/ProductService.java:54-60 | an update leaves every existing version readable unchanged |
| OrderService.OrderStableUnderUpdate | src/test/java/com/challenge/ordermaker/OrdermakerIntegrationTests.java:163-175 | a product update changes neither the products nor the cost of any placed order |
| OrderService.LatestPricesAfterUpdate | src/main/java/com/challenge/ordermaker/service/OrderService.java:85-92 | after an update, the latest-price product of a pin is the new one for the updated product and unchanged for the rest |
| OrderService.RecalculateTracksUpdate | src/test/java/com/challenge/ordermaker/OrdermakerIntegrationTests.java:186-188 | an update moves an order's recalculated amount by the price difference if it pins the product and leaves it otherwise |
| OrderService.LatestTotalAfterUpdate | src/main/java/com/challenge/ordermaker/service/OrderService.java:58-59 | the latest-price total of distinct pins moves by the price difference exactly when the updated product is pinned |
| OrderService.UnpinnedLatestAfterUpdate | src/main/java/com/challenge/ordermaker/service/OrderService.java:85-92 | updating a product none of the pins names leaves every latest-price product as it was |
| OrderService.WellFormedAfterUpdate | src/main/java/com/challenge/ordermaker/repo/H2ProductRepository.java:80-96 | an update of a stored product keeps the tables well formed for the services |
| OrderService.PinnedTotalAfterUpdate | src/main/java/com/challenge/ordermaker/service/OrderService.java:58-59 | with the updated product pinned, the total moves by its old and new price difference |
| OrderService.PinnedLatestAfterUpdate | src/main/java/com/challenge/ordermaker/service/OrderService.java:85-92 | with distinct pins, the update replaces exactly one latest-price product |
| OrderService.LatestPriceAt | src/main/java/com/challenge/ordermaker/service/OrderService.java:88-90 | each latest-price product is the active lookup of its pinned product, which exists |
| OrderService.OrderStableUnderPlace | src/main/java/com/challenge/ordermaker/repo/H2OrderRepository.java:69-75 | placing another order leaves every placed order unchanged |
| OrderService.PlaceKeepsEarlierOrders | src/main/java/com/challenge/ordermaker/repo/H2OrderRepository.java:54-75 | when ORDERS_PRODUCTS grows as `save` leaves it (old rows kept, new rows all for a fresh orderId), every order with an older id reads exactly as before |
| OrderService.SequentialAfterCreate | src/main/java/com/challenge/ordermaker/repo/H2ProductRepository.java:65-76 | creating a product keeps versions running 1..N |
| OrderService.VersionLookupAfterCreate | src/main/java/com/challenge/ordermaker/service/ProductService.java:54-60 | creating a product leaves every existing version readable unchanged |
| OrderService.OrderStableUnderCreate | src/main/java/com/challenge/ordermaker/service/OrderService.java:94-101 | creating a product changes no placed order |
| OrderService.ResolveAfterCreate | src/main/java/com/challenge/ordermaker/service/OrderService.java:79-81 | pins that resolve keep resolving after an insertion |
| OrderController.CheckIfAllProductsValid | src/main/java/com/challenge/ordermaker/api/v1/OrderController.java:63-68 | a null or empty set is refused; otherwise refused exactly when some productId has no row |
| OrderController.CheckPassesExactlyForActiveProducts | src/main/java/com/challenge/ordermaker/api/v1/OrderController.java:63-68 | the check lets a set through exactly when it is nonempty and every product in it has an active version |
| OrderController.Place | src/main/java/com/challenge/ordermaker/api/v1/OrderController.java:32-42 | bad request exactly when the check refuses, and then nothing is stored; otherwise one ORDERS row is appended with the fresh id, buyer and time, PRODUCTS is untouched, ORDERS_PRODUCTS keeps its old rows and gains one row per requested product at its version count, and the answer is the order that row now reads as: its products are exactly the requested ones, each at its active version, it costs their sum, and recalculating it gives that same cost |
| OrderController.Get | src/main/java/com/challenge/ordermaker/api/v1/OrderController.java:49-55 | not-found exactly when no order has the id; otherwise the order with that id |
| Scenario.ReplayIntegrationTest | src/test/java/com/challenge/ordermaker/OrdermakerIntegrationTests.java:50-219 | from a fresh database, every call the test makes answers what the test asserts: the probes of the empty store miss or are refused, the ten creates return products 1..10 as named and priced, order 1 lists products 1..5 and costs 17.5 before and after the update while its recalculation moves from 17.5 to 1016, product 1 then reads "new Value" at 1000, and order 2 lists the new version of product 1 and costs 1016 |
| Scenario.ProbeEmptyStore | src/test/java/com/challenge/ordermaker/OrdermakerIntegrationTests.java:52-101 | on an empty store product 999 and order 999 are not found, both listings are empty, updating product 999 and recalculating order 999 raise not-found, and placing with a null, an empty or an unknown product set is refused; nothing is stored and neither sequence moves |
| Scenario.CreateTen | src/test/java/com/challenge/ordermaker/OrdermakerIntegrationTests.java:104-110 | the ten creates return products 1..10 named "Name_i" at i + 0.5, leave exactly those products stored with one version each, and touch neither ORDERS nor its pins |
| Scenario.CreateNext | src/test/java/com/challenge/ordermaker/OrdermakerIntegrationTests.java:105-109 | create number i returns product i, and PRODUCTS becomes the rows of the first i creates with SQ_PRODUCT_ID at i + 1 |
| Scenario.StockRowsConsistent | src/test/java/com/challenge/ordermaker/OrdermakerIntegrationTests.java:104-110 | the rows of the first n creates satisfy the store invariant with SQ_PRODUCT_ID at n + 1 |
| Scenario.StockRowsStocked | src/test/java/com/challenge/ordermaker/OrdermakerIntegrationTests.java:104-110 | after the first n creates exactly products 1..n are stored, one version each, each reading as created |
| Scenario.StockedStep | src/test/java/com/challenge/ordermaker/OrdermakerIntegrationTests.java:105-109 | one more create keeps every earlier product as it was and adds the new one at version 1 |
| Scenario.NewestReadBack | src/test/java/com/challenge/ordermaker/OrdermakerIntegrationTests.java:117-124 | a product just created reads back with the name and price it was created with |
| Scenario.ActiveCount | src/test/java/com/challenge/ordermaker/OrdermakerIntegrationTests.java:112-115 | with exactly products 1..n stored, the active list has n products |
| Scenario.GetEach | src/test/java/com/challenge/ordermaker/OrdermakerIntegrationTests.java:117-125 | get(i) for i in 1..10 returns product i named "Name_i" at i + 0.5 |
| Scenario.PlaceFive | src/test/java/com/challenge/ordermaker/OrdermakerIntegrationTests.java:127-139 | placing {1, .., 5} against a store serving a catalogue stores one ORDERS row with the next id, answers an order listing the catalogue's first five at their total, and that order is what the new row reads as and what recalculating it gives |
| Scenario.FirstFiveAccepted | src/test/java/com/challenge/ordermaker/OrdermakerIntegrationTests.java:127-134 | the product set {1, .., 5} passes the controller's check once those products are stored |
| Scenario.FirstFiveListed | src/test/java/com/challenge/ordermaker/OrdermakerIntegrationTests.java:141-150 | an order whose products are 1..5, each at its active version, iterates them in productId order, as the catalogue lists them, and costs their total |
| Scenario.ListedInIdOrder | src/test/java/com/challenge/ordermaker/OrdermakerIntegrationTests.java:141-150 | a TreeSet ordered by productId whose ids are exactly 1..n iterates the catalogue's first n in order |
| Scenario.SortedIds | src/test/java/com/challenge/ordermaker/OrdermakerIntegrationTests.java:141-150 | a TreeSet ordered by productId whose ids are exactly 1..n has n members, member k having id k + 1 |
| Scenario.TotalOfFive | src/test/java/com/challenge/ordermaker/OrdermakerIntegrationTests.java:139 | an order of five products costs the sum of their five prices |
| Scenario.FirstOrderListed | src/test/java/com/challenge/ordermaker/OrdermakerIntegrationTests.java:133-150 | the first five created products are those of order 1 and cost 1.5 + 2.5 + 3.5 + 4.5 + 5.5 |
| Scenario.PlaceFirstOrder | src/test/java/com/challenge/ordermaker/OrdermakerIntegrationTests.java:127-160 | order 1 is placed with id 1, the buyer and time given, products 1..5 as created and cost 17.5; get(1) finds it and recalculating it gives 17.5 |
| Scenario.OnlyOrderFound | src/test/java/com/challenge/ordermaker/OrdermakerIntegrationTests.java:153-156 | with one order stored, get of its id finds exactly that order |
| Scenario.UpdateFirstProduct | src/test/java/com/challenge/ordermaker/OrdermakerIntegrationTests.java:163-188 | updating product 1 succeeds with "new Value" at 1000; get(1) still finds order 1 unchanged, product 1 reads the new version, and recalculating order 1 gives 1016 |
| Scenario.UpdateKeepsFirstOrder | src/test/java/com/challenge/ordermaker/OrdermakerIntegrationTests.java:163-188 | after the update the store serves the updated catalogue, order 1 reads exactly as placed, and its recalculation is 1016 |
| Scenario.FirstOrderFoundAfterUpdate | src/test/java/com/challenge/ordermaker/OrdermakerIntegrationTests.java:166-175 | after the update get(1) finds order 1 with the same id, buyer, time, products and cost |
| Scenario.FirstOrderRepricedAfterUpdate | src/test/java/com/challenge/ordermaker/OrdermakerIntegrationTests.java:186-188 | after the update recalculating order 1 replaces product 1's 1.5 by 1000, giving 1016 |
| Scenario.UpdatedServes | src/test/java/com/challenge/ordermaker/OrdermakerIntegrationTests.java:178-184 | after the update product 1 reads "new Value" at 1000 and products 2..10 read as created |
| Scenario.SecondOrderListed | src/test/java/com/challenge/ordermaker/OrdermakerIntegrationTests.java:195-218 | the updated catalogue's first five are those of order 2 and cost 1000 + 2.5 + 3.5 + 4.5 + 5.5 |
| Scenario.PlaceSecondOrder | src/test/java/com/challenge/ordermaker/OrdermakerIntegrationTests.java:190-218 | order 2 is placed with id 2, lists the new version of product 1 and products 2..5 as created, and costs 1016; ORDERS gains only its row and ORDERS_PRODUCTS keeps its old rows and gains one row for each of 1..5 at its newest version |

## Left out

- Row locking (`FOR UPDATE`), transaction isolation and concurrency: each operation is one sequential step. The `@Transactional` order save is modelled as all-or-nothing by explicit rollback of the two tables.
- The SQL sequence is a counter. A rolled-back order save still consumes an orderId, as a database sequence does.
- Java `float` arithmetic in `Float::sum` and `getFloat`: prices are exact reals.
- `LocalDateTime`/`Timestamp` conversion: times are integers. `long` ids and `int` versions are unbounded.
- Spring wiring, JdbcTemplate, row mappers and SQL execution: each statement is a function or update over the table sequences. `ProductController` and `OrdermakerApplication` are not part of this model; the former only forwards to the product service.
- HTTP: responses are reduced to the branches that decide something (bad request, placed, not found, found). The retrieve and recalculate endpoints only forward to the order service and are covered by its members.
- Bean-validation annotations on the requests, which the framework enforces; the code adds no check of its own.
- The definition of the `ACTIVE_PRODUCTS` view, which is not in the Java code; the view is taken to select the rows with `latest = TRUE`.
- The ResultExtractor tests, which exercise mocked result-set mapping, and the service unit tests' mocked values (an order costing 324, a recalculation giving 601): their expectations are plain sums of mocked prices, covered in general by OrderService.OrderCost and OrderService.RecalculateOrderAmount.
- ProductService.GetActiveProductForId: requires well-formed PRODUCTS, so the case of two latest rows (a too-many-rows error the code does not catch) is not modelled.
- ProductService.GetProductForVersion: requires versions to run 1..N, so a duplicated (productId, version) is not modelled.
- ProductService.GetAllActiveProducts: requires well-formed PRODUCTS, under which the TreeSet drops no product.
- OrderService.GetOrderForId: requires well-formed tables, so the too-many-rows error for a duplicated orderId and a pin naming a missing version (which `Optional.get` would reject) are not modelled.
- OrderService.RecalculateOrderAmount: requires well-formed tables for the same reason.
- OrderController.Get: requires well-formed tables for the same reason.
- OrderService.MapDaoToOrder: requires every pin to resolve, which the store invariant keeps.
