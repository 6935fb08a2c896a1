/**
 * The repository's integration test, replayed through the model: starting
 * from an empty database it probes the empty store, creates products 1..10
 * named "Name_i" and priced i + 0.5, places order 1 for products {1, .., 5},
 * updates product 1 to "new Value" at 1000, and places order 2 for the same
 * set. Every call goes through the modelled controllers and services, and
 * every value the test expects is read off their contracts.
 */
module Scenario {
  import opened Domain
  import opened Tables
  import opened TreeSets
  import opened Store
  import ProductService
  import OrderService
  import OrderRepository
  import OrderController

  /* ---------- The test's data ---------- */

  /** The decimal digits of `n`, as Java's string concatenation writes an int. */
  function Decimal(n: nat): string
  {
    if n < 10 then [Digit(n)] else Decimal(n / 10) + [Digit(n % 10)]
  }

  function Digit(d: nat): char
    requires d < 10
  {
    "0123456789"[d]
  }

  /** `"Name" + "_" + i` and `i + 0.5f`: the name and price the test gives product i. */
  function TestName(i: nat): string { "Name_" + Decimal(i) }

  function TestPrice(i: nat): real { i as real + 0.5 }

  function TestProduct(i: nat): Product { Product(i, TestName(i), TestPrice(i)) }

  /** What the test's ten creates return, product i at index i - 1. */
  function TestCatalogue(): (c: seq<Product>)
    ensures |c| == 10
    ensures forall k :: 0 <= k < 10 ==> c[k] == TestProduct(k + 1)
  {
    seq(10, (k: nat) => TestProduct(k + 1))
  }

  /** The catalogue after `update(1, "new Value", 1000)`. */
  function UpdatedCatalogue(): (c: seq<Product>)
    ensures |c| == 10
    ensures c[0] == Product(1, "new Value", 1000.0)
    ensures forall k :: 1 <= k < 10 ==> c[k] == TestProduct(k + 1)
  {
    TestCatalogue()[0 := Product(1, "new Value", 1000.0)]
  }

  const Buyer := "test@test.com"

  /** The product set of both orders. */
  const FiveIds: set<int> := set id | 1 <= id <= 5

  /** The window of `getAll` for orders: the five hours up to `now`, the clock counting seconds. */
  const FiveHours := 5 * 60 * 60

  /* ---------- What the store serves ---------- */

  /** The ids 1..n. */
  function Ids(n: nat): (r: set<int>)
    ensures forall id :: id in r <==> 1 <= id <= n
    ensures |r| == n
  {
    if n == 0 then {} else Ids(n - 1) + {n}
  }

  /** Products 1..|catalogue| are stored and their active versions read as the catalogue lists them. */
  ghost predicate Serves(products: seq<ProductDao>, catalogue: seq<Product>)
  {
    && ProductsWellFormed(products)
    && forall j :: 1 <= j <= |catalogue| ==> ProductService.GetActiveProductForId(products, j) == Some(catalogue[j - 1])
  }

  /** Exactly products 1..n are stored, one version each, reading as the test created them. */
  ghost predicate Stocked(products: seq<ProductDao>, n: nat)
  {
    && ProductsWellFormed(products)
    && (forall id :: VersionCount(products, id) == if 1 <= id <= n then 1 else 0)
    && forall j :: 1 <= j <= n ==> ProductService.GetActiveProductForId(products, j) == Some(TestProduct(j))
  }

  /** The row create number i inserts: product i at version 1, flagged latest. */
  function StockRow(i: nat): ProductDao { ProductDao(i, TestName(i), TestPrice(i), 1, true) }

  /** The PRODUCTS table after the first n creates of the test's loop. */
  function StockRows(n: nat): seq<ProductDao>
  {
    if n == 0 then [] else StockRows(n - 1) + [StockRow(n)]
  }

  /** Creating product m with the test's name and price stocks one more product. */
  lemma StockedStep(m: nat)
    requires m >= 1 && Stocked(StockRows(m - 1), m - 1)
    ensures Stocked(StockRows(m), m)
  {
    NewestReadBack(m);
    var rows, row := StockRows(m - 1), StockRow(m);
    assert StockRows(m) == rows + [row];
    forall id ensures VersionCount(rows + [row], id) == if 1 <= id <= m then 1 else 0 {
      CountAppend(rows, row, id);
    }
    forall j | 1 <= j < m ensures ProductService.GetActiveProductForId(rows + [row], j) == Some(TestProduct(j)) {
      ProductService.CreateKeepsOthers(rows, row, j);
    }
  }

  /** A stocked table serves the test's catalogue. */
  lemma StockedServes(products: seq<ProductDao>)
    requires Stocked(products, 10)
    ensures Serves(products, TestCatalogue())
  {
  }

  /** With exactly products 1..n stored, listing the active products gives n of them. */
  lemma ActiveCount(products: seq<ProductDao>, n: nat)
    requires ProductsWellFormed(products)
    requires forall id :: VersionCount(products, id) == if 1 <= id <= n then 1 else 0
    ensures |ProductService.GetAllActiveProducts(products)| == n
  {
    var ps := ProductService.GetAllActiveProducts(products);
    SizeIsKeyCount(ps, ProductKey);
    var keys := Keys(ps, ProductKey);
    forall id ensures id in keys <==> 1 <= id <= n {
      assert VersionCount(products, id) > 0 <==> 1 <= id <= n;
    }
    CountOfIds(keys, n);
  }

  /** A set holding exactly the ids 1..n has n members. */
  lemma CountOfIds(keys: set<int>, n: nat)
    requires forall id :: id in keys <==> 1 <= id <= n
    ensures |keys| == n
  {
    assert keys == Ids(n);
  }

  /* ---------- Reading a tree set ordered by productId ---------- */

  /** In a strictly ordered sequence, keys grow at least as fast as positions. */
  lemma {:induction false} KeyGap(ps: seq<Product>, i: nat, j: nat)
    requires StrictlySorted(ps, ProductKey)
    requires i <= j < |ps|
    ensures ps[j].productId - ps[i].productId >= j - i
    decreases j - i
  {
    if i < j {
      KeyGap(ps, i + 1, j);
      assert ps[i].productId < ps[i + 1].productId;
    }
  }

  /** A tree set whose keys are exactly 1..n holds product k + 1 at position k. */
  lemma SortedIds(ps: seq<Product>, n: nat)
    requires StrictlySorted(ps, ProductKey)
    requires forall id :: id in Keys(ps, ProductKey) <==> 1 <= id <= n
    ensures |ps| == n
    ensures forall k :: 0 <= k < n ==> ps[k].productId == k + 1
  {
    SizeIsKeyCount(ps, ProductKey);
    CountOfIds(Keys(ps, ProductKey), n);
    if n > 0 {
      KeyInRange(ps, n, 0);
      KeyInRange(ps, n, n - 1);
    }
    forall k | 0 <= k < n ensures ps[k].productId == k + 1 {
      KeyGap(ps, 0, k);
      KeyGap(ps, k, n - 1);
    }
  }

  lemma KeyInRange(ps: seq<Product>, n: nat, i: nat)
    requires (forall id :: id in Keys(ps, ProductKey) <==> 1 <= id <= n) && i < |ps|
    ensures 1 <= ps[i].productId <= n
  {
    assert ps[i] in ps;
    assert ProductKey(ps[i]) in Keys(ps, ProductKey);
  }

  /** A tree set with keys 1..n, each product being the catalogue's, iterates as the catalogue's first n. */
  lemma ListedInIdOrder(ps: seq<Product>, catalogue: seq<Product>, n: nat)
    requires n <= |catalogue|
    requires StrictlySorted(ps, ProductKey)
    requires forall id :: id in Keys(ps, ProductKey) <==> 1 <= id <= n
    requires forall p :: p in ps && 1 <= p.productId <= |catalogue| ==> p == catalogue[p.productId - 1]
    ensures ps == catalogue[..n]
  {
    SortedIds(ps, n);
    var first := catalogue[..n];
    forall k | 0 <= k < n ensures ps[k] == first[k] {
      var p := ps[k];
      assert p in ps && p.productId == k + 1;
    }
  }

  lemma TotalOfFive(ps: seq<Product>)
    requires |ps| == 5
    ensures OrderService.TotalOrderPrice(ps) == ps[0].price + ps[1].price + ps[2].price + ps[3].price + ps[4].price
  {
    assert OrderService.TotalOrderPrice(ps[..1]) == ps[0].price by { assert ps[..1][..0] == []; }
    assert OrderService.TotalOrderPrice(ps[..2]) == OrderService.TotalOrderPrice(ps[..1]) + ps[1].price by { assert ps[..2][..1] == ps[..1]; }
    assert OrderService.TotalOrderPrice(ps[..3]) == OrderService.TotalOrderPrice(ps[..2]) + ps[2].price by { assert ps[..3][..2] == ps[..2]; }
    assert OrderService.TotalOrderPrice(ps[..4]) == OrderService.TotalOrderPrice(ps[..3]) + ps[3].price by { assert ps[..4][..3] == ps[..3]; }
    assert ps[..4] == ps[..|ps| - 1];
  }

  /* ---------- The steps of the test ---------- */

  /** The probes of an empty store: all miss, and every refused placement stores nothing. */
  method ProbeEmptyStore(db: Database, now: int)
    returns (unknownProduct: Option<Product>, unknownOrder: OrderController.GetResponse,
             productsAtStart: seq<Product>, ordersAtStart: seq<Order>,
             unknownUpdate: Result<Product>, unknownRecalculation: Result<real>,
             nullSet: OrderController.PlaceResponse, emptySet: OrderController.PlaceResponse,
             unknownIds: OrderController.PlaceResponse)
    requires db.Valid() && db.products == [] && db.orders == [] && db.ordersProducts == []
    modifies db
    ensures db.Valid() && db.products == [] && db.orders == [] && db.ordersProducts == []
    ensures db.productIdSeq == old(db.productIdSeq) && db.orderIdSeq == old(db.orderIdSeq)
    ensures unknownProduct == None && unknownOrder == OrderController.NotFound
    ensures productsAtStart == [] && ordersAtStart == []
    ensures unknownUpdate == Err(ResourceNotFound) && unknownRecalculation == Err(ResourceNotFound)
    ensures nullSet == OrderController.BadRequest && emptySet == OrderController.BadRequest
    ensures unknownIds == OrderController.BadRequest
  {
    unknownProduct := ProductService.GetActiveProductForId(db.products, 999);
    unknownOrder := OrderController.Get(db.products, db.orders, db.ordersProducts, 999);
    productsAtStart := ProductService.GetAllActiveProducts(db.products);
    ordersAtStart := OrderService.GetAllOrdersBetweenDates(db.products, db.orders, db.ordersProducts, now - FiveHours, now);
    unknownUpdate := ProductService.UpdateProduct(db, ProductUpdateRequest(999, "new Value", 25.0));
    unknownRecalculation := OrderService.RecalculateOrderAmount(db.products, db.orders, db.ordersProducts, 999);
    nullSet := OrderController.Place(db, OrderCreateRequest(Buyer, None, now));
    emptySet := OrderController.Place(db, OrderCreateRequest(Buyer, Some({}), now));
    assert 1 in {1};
    unknownIds := OrderController.Place(db, OrderCreateRequest(Buyer, Some({1}), now));
  }

  /** After n creates the tables are consistent, with SQ_PRODUCT_ID at n + 1. */
  lemma {:induction false} StockRowsConsistent(n: nat)
    ensures Consistent(StockRows(n), [], [], n + 1, 1)
  {
    if n > 0 {
      StockRowsConsistent(n - 1);
      ConsistentAfterCreate(StockRows(n - 1), [], [], n, 1, TestName(n), TestPrice(n));
    }
  }

  /** Product n, just created, reads back as the test created it. */
  lemma NewestReadBack(n: nat)
    requires n >= 1
    ensures ProductsWellFormed(StockRows(n))
    ensures ProductService.GetActiveProductForId(StockRows(n), n) == Some(TestProduct(n))
  {
    StockRowsConsistent(n);
    LatestRowIs(StockRows(n), StockRow(n));
  }

  /** After n creates, products 1..n are stocked. */
  lemma {:induction false} StockRowsStocked(n: nat)
    ensures Stocked(StockRows(n), n)
  {
    if n > 0 {
      StockRowsStocked(n - 1);
      StockedStep(n);
    }
  }

  /** A table holding the rows of the first n creates is consistent with SQ_PRODUCT_ID at n + 1 ... */
  lemma ConsistentAt(products: seq<ProductDao>, n: nat)
    requires products == StockRows(n)
    ensures Consistent(products, [], [], n + 1, 1)
  {
    StockRowsConsistent(n);
  }

  /** ... and stocks products 1..n. */
  lemma StockedAt(products: seq<ProductDao>, n: nat)
    requires products == StockRows(n)
    ensures Consistent(products, [], [], n + 1, 1) && Stocked(products, n)
  {
    StockRowsConsistent(n);
    StockRowsStocked(n);
  }

  /** The test's loop of ten creates, returning what each create returned. */
  method CreateTen(db: Database) returns (created: seq<Product>)
    requires db.Valid() && db.products == [] && db.productIdSeq == 1
    requires db.orders == [] && db.ordersProducts == [] && db.orderIdSeq == 1
    modifies db
    ensures db.Valid() && Stocked(db.products, 10)
    ensures db.orders == [] && db.ordersProducts == [] && db.orderIdSeq == 1
    ensures created == TestCatalogue()
  {
    created := [];
    var i := 1;
    while i <= 10
      invariant 1 <= i <= 11 && created == TestCatalogue()[..i - 1]
      invariant db.products == StockRows(i - 1) && db.productIdSeq == i
      invariant db.orders == [] && db.ordersProducts == [] && db.orderIdSeq == 1
    {
      var p := CreateNext(db, i);
      CatalogueStep(created, i);
      created := created + [p];
      i := i + 1;
    }
    StockedAt(db.products, i - 1);
  }

  /** Create number i of the test's loop, on the tables the first i - 1 creates left. */
  method CreateNext(db: Database, i: nat) returns (p: Product)
    requires i >= 1 && db.products == StockRows(i - 1) && db.productIdSeq == i
    requires db.orders == [] && db.ordersProducts == [] && db.orderIdSeq == 1
    modifies db
    ensures db.products == StockRows(i) && db.productIdSeq == i + 1
    ensures db.orders == [] && db.ordersProducts == [] && db.orderIdSeq == 1
    ensures p == TestProduct(i)
  {
    ConsistentAt(db.products, i - 1);
    p := ProductService.CreateProduct(db, ProductCreateRequest(TestName(i), TestPrice(i)));
  }

  /** Appending what create number i returns extends the catalogue by one. */
  lemma CatalogueStep(created: seq<Product>, i: nat)
    requires 1 <= i <= 10 && created == TestCatalogue()[..i - 1]
    ensures created + [TestProduct(i)] == TestCatalogue()[..i]
  {
    assert TestCatalogue()[..i] == TestCatalogue()[..i - 1] + [TestCatalogue()[i - 1]];
  }

  /** The test's loop of `get(i)` for i in 1..10. */
  method GetEach(db: Database) returns (lookedUp: seq<Option<Product>>)
    requires Stocked(db.products, 10)
    ensures |lookedUp| == 10
    ensures forall k :: 0 <= k < 10 ==> lookedUp[k] == Some(TestProduct(k + 1))
  {
    lookedUp := [];
    var i := 1;
    while i <= 10
      invariant 1 <= i <= 11
      invariant |lookedUp| == i - 1 && forall k :: 0 <= k < i - 1 ==> lookedUp[k] == Some(TestProduct(k + 1))
    {
      lookedUp := lookedUp + [ProductService.GetActiveProductForId(db.products, i)];
      i := i + 1;
    }
  }

  /**
   * `place` for the products {1, .., 5}, all of them stored: the order gets
   * the next id, and the controller answers with it.
   */
  method PlaceFive(db: Database, now: int, catalogue: seq<Product>) returns (response: OrderController.PlaceResponse)
    requires db.Valid() && |catalogue| >= 5 && Serves(db.products, catalogue)
    requires forall k :: 0 <= k < |catalogue| ==> catalogue[k].productId == k + 1
    modifies db
    ensures db.Valid()
    ensures db.products == old(db.products) && db.productIdSeq == old(db.productIdSeq)
    ensures db.orders == old(db.orders) + [OrderDao(old(db.orderIdSeq), Buyer, now)]
    ensures db.orderIdSeq == old(db.orderIdSeq) + 1
    ensures |old(db.ordersProducts)| <= |db.ordersProducts|
    ensures db.ordersProducts[..|old(db.ordersProducts)|] == old(db.ordersProducts)
    ensures OrderRepository.PinnedAtLatest(db.ordersProducts[|old(db.ordersProducts)|..], old(db.orderIdSeq), FiveIds, db.products)
    ensures response == OrderController.Placed(Order(old(db.orderIdSeq), Buyer, now, catalogue[..5],
                                                     OrderService.TotalOrderPrice(catalogue[..5])))
    ensures Recorded(db, response.order)
  {
    FirstFiveAccepted(db.products, catalogue);
    response := OrderController.Place(db, OrderCreateRequest(Buyer, Some(FiveIds), now));
    FirstFiveListed(db.products, catalogue, response.order);
  }

  /**
   * `order` is what the last ORDERS row reads as, and recalculating it gives
   * back its cost.
   */
  ghost predicate Recorded(db: Database, order: Order)
    requires db.Valid()
    reads db
  {
    ConsistentTables(db.products, db.orders, db.ordersProducts, db.productIdSeq, db.orderIdSeq);
    && db.orders != []
    && OrderService.MapDaoToOrder(db.products, db.ordersProducts, db.orders[|db.orders| - 1]) == order
    && OrderService.RecalculateOrderAmount(db.products, db.orders, db.ordersProducts, order.orderId) == Ok(order.orderCost)
  }

  /** Products 1..5 of a served catalogue pass `CheckIfAllProductsValid`. */
  lemma FirstFiveAccepted(products: seq<ProductDao>, catalogue: seq<Product>)
    requires |catalogue| >= 5 && Serves(products, catalogue)
    ensures !OrderController.CheckIfAllProductsValid(products, Some(FiveIds))
  {
    OrderController.CheckPassesExactlyForActiveProducts(products, FiveIds);
    assert 1 in FiveIds;
  }

  /**
   * An order over products 1..5 of a served catalogue lists the catalogue's
   * first five in productId order, whatever order the set was pinned in, at
   * their total.
   */
  lemma FirstFiveListed(products: seq<ProductDao>, catalogue: seq<Product>, order: Order)
    requires |catalogue| >= 5 && Serves(products, catalogue)
    requires forall k :: 0 <= k < |catalogue| ==> catalogue[k].productId == k + 1
    requires StrictlySorted(order.products, ProductKey) && Keys(order.products, ProductKey) == FiveIds
    requires forall p :: p in order.products ==> ProductService.GetActiveProductForId(products, p.productId) == Some(p)
    requires order.orderCost == OrderService.TotalOrderPrice(order.products)
    ensures order.products == catalogue[..5]
    ensures order.orderCost == OrderService.TotalOrderPrice(catalogue[..5])
  {
    forall p | p in order.products && 1 <= p.productId <= |catalogue| ensures p == catalogue[p.productId - 1] {
    }
    forall id ensures id in Keys(order.products, ProductKey) <==> 1 <= id <= 5 {
    }
    ListedInIdOrder(order.products, catalogue, 5);
  }

  /** Order 1 as the test expects it: products 1..5 as created, costing 1.5 + 2.5 + 3.5 + 4.5 + 5.5. */
  function FirstOrder(now: int): Order
  {
    Order(1, Buyer, now, [TestProduct(1), TestProduct(2), TestProduct(3), TestProduct(4), TestProduct(5)], 17.5)
  }

  /** Order 2 as the test expects it: product 1 at its new version, 2..5 as created, costing 1000 + 2.5 + 3.5 + 4.5 + 5.5. */
  function SecondOrder(now: int): Order
  {
    Order(2, Buyer, now, [Product(1, "new Value", 1000.0), TestProduct(2), TestProduct(3), TestProduct(4), TestProduct(5)], 1016.0)
  }

  /** The catalogue's first five as order 1 lists them, and their total. */
  lemma FirstOrderListed(now: int)
    ensures TestCatalogue()[..5] == FirstOrder(now).products
    ensures OrderService.TotalOrderPrice(TestCatalogue()[..5]) == 17.5
  {
    assert TestCatalogue()[..5] == FirstOrder(now).products;
    TotalOfFive(FirstOrder(now).products);
  }

  /** The updated catalogue's first five as order 2 lists them, and their total. */
  lemma SecondOrderListed(now: int)
    ensures UpdatedCatalogue()[..5] == SecondOrder(now).products
    ensures OrderService.TotalOrderPrice(UpdatedCatalogue()[..5]) == 1016.0
  {
    assert UpdatedCatalogue()[..5] == SecondOrder(now).products;
    TotalOfFive(SecondOrder(now).products);
  }

  /** Placing order 1, reading it back and recalculating it. */
  method PlaceFirstOrder(db: Database, now: int)
    returns (first: OrderController.PlaceResponse, found: OrderController.GetResponse, cost: Result<real>)
    requires db.Valid() && Stocked(db.products, 10)
    requires db.orders == [] && db.orderIdSeq == 1
    modifies db
    ensures db.Valid() && Stocked(db.products, 10)
    ensures db.orders == [OrderDao(1, Buyer, now)] && db.orderIdSeq == 2
    ensures Recorded(db, FirstOrder(now))
    ensures first == OrderController.Placed(FirstOrder(now))
    ensures found == OrderController.Found(FirstOrder(now))
    ensures cost == Ok(17.5)
  {
    StockedServes(db.products);
    first := PlaceFive(db, now, TestCatalogue());
    FirstOrderListed(now);
    var products, orders, pins := db.products, db.orders, db.ordersProducts;
    ConsistentTables(products, orders, pins, db.productIdSeq, db.orderIdSeq);
    OnlyOrderFound(products, orders, pins);
    found := OrderController.Get(products, orders, pins, 1);
    cost := OrderService.RecalculateOrderAmount(products, orders, pins, 1);
  }

  /**
   * `update(1, "new Value", 1000)`, then order 1 read back and recalculated
   * and product 1 read back.
   */
  method UpdateFirstProduct(db: Database, now: int)
    returns (update: Result<Product>, found: OrderController.GetResponse, productOne: Option<Product>, cost: Result<real>)
    requires db.Valid() && Stocked(db.products, 10)
    requires db.orders == [OrderDao(1, Buyer, now)] && Recorded(db, FirstOrder(now))
    modifies db
    ensures db.Valid() && Serves(db.products, UpdatedCatalogue())
    ensures db.orderIdSeq == old(db.orderIdSeq)
    ensures update == Ok(Product(1, "new Value", 1000.0))
    ensures found == OrderController.Found(FirstOrder(now))
    ensures productOne == Some(Product(1, "new Value", 1000.0))
    ensures cost == Ok(1016.0)
  {
    ghost var before := db.products;
    ConsistentTables(before, db.orders, db.ordersProducts, db.productIdSeq, db.orderIdSeq);
    update := ProductService.UpdateProduct(db, ProductUpdateRequest(1, "new Value", 1000.0));
    var products, orders, pins := db.products, db.orders, db.ordersProducts;
    UpdateKeepsFirstOrder(before, orders, pins, now);
    found := OrderController.Get(products, orders, pins, 1);
    productOne := ProductService.GetActiveProductForId(products, 1);
    cost := OrderService.RecalculateOrderAmount(products, orders, pins, 1);
  }

  /**
   * The update of product 1 leaves order 1 as placed, while recalculating it
   * now prices product 1 at 1000 instead of 1.5.
   */
  lemma UpdateKeepsFirstOrder(products: seq<ProductDao>, orders: seq<OrderDao>, pins: seq<OrderProductDao>, now: int)
    requires TablesWellFormed(products, orders, pins) && Stocked(products, 10)
    requires orders == [OrderDao(1, Buyer, now)]
    requires OrderService.MapDaoToOrder(products, pins, orders[0]) == FirstOrder(now)
    requires OrderService.RecalculateOrderAmount(products, orders, pins, 1) == Ok(17.5)
    ensures TablesWellFormed(UpdatedRows(products, 1, "new Value", 1000.0), orders, pins)
    ensures Serves(UpdatedRows(products, 1, "new Value", 1000.0), UpdatedCatalogue())
    ensures OrderController.Get(UpdatedRows(products, 1, "new Value", 1000.0), orders, pins, 1)
         == OrderController.Found(FirstOrder(now))
    ensures OrderService.RecalculateOrderAmount(UpdatedRows(products, 1, "new Value", 1000.0), orders, pins, 1)
         == Ok(1016.0)
  {
    UpdatedServes(products);
    FirstOrderFoundAfterUpdate(products, orders, pins, now);
    FirstOrderRepricedAfterUpdate(products, orders, pins, now);
  }

  lemma FirstOrderFoundAfterUpdate(products: seq<ProductDao>, orders: seq<OrderDao>, pins: seq<OrderProductDao>, now: int)
    requires TablesWellFormed(products, orders, pins) && VersionCount(products, 1) > 0
    requires orders == [OrderDao(1, Buyer, now)]
    requires OrderService.MapDaoToOrder(products, pins, orders[0]) == FirstOrder(now)
    ensures TablesWellFormed(UpdatedRows(products, 1, "new Value", 1000.0), orders, pins)
    ensures OrderController.Get(UpdatedRows(products, 1, "new Value", 1000.0), orders, pins, 1)
         == OrderController.Found(FirstOrder(now))
  {
    var after := UpdatedRows(products, 1, "new Value", 1000.0);
    OrderService.WellFormedAfterUpdate(products, orders, pins, 1, "new Value", 1000.0);
    OrderService.OrderStableUnderUpdate(products, pins, orders[0], 1, "new Value", 1000.0);
    OnlyOrderFound(after, orders, pins);
  }

  /** With a single order stored, `get` of its id reads that order. */
  lemma OnlyOrderFound(products: seq<ProductDao>, orders: seq<OrderDao>, pins: seq<OrderProductDao>)
    requires TablesWellFormed(products, orders, pins) && |orders| == 1
    ensures OrderController.Get(products, orders, pins, orders[0].orderId)
         == OrderController.Found(OrderService.MapDaoToOrder(products, pins, orders[0]))
  {
    var r := OrderController.Get(products, orders, pins, orders[0].orderId);
    assert orders[0] in orders;
    assert forall o :: o in orders ==> o == orders[0];
  }

  lemma FirstOrderRepricedAfterUpdate(products: seq<ProductDao>, orders: seq<OrderDao>, pins: seq<OrderProductDao>, now: int)
    requires TablesWellFormed(products, orders, pins) && Stocked(products, 10)
    requires orders == [OrderDao(1, Buyer, now)]
    requires OrderService.MapDaoToOrder(products, pins, orders[0]) == FirstOrder(now)
    requires OrderService.RecalculateOrderAmount(products, orders, pins, 1) == Ok(17.5)
    ensures TablesWellFormed(UpdatedRows(products, 1, "new Value", 1000.0), orders, pins)
    ensures OrderService.RecalculateOrderAmount(UpdatedRows(products, 1, "new Value", 1000.0), orders, pins, 1)
         == Ok(1016.0)
  {
    OrderService.RecalculateTracksUpdate(products, orders, pins, 1, 1, "new Value", 1000.0);
    assert 1 in Keys(FirstOrder(now).products, ProductKey) by { assert TestProduct(1) in FirstOrder(now).products; }
  }

  /** After the update the store serves the new version of product 1 and the created versions of 2..10. */
  lemma UpdatedServes(products: seq<ProductDao>)
    requires Stocked(products, 10)
    ensures Serves(UpdatedRows(products, 1, "new Value", 1000.0), UpdatedCatalogue())
  {
    ProductService.UpdatedLookup(products, 1, "new Value", 1000.0);
    forall j | 2 <= j <= 10
      ensures ProductService.GetActiveProductForId(UpdatedRows(products, 1, "new Value", 1000.0), j) == Some(TestProduct(j))
    {
      ProductService.UpdateKeepsOthers(products, 1, "new Value", 1000.0, j);
    }
  }

  /**
   * Placing order 2 after the update: ORDERS and ORDERS_PRODUCTS are only
   * appended to, and the new pins are one per product 1..5 at its newest version.
   */
  method PlaceSecondOrder(db: Database, now: int) returns (second: OrderController.PlaceResponse)
    requires db.Valid() && Serves(db.products, UpdatedCatalogue())
    requires db.orderIdSeq == 2
    modifies db
    ensures db.Valid()
    ensures second == OrderController.Placed(SecondOrder(now))
    ensures db.orders == old(db.orders) + [OrderDao(2, Buyer, now)]
    ensures |old(db.ordersProducts)| <= |db.ordersProducts|
    ensures db.ordersProducts[..|old(db.ordersProducts)|] == old(db.ordersProducts)
    ensures OrderRepository.PinnedAtLatest(db.ordersProducts[|old(db.ordersProducts)|..], 2, FiveIds, db.products)
  {
    second := PlaceFive(db, now, UpdatedCatalogue());
    SecondOrderListed(now);
  }

  /** What the test observes, call by call. */
  datatype Observed = Observed(
    unknownProduct: Option<Product>, unknownOrder: OrderController.GetResponse,
    productsAtStart: seq<Product>, ordersAtStart: seq<Order>,
    unknownUpdate: Result<Product>, unknownRecalculation: Result<real>,
    nullSet: OrderController.PlaceResponse, emptySet: OrderController.PlaceResponse,
    unknownIds: OrderController.PlaceResponse,
    created: seq<Product>, allProducts: seq<Product>, lookedUp: seq<Option<Product>>,
    first: OrderController.PlaceResponse, firstFound: OrderController.GetResponse, firstCost: Result<real>,
    update: Result<Product>, firstAfterUpdate: OrderController.GetResponse,
    productOneAfterUpdate: Option<Product>, firstCostAfterUpdate: Result<real>,
    second: OrderController.PlaceResponse)

  /**
   * `testTheEntireFlow` from a fresh database. Each ensures is one of the
   * test's assertions, stated as the full value the model returns.
   */
  method ReplayIntegrationTest(now: int) returns (t: Observed)
    ensures t.unknownProduct == None && t.unknownOrder == OrderController.NotFound
    ensures t.productsAtStart == [] && t.ordersAtStart == []
    ensures t.unknownUpdate == Err(ResourceNotFound) && t.unknownRecalculation == Err(ResourceNotFound)
    ensures t.nullSet == OrderController.BadRequest && t.emptySet == OrderController.BadRequest
    ensures t.unknownIds == OrderController.BadRequest
    ensures t.created == TestCatalogue()
    ensures |t.allProducts| == 10
    ensures |t.lookedUp| == 10 && forall k :: 0 <= k < 10 ==> t.lookedUp[k] == Some(TestProduct(k + 1))
    ensures t.first == OrderController.Placed(FirstOrder(now))
    ensures t.firstFound == OrderController.Found(FirstOrder(now))
    ensures t.firstCost == Ok(17.5)
    ensures t.update == Ok(Product(1, "new Value", 1000.0))
    ensures t.firstAfterUpdate == OrderController.Found(FirstOrder(now))
    ensures t.productOneAfterUpdate == Some(Product(1, "new Value", 1000.0))
    ensures t.firstCostAfterUpdate == Ok(1016.0)
    ensures t.second == OrderController.Placed(SecondOrder(now))
  {
    var db := new Database();
    var unknownProduct, unknownOrder, productsAtStart, ordersAtStart, unknownUpdate, unknownRecalculation,
        nullSet, emptySet, unknownIds := ProbeEmptyStore(db, now);
    var created := CreateTen(db);
    var allProducts := ProductService.GetAllActiveProducts(db.products);
    ActiveCount(db.products, 10);
    var lookedUp := GetEach(db);
    var first, firstFound, firstCost := PlaceFirstOrder(db, now);
    var update, firstAfterUpdate, productOne, firstCostAfterUpdate := UpdateFirstProduct(db, now);
    var second := PlaceSecondOrder(db, now);
    t := Observed(unknownProduct, unknownOrder, productsAtStart, ordersAtStart, unknownUpdate, unknownRecalculation,
                  nullSet, emptySet, unknownIds, created, allProducts, lookedUp,
                  first, firstFound, firstCost, update, firstAfterUpdate, productOne, firstCostAfterUpdate, second);
  }
}
