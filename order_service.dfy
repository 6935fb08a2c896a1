/**
 * OrderService: an order as the API returns it is built from its ORDERS row,
 * the versions its pins name in PRODUCTS, and the sum of their prices. The
 * read paths are functions of the three tables; placing an order is a method
 * on the database.
 */
module OrderService {
  import opened Domain
  import opened Tables
  import opened TreeSets
  import opened Store
  import ProductService
  import OrderRepository

  /* ---------- Prices ---------- */

  /** `getTotalOrderPrice`: `reduce(0f, Float::sum)` over the prices, in iteration order. */
  function TotalOrderPrice(ps: seq<Product>): (total: real)
    ensures ps == [] ==> total == 0.0
  {
    if ps == [] then 0.0 else TotalOrderPrice(ps[..|ps| - 1]) + ps[|ps| - 1].price
  }

  lemma {:induction false} TotalConcat(a: seq<Product>, b: seq<Product>)
    ensures TotalOrderPrice(a + b) == TotalOrderPrice(a) + TotalOrderPrice(b)
  {
    if b == [] {
      assert a + b == a;
    } else {
      var init := b[..|b| - 1];
      assert b == init + [b[|b| - 1]];
      assert a + b == (a + init) + [b[|b| - 1]];
      TotalConcat(a, init);
    }
  }

  /** The total does not depend on the order the set is iterated in. */
  lemma {:induction false} TotalPermutation(a: seq<Product>, b: seq<Product>)
    requires multiset(a) == multiset(b)
    ensures TotalOrderPrice(a) == TotalOrderPrice(b)
  {
    if a == [] {
      assert |b| == |multiset(b)| == 0;
    } else {
      var n := |a|;
      var x := a[n - 1];
      assert a == a[..n - 1] + [x];
      assert x in multiset(b);
      var j :| 0 <= j < |b| && b[j] == x;
      var left, right := b[..j], b[j + 1..];
      assert b == (left + [x]) + right;
      MultisetWithout(left, x, right);
      TotalWithout(left, x, right);
      assert multiset(a[..n - 1]) == multiset(a) - multiset{x};
      TotalPermutation(a[..n - 1], left + right);
    }
  }

  /** Taking one product out of a sequence takes its price out of the total. */
  lemma TotalWithout(left: seq<Product>, x: Product, right: seq<Product>)
    ensures TotalOrderPrice((left + [x]) + right) == TotalOrderPrice(left + right) + x.price
  {
    assert TotalOrderPrice([x]) == x.price by { assert [x][..0] == []; }
    TotalConcat(left + [x], right);
    TotalConcat(left, [x]);
    TotalConcat(left, right);
  }

  lemma MultisetWithout(left: seq<Product>, x: Product, right: seq<Product>)
    ensures multiset(left + right) == multiset((left + [x]) + right) - multiset{x}
  {
    assert multiset((left + [x]) + right) == multiset(left) + multiset{x} + multiset(right);
  }

  /* ---------- Reading orders ---------- */

  /** `.map(pin -> productService.getProductForVersion(...).get())`: the versions the pins name. */
  function ProductsForPins(products: seq<ProductDao>, pins: seq<OrderProductDao>): (ps: seq<Product>)
    requires VersionsSequential(products) && PinsResolve(products, pins)
    ensures |ps| == |pins|
    ensures forall k :: 0 <= k < |pins| ==> ps[k].productId == pins[k].productId
    ensures forall k :: 0 <= k < |pins| ==>
      exists i :: (0 <= i < |products| && products[i].productId == pins[k].productId
                   && products[i].version == pins[k].version && ps[k] == ProductService.MapDaoToProduct(products[i]))
    ensures forall k :: 0 <= k < |pins| ==>
      ProductService.GetProductForVersion(products, pins[k].productId, pins[k].version) == Some(ps[k])
  {
    var ps := seq(|pins|, k requires 0 <= k < |pins| =>
      assert pins[k] in pins;
      ProductService.GetProductForVersion(products, pins[k].productId, pins[k].version).value);
    assert forall k :: 0 <= k < |pins| ==>
      ps[k] == ProductService.GetProductForVersion(products, pins[k].productId, pins[k].version).value;
    assert forall k :: 0 <= k < |pins| ==> pins[k] in pins;
    ps
  }

  /** `p` is what `getProductForVersion` reads for one of the pins. */
  ghost predicate PinnedVersion(products: seq<ProductDao>, pins: seq<OrderProductDao>, p: Product)
    requires VersionsSequential(products)
  {
    exists pin :: pin in pins && ProductService.GetProductForVersion(products, pin.productId, pin.version) == Some(p)
  }

  /** `getProductsForOrder`: the order's pinned versions in a tree set ordered by productId. */
  function GetProductsForOrder(products: seq<ProductDao>, pins: seq<OrderProductDao>, orderId: int): (ps: seq<Product>)
    requires VersionsSequential(products) && PinsResolve(products, pins)
    ensures StrictlySorted(ps, ProductKey)
    ensures Keys(ps, ProductKey) == OrderRepository.PinnedIds(PinsOf(pins, orderId))
    ensures forall p :: p in ps ==> PinnedVersion(products, PinsOf(pins, orderId), p)
  {
    var own := PinsOf(pins, orderId);
    var mapped := ProductsForPins(products, own);
    PinKeys(products, own);
    var ps := Collect(mapped, ProductKey);
    forall p | p in ps
      ensures exists pin :: pin in own && ProductService.GetProductForVersion(products, pin.productId, pin.version) == Some(p)
    {
      assert p in multiset(mapped);
      var k :| 0 <= k < |mapped| && mapped[k] == p;
      assert own[k] in own;
    }
    ps
  }

  lemma PinKeys(products: seq<ProductDao>, pins: seq<OrderProductDao>)
    requires VersionsSequential(products) && PinsResolve(products, pins)
    ensures Keys(ProductsForPins(products, pins), ProductKey) == OrderRepository.PinnedIds(pins)
  {
    PinnedHaveProducts(products, pins);
    ProductsArePinned(products, pins);
  }

  lemma PinnedHaveProducts(products: seq<ProductDao>, pins: seq<OrderProductDao>)
    requires VersionsSequential(products) && PinsResolve(products, pins)
    ensures OrderRepository.PinnedIds(pins) <= Keys(ProductsForPins(products, pins), ProductKey)
  {
    var mapped := ProductsForPins(products, pins);
    forall id | id in OrderRepository.PinnedIds(pins) ensures id in Keys(mapped, ProductKey) {
      var pin :| pin in pins && pin.productId == id;
      var k :| 0 <= k < |pins| && pins[k] == pin;
      assert mapped[k] in mapped && ProductKey(mapped[k]) == id;
    }
  }

  lemma ProductsArePinned(products: seq<ProductDao>, pins: seq<OrderProductDao>)
    requires VersionsSequential(products) && PinsResolve(products, pins)
    ensures Keys(ProductsForPins(products, pins), ProductKey) <= OrderRepository.PinnedIds(pins)
  {
    var mapped := ProductsForPins(products, pins);
    forall id | id in Keys(mapped, ProductKey) ensures id in OrderRepository.PinnedIds(pins) {
      var p :| p in mapped && ProductKey(p) == id;
      var k :| 0 <= k < |mapped| && mapped[k] == p;
      assert pins[k] in pins && pins[k].productId == id;
    }
  }

  /** `mapDaoToOrder`: the row, its products and their total. */
  function MapDaoToOrder(products: seq<ProductDao>, pins: seq<OrderProductDao>, dao: OrderDao): (o: Order)
    requires VersionsSequential(products) && PinsResolve(products, pins)
    ensures o.orderId == dao.orderId && o.buyerEmailId == dao.buyerEmailId && o.orderTime == dao.orderTime
    ensures StrictlySorted(o.products, ProductKey)
    ensures Keys(o.products, ProductKey) == OrderRepository.PinnedIds(PinsOf(pins, dao.orderId))
    ensures forall p :: p in o.products ==> PinnedVersion(products, PinsOf(pins, dao.orderId), p)
    ensures o.orderCost == TotalOrderPrice(o.products)
  {
    var ps := GetProductsForOrder(products, pins, dao.orderId);
    Order(dao.orderId, dao.buyerEmailId, dao.orderTime, ps, TotalOrderPrice(ps))
  }

  /**
   * An order's cost is the sum of the prices of all its pinned versions: the
   * tree set drops none of them, since an order pins each product once.
   */
  lemma OrderCost(products: seq<ProductDao>, pins: seq<OrderProductDao>, dao: OrderDao)
    requires TablesWellFormed(products, [], pins)
    ensures var o := MapDaoToOrder(products, pins, dao);
      && |o.products| == |PinsOf(pins, dao.orderId)|
      && o.orderCost == TotalOrderPrice(ProductsForPins(products, PinsOf(pins, dao.orderId)))
  {
    var own := PinsOf(pins, dao.orderId);
    var mapped := ProductsForPins(products, own);
    PinsOfDistinct(pins, dao.orderId);
    assert DistinctKeys(mapped, ProductKey);
    CollectKeepsAll(mapped, ProductKey);
    TotalPermutation(Collect(mapped, ProductKey), mapped);
  }

  /** `getOderForId`: the order, or empty when no ORDERS row has that id. */
  function GetOrderForId(products: seq<ProductDao>, orders: seq<OrderDao>, pins: seq<OrderProductDao>, orderId: int): (r: Option<Order>)
    requires TablesWellFormed(products, orders, pins)
    ensures r.None? <==> forall o :: o in orders ==> o.orderId != orderId
    ensures r.Some? ==> exists dao :: dao in orders && dao.orderId == orderId && r.value == MapDaoToOrder(products, pins, dao)
  {
    OrderRepository.GetResult(orders, orderId);
    match OrderRepository.Get(orders, orderId)
    case Ok(dao) => Some(MapDaoToOrder(products, pins, dao))
    case Err(_) => None  // only EmptyResultDataAccessException, which is caught
  }

  /** `getAllOrdersBetweenDates`: the orders placed in [startTime, endTime], in a tree set ordered by orderId. */
  function GetAllOrdersBetweenDates(products: seq<ProductDao>, orders: seq<OrderDao>, pins: seq<OrderProductDao>,
                                    startTime: int, endTime: int): (os: seq<Order>)
    requires TablesWellFormed(products, orders, pins)
    ensures StrictlySorted(os, OrderKey)
    ensures forall o :: o in os <==>
      exists dao :: dao in orders && startTime <= dao.orderTime <= endTime && o == MapDaoToOrder(products, pins, dao)
  {
    var mapped := OrdersOf(products, pins, OrdersBetween(orders, startTime, endTime));
    OrdersInRange(products, orders, pins, startTime, endTime);
    KeepsAllMembers(mapped, OrderKey);
    Collect(mapped, OrderKey)
  }

  /** Mapping the rows in range gives exactly the orders in range, with distinct orderIds. */
  lemma OrdersInRange(products: seq<ProductDao>, orders: seq<OrderDao>, pins: seq<OrderProductDao>,
                      startTime: int, endTime: int)
    requires TablesWellFormed(products, orders, pins)
    ensures var mapped := OrdersOf(products, pins, OrdersBetween(orders, startTime, endTime));
      && DistinctKeys(mapped, OrderKey)
      && forall o :: o in mapped <==>
           exists dao :: dao in orders && startTime <= dao.orderTime <= endTime && o == MapDaoToOrder(products, pins, dao)
  {
    var daos := OrdersBetween(orders, startTime, endTime);
    assert IdsIncreasing(orders);
    OrdersBetweenIncreasing(orders, startTime, endTime);
    OrdersOfDistinct(products, pins, daos);
    OrdersOfMembers(products, pins, daos);
  }

  /** Rows with increasing ids map to orders with distinct ids. */
  lemma OrdersOfDistinct(products: seq<ProductDao>, pins: seq<OrderProductDao>, daos: seq<OrderDao>)
    requires VersionsSequential(products) && PinsResolve(products, pins)
    requires IdsIncreasing(daos)
    ensures DistinctKeys(OrdersOf(products, pins, daos), OrderKey)
  {
    var mapped := OrdersOf(products, pins, daos);
    forall i, j | 0 <= i < j < |mapped| ensures mapped[i].orderId != mapped[j].orderId {
      assert daos[i].orderId < daos[j].orderId;
    }
  }

  /** The mapped orders are exactly the mapped rows. */
  lemma OrdersOfMembers(products: seq<ProductDao>, pins: seq<OrderProductDao>, daos: seq<OrderDao>)
    requires VersionsSequential(products) && PinsResolve(products, pins)
    ensures forall o :: o in OrdersOf(products, pins, daos) <==> exists dao :: dao in daos && o == MapDaoToOrder(products, pins, dao)
  {
    var mapped := OrdersOf(products, pins, daos);
    forall o | o in mapped ensures exists dao :: dao in daos && o == MapDaoToOrder(products, pins, dao) {
      var i :| 0 <= i < |mapped| && mapped[i] == o;
      assert daos[i] in daos;
    }
    forall dao | dao in daos ensures MapDaoToOrder(products, pins, dao) in mapped {
      var i :| 0 <= i < |daos| && daos[i] == dao;
      assert mapped[i] == MapDaoToOrder(products, pins, dao);
    }
  }

  /** `.map(this::mapDaoToOrder)` over a sequence of rows. */
  function OrdersOf(products: seq<ProductDao>, pins: seq<OrderProductDao>, daos: seq<OrderDao>): (os: seq<Order>)
    requires VersionsSequential(products) && PinsResolve(products, pins)
    ensures |os| == |daos|
    ensures forall i :: 0 <= i < |daos| ==> os[i] == MapDaoToOrder(products, pins, daos[i])
  {
    seq(|daos|, i requires 0 <= i < |daos| => MapDaoToOrder(products, pins, daos[i]))
  }

  /** ORDERS rows in strictly ascending orderId, as SQ_ORDER_ID hands the ids out. */
  ghost predicate IdsIncreasing(orders: seq<OrderDao>)
  {
    forall i, j :: 0 <= i < j < |orders| ==> orders[i].orderId < orders[j].orderId
  }

  lemma AppendIncreasing(orders: seq<OrderDao>, last: OrderDao)
    requires IdsIncreasing(orders)
    requires forall o :: o in orders ==> o.orderId < last.orderId
    ensures IdsIncreasing(orders + [last])
  {
    var r := orders + [last];
    forall i, j | 0 <= i < j < |r| ensures r[i].orderId < r[j].orderId {
      assert r[i] == orders[i];
      if j < |orders| {
        assert r[j] == orders[j];
      } else {
        assert orders[i] in orders;
      }
    }
  }

  lemma {:induction false} OrdersBetweenIncreasing(orders: seq<OrderDao>, startTime: int, endTime: int)
    requires IdsIncreasing(orders)
    ensures IdsIncreasing(OrdersBetween(orders, startTime, endTime))
  {
    if orders != [] {
      var n := |orders|;
      var init, last := orders[..n - 1], orders[n - 1];
      assert orders == init + [last];
      assert IdsIncreasing(init);
      OrdersBetweenIncreasing(init, startTime, endTime);
      if startTime <= last.orderTime <= endTime {
        var before := OrdersBetween(init, startTime, endTime);
        forall o | o in before ensures o.orderId < last.orderId {
          assert o in init;
          var k :| 0 <= k < n - 1 && init[k] == o;
          assert orders[k] == o;
        }
        AppendIncreasing(before, last);
      }
    }
  }

  /* ---------- Recalculating ---------- */

  /** `.map(pin -> productService.getActiveProductForId(...).get())`: the pinned products as they are now. */
  function ProductsWithLatestPrice(products: seq<ProductDao>, pins: seq<OrderProductDao>): (ps: seq<Product>)
    requires ProductsWellFormed(products) && PinsResolve(products, pins)
    ensures |ps| == |pins|
    ensures forall k :: 0 <= k < |pins| ==>
      exists i :: (0 <= i < |products| && products[i].productId == pins[k].productId && products[i].latest
                   && ps[k] == ProductService.MapDaoToProduct(products[i]))
  {
    var ps := seq(|pins|, k requires 0 <= k < |pins| =>
      assert pins[k] in pins;
      ProductService.GetActiveProductForId(products, pins[k].productId).value);
    assert forall k :: 0 <= k < |pins| ==>
      ps[k] == ProductService.GetActiveProductForId(products, pins[k].productId).value;
    ps
  }

  /**
   * `recalculateOrderAmount`: the sum of the current prices of the order's
   * products; an unknown order raises ResourceNotFoundException.
   */
  function RecalculateOrderAmount(products: seq<ProductDao>, orders: seq<OrderDao>, pins: seq<OrderProductDao>,
                                  orderId: int): (r: Result<real>)
    requires TablesWellFormed(products, orders, pins)
    ensures r.Err? <==> forall o :: o in orders ==> o.orderId != orderId
    ensures r.Err? ==> r.error == ResourceNotFound
    ensures r.Ok? ==> r.value == TotalOrderPrice(ProductsWithLatestPrice(products, PinsOf(pins, orderId)))
  {
    match GetOrderForId(products, orders, pins, orderId)
    case None => Err(ResourceNotFound)
    case Some(_) => Ok(TotalOrderPrice(ProductsWithLatestPrice(products, PinsOf(pins, orderId))))
  }

  /** The version count(*) of a product is its active version. */
  lemma TopVersionIsActive(products: seq<ProductDao>, productId: int)
    requires ProductsWellFormed(products)
    requires VersionCount(products, productId) > 0
    ensures ProductService.GetProductForVersion(products, productId, VersionCount(products, productId))
         == ProductService.GetActiveProductForId(products, productId)
  {
    LatestRow(products, productId);
    var x :| x in products && x.productId == productId && x.version == VersionCount(products, productId)
             && LatestOf(products, productId) == [x];
    RowsAtSingle(products, x);
  }

  /** While none of its products has a newer version, recalculating gives back the stored cost. */
  lemma RecalculateMatchesCost(products: seq<ProductDao>, orders: seq<OrderDao>, pins: seq<OrderProductDao>, dao: OrderDao)
    requires TablesWellFormed(products, orders, pins)
    requires dao in orders
    requires forall pin :: pin in pins && pin.orderId == dao.orderId ==> pin.version == VersionCount(products, pin.productId)
    ensures RecalculateOrderAmount(products, orders, pins, dao.orderId) == Ok(MapDaoToOrder(products, pins, dao).orderCost)
  {
    var own := PinsOf(pins, dao.orderId);
    OrderCost(products, pins, dao);
    forall k | 0 <= k < |own|
      ensures ProductsForPins(products, own)[k] == ProductsWithLatestPrice(products, own)[k]
    {
      assert own[k] in own;
      TopVersionIsActive(products, own[k].productId);
    }
    assert ProductsForPins(products, own) == ProductsWithLatestPrice(products, own);
  }

  /* ---------- Placing ---------- */

  /** `placeOrder`: save the order and read it back. */
  method PlaceOrder(db: Database, request: OrderCreateRequest) returns (r: Result<Order>)
    requires db.Valid()
    modifies db
    ensures db.Valid()
    ensures db.products == old(db.products) && db.productIdSeq == old(db.productIdSeq)
    ensures db.orderIdSeq == old(db.orderIdSeq) + 1
    ensures r.Ok? <==> (request.productSet.Some? &&
                        forall id :: id in request.productSet.value ==> VersionCount(db.products, id) > 0)
    ensures r.Err? ==> db.orders == old(db.orders) && db.ordersProducts == old(db.ordersProducts)
    ensures r.Ok? ==>
      && db.orders == old(db.orders) + [OrderDao(old(db.orderIdSeq), request.buyerEmailId, request.orderTime)]
      && |old(db.ordersProducts)| <= |db.ordersProducts|
      && db.ordersProducts[..|old(db.ordersProducts)|] == old(db.ordersProducts)
      && OrderRepository.PinnedAtLatest(db.ordersProducts[|old(db.ordersProducts)|..], old(db.orderIdSeq),
                                        request.productSet.value, db.products)
      && r.value == MapDaoToOrder(db.products, db.ordersProducts, db.orders[|db.orders| - 1])
      && r.value.orderId == old(db.orderIdSeq) && r.value.buyerEmailId == request.buyerEmailId
      && r.value.orderTime == request.orderTime && r.value.orderCost == TotalOrderPrice(r.value.products)
      && Keys(r.value.products, ProductKey) == request.productSet.value
      && (forall p :: p in r.value.products ==> ProductService.GetActiveProductForId(db.products, p.productId) == Some(p))
      && RecalculateOrderAmount(db.products, db.orders, db.ordersProducts, r.value.orderId) == Ok(r.value.orderCost)
  {
    var saved := OrderRepository.Save(db, request);
    match saved
    case Err(e) =>
      r := Err(e);
    case Ok(dao) =>
      PlacedOrder(old(db.products), old(db.orders), old(db.ordersProducts), old(db.productIdSeq), old(db.orderIdSeq),
                  db.ordersProducts, dao, request.productSet.value);
      assert db.orders[|db.orders| - 1] == dao;
      r := Ok(MapDaoToOrder(db.products, db.ordersProducts, dao));
  }

  /** What `placeOrder` returns reads back the latest version of every requested product. */
  lemma PlacedOrder(products: seq<ProductDao>, orders: seq<OrderDao>, pins: seq<OrderProductDao>,
                    productIdSeq: int, orderIdSeq: int, allPins: seq<OrderProductDao>, dao: OrderDao, productIds: set<int>)
    requires Consistent(products, orders, pins, productIdSeq, orderIdSeq)
    requires Consistent(products, orders + [dao], allPins, productIdSeq, orderIdSeq + 1)
    requires dao.orderId == orderIdSeq
    requires |pins| <= |allPins| && allPins[..|pins|] == pins
    requires OrderRepository.PinnedAtLatest(allPins[|pins|..], orderIdSeq, productIds, products)
    ensures TablesWellFormed(products, orders + [dao], allPins)
    ensures var o := MapDaoToOrder(products, allPins, dao);
      && Keys(o.products, ProductKey) == productIds
      && (forall p :: p in o.products ==> ProductService.GetActiveProductForId(products, p.productId) == Some(p))
      && RecalculateOrderAmount(products, orders + [dao], allPins, dao.orderId) == Ok(o.orderCost)
  {
    ConsistentTables(products, orders + [dao], allPins, productIdSeq, orderIdSeq + 1);
    var added := allPins[|pins|..];
    assert allPins == pins + added;
    FreshOrderPins(pins, added, dao.orderId);
    assert dao in orders + [dao];
    RecalculateMatchesCost(products, orders + [dao], allPins, dao);
    ProductsAtTopAreActive(products, added);
  }

  /** The pins of a freshly numbered order are exactly the ones inserted with it. */
  lemma FreshOrderPins(pins: seq<OrderProductDao>, added: seq<OrderProductDao>, orderId: int)
    requires forall k :: 0 <= k < |pins| ==> pins[k].orderId < orderId
    requires forall k :: 0 <= k < |added| ==> added[k].orderId == orderId
    ensures PinsOf(pins + added, orderId) == added
  {
    PinsOfAppend(pins, added, orderId);
    forall pin | pin in pins ensures pin.orderId != orderId {
      var k :| 0 <= k < |pins| && pins[k] == pin;
    }
    PinsOfAbsent(pins, orderId);
    forall pin | pin in added ensures pin.orderId == orderId {
      var k :| 0 <= k < |added| && added[k] == pin;
    }
    PinsOfAll(added, orderId);
  }

  /** Pins at their product's top version read as the products' active versions. */
  lemma ProductsAtTopAreActive(products: seq<ProductDao>, pins: seq<OrderProductDao>)
    requires ProductsWellFormed(products) && PinsResolve(products, pins)
    requires forall pin :: pin in pins ==> pin.version == VersionCount(products, pin.productId)
    ensures forall p :: p in Collect(ProductsForPins(products, pins), ProductKey) ==>
      ProductService.GetActiveProductForId(products, p.productId) == Some(p)
  {
    var mapped := ProductsForPins(products, pins);
    forall p | p in Collect(mapped, ProductKey)
      ensures ProductService.GetActiveProductForId(products, p.productId) == Some(p)
    {
      assert p in multiset(Collect(mapped, ProductKey));
      var k :| 0 <= k < |mapped| && mapped[k] == p;
      assert pins[k] in pins;
      TopVersionIsActive(products, pins[k].productId);
    }
  }

  /* ---------- Placed orders keep their prices ---------- */

  /** Pins resolve to the same products in two tables that agree on every pinned version. */
  lemma SamePinnedProducts(a: seq<ProductDao>, b: seq<ProductDao>, pins: seq<OrderProductDao>)
    requires VersionsSequential(a) && PinsResolve(a, pins)
    requires VersionsSequential(b) && PinsResolve(b, pins)
    requires forall pin :: pin in pins ==>
      ProductService.GetProductForVersion(a, pin.productId, pin.version) == ProductService.GetProductForVersion(b, pin.productId, pin.version)
    ensures ProductsForPins(a, pins) == ProductsForPins(b, pins)
  {
    forall k | 0 <= k < |pins| ensures ProductsForPins(a, pins)[k] == ProductsForPins(b, pins)[k] {
      assert pins[k] in pins;
    }
  }

  /** `update` does not change what any stored version reads as. */
  lemma VersionLookupAfterUpdate(products: seq<ProductDao>, id: int, name: string, price: real, productId: int, version: int)
    requires ProductsWellFormed(products)
    requires VersionCount(products, id) > 0
    requires 1 <= version <= VersionCount(products, productId)
    ensures ProductsWellFormed(UpdatedRows(products, id, name, price))
    ensures ProductService.GetProductForVersion(UpdatedRows(products, id, name, price), productId, version)
         == ProductService.GetProductForVersion(products, productId, version)
  {
    var after := UpdatedRows(products, id, name, price);
    UpdatedWellFormed(products, id, name, price);
    VersionExists(products, productId, version);
    var i :| 0 <= i < |products| && products[i].productId == productId && products[i].version == version;
    RowsAtSingle(products, products[i]);
    assert after[i] == ClearLatest(products, id, VersionCount(products, id))[i];
    assert after[i] in after;
    RowsAtSingle(after, after[i]);
  }

  /** Updating a product changes neither the products nor the cost of a placed order. */
  lemma OrderStableUnderUpdate(products: seq<ProductDao>, pins: seq<OrderProductDao>, dao: OrderDao,
                               id: int, name: string, price: real)
    requires ProductsWellFormed(products) && PinsResolve(products, pins)
    requires VersionCount(products, id) > 0
    ensures ProductsWellFormed(UpdatedRows(products, id, name, price))
    ensures PinsResolve(UpdatedRows(products, id, name, price), pins)
    ensures MapDaoToOrder(UpdatedRows(products, id, name, price), pins, dao) == MapDaoToOrder(products, pins, dao)
  {
    PinnedVersionsAfterUpdate(products, pins, id, name, price);
    SameOrder(UpdatedRows(products, id, name, price), products, pins, dao);
  }

  /** `update` changes what no pin reads. */
  lemma PinnedVersionsAfterUpdate(products: seq<ProductDao>, pins: seq<OrderProductDao>, id: int, name: string, price: real)
    requires ProductsWellFormed(products) && PinsResolve(products, pins)
    requires VersionCount(products, id) > 0
    ensures ProductsWellFormed(UpdatedRows(products, id, name, price))
    ensures PinsResolve(UpdatedRows(products, id, name, price), pins)
    ensures forall pin :: pin in pins ==>
      ProductService.GetProductForVersion(UpdatedRows(products, id, name, price), pin.productId, pin.version)
        == ProductService.GetProductForVersion(products, pin.productId, pin.version)
  {
    UpdatedWellFormed(products, id, name, price);
    forall pin | pin in pins
      ensures ProductService.GetProductForVersion(UpdatedRows(products, id, name, price), pin.productId, pin.version)
           == ProductService.GetProductForVersion(products, pin.productId, pin.version)
    {
      VersionLookupAfterUpdate(products, id, name, price, pin.productId, pin.version);
    }
  }

  /** Two tables that read the pinned versions alike give the same order. */
  lemma SameOrder(a: seq<ProductDao>, b: seq<ProductDao>, pins: seq<OrderProductDao>, dao: OrderDao)
    requires VersionsSequential(a) && PinsResolve(a, pins)
    requires VersionsSequential(b) && PinsResolve(b, pins)
    requires forall pin :: pin in pins ==>
      ProductService.GetProductForVersion(a, pin.productId, pin.version) == ProductService.GetProductForVersion(b, pin.productId, pin.version)
    ensures MapDaoToOrder(a, pins, dao) == MapDaoToOrder(b, pins, dao)
  {
    SamePinnedProducts(a, b, PinsOf(pins, dao.orderId));
  }

  /** Replacing one product of a sequence moves the total by the difference of the two prices. */
  lemma TotalReplace(ps: seq<Product>, k: int, p: Product)
    requires 0 <= k < |ps|
    ensures TotalOrderPrice(ps[k := p]) == TotalOrderPrice(ps) - ps[k].price + p.price
  {
    var front, back := ps[..k], ps[k + 1..];
    assert ps == front + [ps[k]] + back;
    assert ps[k := p] == front + [p] + back;
    TotalConcat(front + [ps[k]], back);
    TotalConcat(front, [ps[k]]);
    TotalConcat(front + [p], back);
    TotalConcat(front, [p]);
    assert [p][..0] == [] && [ps[k]][..0] == [];
  }

  /**
   * After `update`, recalculating an order reads the new version of the
   * updated product and the same active version of every other product.
   */
  lemma LatestPricesAfterUpdate(products: seq<ProductDao>, pins: seq<OrderProductDao>, id: int, name: string, price: real)
    requires ProductsWellFormed(products) && PinsResolve(products, pins)
    requires VersionCount(products, id) > 0
    ensures ProductsWellFormed(UpdatedRows(products, id, name, price))
    ensures PinsResolve(UpdatedRows(products, id, name, price), pins)
    ensures forall k :: 0 <= k < |pins| ==>
      ProductsWithLatestPrice(UpdatedRows(products, id, name, price), pins)[k]
        == if pins[k].productId == id then Product(id, name, price) else ProductsWithLatestPrice(products, pins)[k]
  {
    var after := UpdatedRows(products, id, name, price);
    UpdatedWellFormed(products, id, name, price);
    forall k | 0 <= k < |pins|
      ensures ProductsWithLatestPrice(after, pins)[k]
        == if pins[k].productId == id then Product(id, name, price) else ProductsWithLatestPrice(products, pins)[k]
    {
      assert pins[k] in pins;
      if pins[k].productId == id {
        ProductService.UpdatedLookup(products, id, name, price);
      } else {
        ProductService.UpdateKeepsOthers(products, id, name, price, pins[k].productId);
      }
    }
  }

  /**
   * Recalculating tracks updates: after `update` of a product the order pins,
   * the recalculated amount moves by the change in that product's price; for
   * an order that does not pin it, the amount stays.
   */
  lemma RecalculateTracksUpdate(products: seq<ProductDao>, orders: seq<OrderDao>, pins: seq<OrderProductDao>,
                                orderId: int, id: int, name: string, price: real)
    requires TablesWellFormed(products, orders, pins)
    requires VersionCount(products, id) > 0
    ensures TablesWellFormed(UpdatedRows(products, id, name, price), orders, pins)
    ensures RecalculateOrderAmount(UpdatedRows(products, id, name, price), orders, pins, orderId).Ok?
         == RecalculateOrderAmount(products, orders, pins, orderId).Ok?
    ensures RecalculateOrderAmount(products, orders, pins, orderId).Ok? ==>
      var before := RecalculateOrderAmount(products, orders, pins, orderId).value;
      var now := RecalculateOrderAmount(UpdatedRows(products, id, name, price), orders, pins, orderId).value;
      if id in OrderRepository.PinnedIds(PinsOf(pins, orderId))
      then now == before - ProductService.GetActiveProductForId(products, id).value.price + price
      else now == before
  {
    WellFormedAfterUpdate(products, orders, pins, id, name, price);
    var after := UpdatedRows(products, id, name, price);
    var before := RecalculateOrderAmount(products, orders, pins, orderId);
    var now := RecalculateOrderAmount(after, orders, pins, orderId);
    assert now.Ok? == before.Ok?;
    if before.Ok? {
      OwnPinsResolve(products, pins, orderId);
      LatestTotalAfterUpdate(products, PinsOf(pins, orderId), id, name, price);
      assert now.value == TotalOrderPrice(ProductsWithLatestPrice(after, PinsOf(pins, orderId)));
    }
  }

  lemma WellFormedAfterUpdate(products: seq<ProductDao>, orders: seq<OrderDao>, pins: seq<OrderProductDao>,
                              id: int, name: string, price: real)
    requires TablesWellFormed(products, orders, pins)
    requires VersionCount(products, id) > 0
    ensures TablesWellFormed(UpdatedRows(products, id, name, price), orders, pins)
  {
    UpdatedWellFormed(products, id, name, price);
  }

  /** One order's pins resolve and name distinct products. */
  lemma OwnPinsResolve(products: seq<ProductDao>, pins: seq<OrderProductDao>, orderId: int)
    requires PinsResolve(products, pins)
    requires forall k, l :: 0 <= k < l < |pins| && pins[k].orderId == pins[l].orderId ==> pins[k].productId != pins[l].productId
    ensures PinsResolve(products, PinsOf(pins, orderId))
    ensures forall k, l :: 0 <= k < l < |PinsOf(pins, orderId)| ==> PinsOf(pins, orderId)[k].productId != PinsOf(pins, orderId)[l].productId
  {
    PinsOfDistinct(pins, orderId);
  }

  /** The latest-price total of pins naming distinct products, before and after `update`. */
  lemma LatestTotalAfterUpdate(products: seq<ProductDao>, pins: seq<OrderProductDao>, id: int, name: string, price: real)
    requires ProductsWellFormed(products) && PinsResolve(products, pins)
    requires VersionCount(products, id) > 0
    requires forall k, l :: 0 <= k < l < |pins| ==> pins[k].productId != pins[l].productId
    ensures ProductsWellFormed(UpdatedRows(products, id, name, price))
    ensures PinsResolve(UpdatedRows(products, id, name, price), pins)
    ensures var was := TotalOrderPrice(ProductsWithLatestPrice(products, pins));
      var now := TotalOrderPrice(ProductsWithLatestPrice(UpdatedRows(products, id, name, price), pins));
      if id in OrderRepository.PinnedIds(pins)
      then now == was - ProductService.GetActiveProductForId(products, id).value.price + price
      else now == was
  {
    if id in OrderRepository.PinnedIds(pins) {
      var k := PinIndex(pins, id);
      PinnedTotalAfterUpdate(products, pins, id, name, price, k);
    } else {
      UnpinnedLatestAfterUpdate(products, pins, id, name, price);
    }
  }

  /** Where a pinned product sits among the pins. */
  lemma PinIndex(pins: seq<OrderProductDao>, id: int) returns (k: int)
    requires id in OrderRepository.PinnedIds(pins)
    ensures 0 <= k < |pins| && pins[k].productId == id
  {
    var pin :| pin in pins && pin.productId == id;
    k :| 0 <= k < |pins| && pins[k] == pin;
  }

  /** An update of a product the pins do not name leaves their latest-price products as they were. */
  lemma UnpinnedLatestAfterUpdate(products: seq<ProductDao>, pins: seq<OrderProductDao>, id: int, name: string, price: real)
    requires ProductsWellFormed(products) && PinsResolve(products, pins)
    requires VersionCount(products, id) > 0
    requires id !in OrderRepository.PinnedIds(pins)
    ensures ProductsWellFormed(UpdatedRows(products, id, name, price))
    ensures PinsResolve(UpdatedRows(products, id, name, price), pins)
    ensures ProductsWithLatestPrice(UpdatedRows(products, id, name, price), pins) == ProductsWithLatestPrice(products, pins)
  {
    LatestPricesAfterUpdate(products, pins, id, name, price);
    forall k | 0 <= k < |pins| ensures pins[k].productId != id {
      assert pins[k] in pins;
    }
  }

  lemma PinnedTotalAfterUpdate(products: seq<ProductDao>, pins: seq<OrderProductDao>, id: int, name: string, price: real, k: int)
    requires ProductsWellFormed(products) && PinsResolve(products, pins)
    requires VersionCount(products, id) > 0
    requires forall a, b :: 0 <= a < b < |pins| ==> pins[a].productId != pins[b].productId
    requires 0 <= k < |pins| && pins[k].productId == id
    ensures ProductsWellFormed(UpdatedRows(products, id, name, price))
    ensures PinsResolve(UpdatedRows(products, id, name, price), pins)
    ensures TotalOrderPrice(ProductsWithLatestPrice(UpdatedRows(products, id, name, price), pins))
         == TotalOrderPrice(ProductsWithLatestPrice(products, pins))
            - ProductService.GetActiveProductForId(products, id).value.price + price
  {
    var was := ProductsWithLatestPrice(products, pins);
    PinnedLatestAfterUpdate(products, pins, id, name, price, k);
    LatestPriceAt(products, pins, k);
    TotalReplace(was, k, Product(id, name, price));
  }

  /** With each product pinned once, `update` replaces exactly the one latest-price entry of the updated product. */
  lemma PinnedLatestAfterUpdate(products: seq<ProductDao>, pins: seq<OrderProductDao>, id: int, name: string, price: real, k: int)
    requires ProductsWellFormed(products) && PinsResolve(products, pins)
    requires VersionCount(products, id) > 0
    requires forall a, b :: 0 <= a < b < |pins| ==> pins[a].productId != pins[b].productId
    requires 0 <= k < |pins| && pins[k].productId == id
    ensures ProductsWellFormed(UpdatedRows(products, id, name, price))
    ensures PinsResolve(UpdatedRows(products, id, name, price), pins)
    ensures ProductsWithLatestPrice(UpdatedRows(products, id, name, price), pins)
         == ProductsWithLatestPrice(products, pins)[k := Product(id, name, price)]
  {
    LatestPricesAfterUpdate(products, pins, id, name, price);
    ReplaceOne(ProductsWithLatestPrice(UpdatedRows(products, id, name, price), pins),
               ProductsWithLatestPrice(products, pins), pins, id, Product(id, name, price), k);
  }

  /** A pointwise replacement at the one position naming `id` is an update of that position. */
  lemma ReplaceOne(now: seq<Product>, was: seq<Product>, pins: seq<OrderProductDao>, id: int, p: Product, k: int)
    requires |now| == |was| == |pins|
    requires forall j :: 0 <= j < |pins| ==> now[j] == if pins[j].productId == id then p else was[j]
    requires forall a, b :: 0 <= a < b < |pins| ==> pins[a].productId != pins[b].productId
    requires 0 <= k < |pins| && pins[k].productId == id
    ensures now == was[k := p]
  {
    forall j | 0 <= j < |pins| && j != k ensures pins[j].productId != id {
      if j < k { assert pins[j].productId != pins[k].productId; }
      else { assert pins[k].productId != pins[j].productId; }
    }
    assert forall j :: 0 <= j < |now| ==> now[j] == was[k := p][j];
  }

  /** Each entry of the recalculation is its pin's active product. */
  lemma LatestPriceAt(products: seq<ProductDao>, pins: seq<OrderProductDao>, k: int)
    requires ProductsWellFormed(products) && PinsResolve(products, pins)
    requires 0 <= k < |pins|
    ensures VersionCount(products, pins[k].productId) > 0
    ensures ProductsWithLatestPrice(products, pins)[k] == ProductService.GetActiveProductForId(products, pins[k].productId).value
  {
    var was := ProductsWithLatestPrice(products, pins);
    assert pins[k] in pins;
    var i :| 0 <= i < |products| && products[i].productId == pins[k].productId && products[i].latest
             && was[k] == ProductService.MapDaoToProduct(products[i]);
    assert products[i] in products;
    LatestRowIs(products, products[i]);
  }

  /** Placing another order leaves the products and cost of an existing order as they were. */
  lemma OrderStableUnderPlace(products: seq<ProductDao>, pins: seq<OrderProductDao>, added: seq<OrderProductDao>, dao: OrderDao)
    requires VersionsSequential(products) && PinsResolve(products, pins + added)
    requires forall pin :: pin in added ==> pin.orderId != dao.orderId
    ensures PinsResolve(products, pins)
    ensures MapDaoToOrder(products, pins + added, dao) == MapDaoToOrder(products, pins, dao)
  {
    assert forall pin :: pin in pins ==> pin in pins + added;
    PinsOfAppend(pins, added, dao.orderId);
    PinsOfAbsent(added, dao.orderId);
    assert PinsOf(pins + added, dao.orderId) == PinsOf(pins, dao.orderId);
  }

  /**
   * Placing an order leaves every order stored before it reading as it did:
   * the pins `save` adds all carry the new orderId, which no stored order has.
   */
  lemma PlaceKeepsEarlierOrders(products: seq<ProductDao>, pins: seq<OrderProductDao>, all: seq<OrderProductDao>,
                                orderIdSeq: int, productIds: set<int>, dao: OrderDao)
    requires VersionsSequential(products) && PinsResolve(products, all)
    requires |pins| <= |all| && all[..|pins|] == pins
    requires OrderRepository.PinnedAtLatest(all[|pins|..], orderIdSeq, productIds, products)
    requires dao.orderId < orderIdSeq
    ensures PinsResolve(products, pins)
    ensures MapDaoToOrder(products, all, dao) == MapDaoToOrder(products, pins, dao)
  {
    var added := all[|pins|..];
    assert all == pins + added;
    forall pin | pin in added ensures pin.orderId != dao.orderId {
      var k :| 0 <= k < |added| && added[k] == pin;
    }
    OrderStableUnderPlace(products, pins, added, dao);
  }

  /** Appending version 1 of a product with no rows keeps the versions numbered 1..N. */
  lemma SequentialAfterCreate(products: seq<ProductDao>, row: ProductDao)
    requires VersionsSequential(products)
    requires row.version == 1 && VersionCount(products, row.productId) == 0
    ensures VersionsSequential(products + [row])
  {
    var after := products + [row];
    assert after[..|products|] == products;
    forall i | 0 <= i < |after| ensures after[i].version == VersionCount(after[..i + 1], after[i].productId) {
      if i < |products| {
        assert after[..i + 1] == products[..i + 1];
      } else {
        assert after[..i + 1] == after;
      }
    }
  }

  /** Creating a product does not change what any stored version reads as. */
  lemma VersionLookupAfterCreate(products: seq<ProductDao>, row: ProductDao, productId: int, version: int)
    requires VersionsSequential(products)
    requires row.version == 1 && VersionCount(products, row.productId) == 0
    requires 1 <= version <= VersionCount(products, productId)
    ensures VersionsSequential(products + [row])
    ensures ProductService.GetProductForVersion(products + [row], productId, version)
         == ProductService.GetProductForVersion(products, productId, version)
  {
    var after := products + [row];
    SequentialAfterCreate(products, row);
    VersionExists(products, productId, version);
    var i :| 0 <= i < |products| && products[i].productId == productId && products[i].version == version;
    RowsAtSingle(products, products[i]);
    assert after[i] in after;
    RowsAtSingle(after, after[i]);
  }

  /** Creating a product changes neither the products nor the cost of a placed order. */
  lemma OrderStableUnderCreate(products: seq<ProductDao>, pins: seq<OrderProductDao>, dao: OrderDao, row: ProductDao)
    requires VersionsSequential(products) && PinsResolve(products, pins)
    requires row.version == 1 && VersionCount(products, row.productId) == 0
    ensures VersionsSequential(products + [row]) && PinsResolve(products + [row], pins)
    ensures MapDaoToOrder(products + [row], pins, dao) == MapDaoToOrder(products, pins, dao)
  {
    var after := products + [row];
    SequentialAfterCreate(products, row);
    ResolveAfterCreate(products, pins, row);
    var own := PinsOf(pins, dao.orderId);
    forall pin | pin in own
      ensures ProductService.GetProductForVersion(after, pin.productId, pin.version)
           == ProductService.GetProductForVersion(products, pin.productId, pin.version)
    {
      VersionLookupAfterCreate(products, row, pin.productId, pin.version);
    }
    SamePinnedProducts(after, products, own);
  }

  lemma ResolveAfterCreate(products: seq<ProductDao>, pins: seq<OrderProductDao>, row: ProductDao)
    requires PinsResolve(products, pins)
    ensures PinsResolve(products + [row], pins)
  {
    forall pin | pin in pins ensures 1 <= pin.version <= VersionCount(products + [row], pin.productId) {
      CountAppend(products, row, pin.productId);
    }
  }
}
