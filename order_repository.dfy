/**
 * H2OrderRepository: reads ORDERS, and places an order by inserting its row
 * and one pin per requested product, all in one transaction.
 */
module OrderRepository {
  import opened Domain
  import opened Tables
  import opened Store
  import ProductRepository

  /** `retrieveAllBetween`: the orders in [startTime, endTime], collected one row at a time. */
  method RetrieveAllBetween(db: Database, startTime: int, endTime: int) returns (results: seq<OrderDao>)
    ensures results == OrdersBetween(db.orders, startTime, endTime)
    ensures forall o :: o in results <==> o in db.orders && startTime <= o.orderTime <= endTime
  {
    results := [];
    var i := 0;
    while i < |db.orders|
      invariant 0 <= i <= |db.orders|
      invariant results == OrdersBetween(db.orders[..i], startTime, endTime)
    {
      var row := db.orders[i];
      assert db.orders[..i + 1][..i] == db.orders[..i];
      if startTime <= row.orderTime <= endTime {
        results := results + [row];
      }
      i := i + 1;
    }
    assert db.orders[..i] == db.orders;
  }

  /** `get`: the order row with that id, built with the requested id. */
  function Get(orders: seq<OrderDao>, orderId: int): (r: Result<OrderDao>)
    ensures r.Ok? ==> r.value in orders && r.value.orderId == orderId
  {
    match QueryForObject(OrderWithId(orders, orderId))
    case Ok(row) =>
      assert row in OrderWithId(orders, orderId);
      Ok(OrderDao(orderId, row.buyerEmailId, row.orderTime))
    case Err(e) => Err(e)
  }

  /** With orderId a key, `get` finds exactly the stored orders and otherwise raises the empty-result error. */
  lemma GetResult(orders: seq<OrderDao>, orderId: int)
    requires forall i, j :: 0 <= i < j < |orders| ==> orders[i].orderId < orders[j].orderId
    ensures Get(orders, orderId).Ok? <==> exists o :: o in orders && o.orderId == orderId
    ensures Get(orders, orderId).Err? ==> Get(orders, orderId).error == EmptyResult
  {
    if exists o :: o in orders && o.orderId == orderId {
      var o :| o in orders && o.orderId == orderId;
      OrderWithIdSingle(orders, o);
    } else {
      OrderWithIdAbsent(orders, orderId);
    }
  }

  /** `lockProductAndGetLatestVersionNumber`: lock the product's latest row, then count its versions. */
  function LockProductAndGetLatestVersionNumber(rows: seq<ProductDao>, productId: int): (r: Result<int>)
    ensures r.Ok? ==> r.value == VersionCount(rows, productId) && r.value >= 1
    ensures ProductsWellFormed(rows) ==> (r.Ok? <==> VersionCount(rows, productId) > 0)
    ensures ProductsWellFormed(rows) && r.Err? ==> r.error == EmptyResult
  {
    match ProductRepository.LockProduct(rows, productId)
    case Ok(_) => Ok(ProductRepository.GetLatestVersionNumber(rows, productId))
    case Err(e) =>
      assert ProductsWellFormed(rows) ==> VersionCount(rows, productId) == 0 && e == EmptyResult by {
        if ProductsWellFormed(rows) {
          ProductRepository.LockResult(rows, productId);
        }
      }
      Err(e)
  }

  /** The next element of a set in an iteration order left to the set. */
  method Pick(s: set<int>) returns (x: int)
    requires s != {}
    ensures x in s
  {
    if forall y :: y !in s {
      EmptyIfNoElement(s);
      assert false;
    }
    x :| x in s;
  }

  lemma EmptyIfNoElement(s: set<int>)
    requires forall y :: y !in s
    ensures s == {}
  {
    assert forall y :: y in s <==> y in {};
  }

  /** The productIds a sequence of pins names. */
  function PinnedIds(pins: seq<OrderProductDao>): set<int>
  {
    set pin | pin in pins :: pin.productId
  }

  /**
   * The pins `save` adds for order `orderId`: exactly one per requested product,
   * each at the product's version count in `products`.
   */
  ghost predicate PinnedAtLatest(added: seq<OrderProductDao>, orderId: int, productIds: set<int>, products: seq<ProductDao>)
  {
    && (forall k :: 0 <= k < |added| ==>
          && added[k].orderId == orderId && added[k].productId in productIds
          && added[k].version == VersionCount(products, added[k].productId))
    && PinnedIds(added) == productIds
    && (forall k, l :: 0 <= k < l < |added| ==> added[k].productId != added[l].productId)
  }

  /**
   * The pins a `save` has added once the products in `done` are handled: one
   * per product of `done`, each tagged with the order and at the product's
   * version count.
   */
  ghost predicate PinnedSoFar(added: seq<OrderProductDao>, orderId: int, done: set<int>, products: seq<ProductDao>)
  {
    && (forall k :: 0 <= k < |added| ==>
          && added[k].orderId == orderId && added[k].productId in done
          && added[k].version == VersionCount(products, added[k].productId) && added[k].version >= 1)
    && PinnedIds(added) == done
    && (forall k, l :: 0 <= k < l < |added| ==> added[k].productId != added[l].productId)
  }

  /** Pinning one more product of the remaining ones, at its version count. */
  lemma PinStep(added: seq<OrderProductDao>, orderId: int, productIds: set<int>, remaining: set<int>,
                products: seq<ProductDao>, productId: int)
    requires PinnedSoFar(added, orderId, productIds - remaining, products)
    requires forall x :: x in productIds - remaining ==> VersionCount(products, x) > 0
    requires remaining <= productIds && productId in remaining && VersionCount(products, productId) >= 1
    ensures PinnedSoFar(added + [OrderProductDao(orderId, productId, VersionCount(products, productId))],
                        orderId, productIds - (remaining - {productId}), products)
    ensures forall x :: x in productIds - (remaining - {productId}) ==> VersionCount(products, x) > 0
  {
    var pin := OrderProductDao(orderId, productId, VersionCount(products, productId));
    var next := added + [pin];
    assert (productIds - remaining) + {productId} == productIds - (remaining - {productId});
    assert PinnedIds(next) == PinnedIds(added) + {productId};
    forall k | 0 <= k < |added| ensures added[k].productId != productId {
      assert added[k] in added;
    }
  }

  /** Once every product is handled, the added pins are those `save` promises, and they keep the store invariant. */
  lemma PinnedAll(products: seq<ProductDao>, orders: seq<OrderDao>, pins: seq<OrderProductDao>,
                  productIdSeq: int, orderIdSeq: int, dao: OrderDao, added: seq<OrderProductDao>, productIds: set<int>)
    requires Consistent(products, orders, pins, productIdSeq, orderIdSeq)
    requires dao.orderId == orderIdSeq
    requires PinnedSoFar(added, orderIdSeq, productIds, products)
    ensures PinnedAtLatest(added, orderIdSeq, productIds, products)
    ensures Consistent(products, orders + [dao], pins + added, productIdSeq, orderIdSeq + 1)
  {
    ConsistentAfterPlace(products, orders, pins, productIdSeq, orderIdSeq, dao, added);
  }

  /**
   * `updateProductListInAssociationTable`: pin every product of the set in
   * turn, each after locking it and reading its version count. The first
   * product that cannot be locked ends the loop with the empty-result error,
   * leaving the pins inserted so far for the caller's transaction to roll back.
   */
  method UpdateProductListInAssociationTable(db: Database, orderId: int, productIds: set<int>) returns (r: Result<()>)
    requires ProductsWellFormed(db.products)
    modifies db`ordersProducts
    ensures r.Ok? <==> forall id :: id in productIds ==> VersionCount(db.products, id) > 0
    ensures r.Err? ==> r.error == EmptyResult
    ensures |old(db.ordersProducts)| <= |db.ordersProducts|
    ensures db.ordersProducts[..|old(db.ordersProducts)|] == old(db.ordersProducts)
    ensures r.Ok? ==> PinnedSoFar(db.ordersProducts[|old(db.ordersProducts)|..], orderId, productIds, db.products)
  {
    var pins0 := db.ordersProducts;
    var remaining := productIds;
    ghost var added: seq<OrderProductDao> := [];
    while remaining != {}
      invariant remaining <= productIds
      invariant db.ordersProducts == pins0 + added
      invariant PinnedSoFar(added, orderId, productIds - remaining, db.products)
      invariant forall x :: x in productIds - remaining ==> VersionCount(db.products, x) > 0
      decreases remaining
    {
      var productId := Pick(remaining);
      var version := LockProductAndGetLatestVersionNumber(db.products, productId);
      if version.Err? {
        assert (pins0 + added)[..|pins0|] == pins0;
        return Err(version.error);
      }
      var pin := OrderProductDao(orderId, productId, version.value);
      db.ordersProducts := db.ordersProducts + [pin];
      PinStep(added, orderId, productIds, remaining, db.products, productId);
      added := added + [pin];
      remaining := remaining - {productId};
    }
    assert productIds - remaining == productIds;
    assert (pins0 + added)[|pins0|..] == added;
    assert (pins0 + added)[..|pins0|] == pins0;
    r := Ok(());
  }

  /**
   * `save`: draw an orderId, insert the order, then pin its products. The
   * method is transactional: any failure rolls back both tables, though the
   * drawn id is not given back. A missing product set fails when iterated.
   */
  method Save(db: Database, request: OrderCreateRequest) returns (r: Result<OrderDao>)
    requires db.Valid()
    modifies db
    ensures db.Valid()
    ensures db.products == old(db.products) && db.productIdSeq == old(db.productIdSeq)
    ensures db.orderIdSeq == old(db.orderIdSeq) + 1
    ensures request.productSet.None? ==> r == Err(NullProductSet)
    ensures request.productSet.Some? ==>
      (r.Ok? <==> forall id :: id in request.productSet.value ==> VersionCount(db.products, id) > 0)
    ensures request.productSet.Some? && r.Err? ==> r.error == EmptyResult
    ensures r.Err? ==> db.orders == old(db.orders) && db.ordersProducts == old(db.ordersProducts)
    ensures r.Ok? ==>
      && r.value == OrderDao(old(db.orderIdSeq), request.buyerEmailId, request.orderTime)
      && db.orders == old(db.orders) + [r.value]
      && |old(db.ordersProducts)| <= |db.ordersProducts|
      && db.ordersProducts[..|old(db.ordersProducts)|] == old(db.ordersProducts)
      && PinnedAtLatest(db.ordersProducts[|old(db.ordersProducts)|..], r.value.orderId,
                        request.productSet.value, db.products)
  {
    var id := db.NextOrderId();
    var dao := OrderDao(id, request.buyerEmailId, request.orderTime);
    var orders0, pins0 := db.orders, db.ordersProducts;
    db.orders := db.orders + [dao];
    if request.productSet.None? {
      db.orders := orders0;  // the transaction is rolled back
      return Err(NullProductSet);
    }
    var pinned := UpdateProductListInAssociationTable(db, id, request.productSet.value);
    if pinned.Err? {
      db.orders, db.ordersProducts := orders0, pins0;  // the transaction is rolled back
      return Err(pinned.error);
    }
    PinnedAll(old(db.products), old(db.orders), old(db.ordersProducts),
              old(db.productIdSeq), old(db.orderIdSeq), dao, db.ordersProducts[|pins0|..], request.productSet.value);
    assert pins0 + db.ordersProducts[|pins0|..] == db.ordersProducts;
    r := Ok(dao);
  }
}
