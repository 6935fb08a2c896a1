/**
 * OrderController: the validate-then-place branch of the place endpoint and
 * the found/not-found branch of the get endpoint. HTTP is reduced to the
 * response kinds these branches produce.
 */
module OrderController {
  import opened Domain
  import opened Tables
  import opened TreeSets
  import opened Store
  import ProductService
  import OrderService
  import OrderRepository

  /** What `place` answers: BAD_REQUEST with no body, or OK with the placed order. */
  datatype PlaceResponse = BadRequest | Placed(order: Order)

  /** What `get` answers: NOT_FOUND, or OK with the order. */
  datatype GetResponse = NotFound | Found(order: Order)

  /**
   * `CheckIfAllProductsValid`: true means the request is refused. A missing
   * or empty product set is refused; otherwise the set is refused when some
   * productId was never stored.
   */
  function CheckIfAllProductsValid(products: seq<ProductDao>, productIds: Option<set<int>>): (refused: bool)
    ensures productIds.None? ==> refused
    ensures productIds.Some? && productIds.value == {} ==> refused
    ensures productIds.Some? && productIds.value != {} ==>
      (refused <==> exists id :: id in productIds.value && forall i :: 0 <= i < |products| ==> products[i].productId != id)
  {
    match productIds
    case None => true
    case Some(ids) =>
      ids == {} || exists id :: id in ids && ProductService.GetLatestVersionNumber(products, id) == 0
  }

  /** On a well-formed PRODUCTS table the check lets a set through exactly when every product in it has an active version. */
  lemma CheckPassesExactlyForActiveProducts(products: seq<ProductDao>, ids: set<int>)
    requires ProductsWellFormed(products)
    ensures !CheckIfAllProductsValid(products, Some(ids)) <==>
      ids != {} && forall id :: id in ids ==> ProductService.GetActiveProductForId(products, id).Some?
  {
    if !CheckIfAllProductsValid(products, Some(ids)) {
      forall id | id in ids ensures ProductService.GetActiveProductForId(products, id).Some? {
        assert ProductService.GetLatestVersionNumber(products, id) != 0;
      }
    }
    if ids != {} && forall id :: id in ids ==> ProductService.GetActiveProductForId(products, id).Some? {
      forall id | id in ids ensures ProductService.GetLatestVersionNumber(products, id) != 0 {
        assert ProductService.GetActiveProductForId(products, id).Some?;
      }
    }
  }

  /**
   * `place`: a refused request is answered BAD_REQUEST and `placeOrder` is
   * not called, so nothing is stored; otherwise `placeOrder` is called once
   * and, every product being known, it succeeds.
   */
  method Place(db: Database, request: OrderCreateRequest) returns (response: PlaceResponse)
    requires db.Valid()
    modifies db
    ensures db.Valid()
    ensures response.BadRequest? <==> CheckIfAllProductsValid(old(db.products), request.productSet)
    ensures response.BadRequest? ==> unchanged(db)
    ensures response.Placed? ==>
      && db.products == old(db.products) && db.productIdSeq == old(db.productIdSeq)
      && db.orderIdSeq == old(db.orderIdSeq) + 1
      && db.orders == old(db.orders) + [OrderDao(old(db.orderIdSeq), request.buyerEmailId, request.orderTime)]
      && |old(db.ordersProducts)| <= |db.ordersProducts|
      && db.ordersProducts[..|old(db.ordersProducts)|] == old(db.ordersProducts)
      && OrderRepository.PinnedAtLatest(db.ordersProducts[|old(db.ordersProducts)|..], old(db.orderIdSeq),
                                        request.productSet.value, db.products)
      && response.order == OrderService.MapDaoToOrder(db.products, db.ordersProducts, db.orders[|db.orders| - 1])
      && response.order.orderId == old(db.orderIdSeq) && response.order.buyerEmailId == request.buyerEmailId
      && response.order.orderTime == request.orderTime
      && Keys(response.order.products, ProductKey) == request.productSet.value
      && response.order.orderCost == OrderService.TotalOrderPrice(response.order.products)
      && (forall p :: p in response.order.products ==>
            ProductService.GetActiveProductForId(db.products, p.productId) == Some(p))
      && OrderService.RecalculateOrderAmount(db.products, db.orders, db.ordersProducts, response.order.orderId)
           == Ok(response.order.orderCost)
  {
    if CheckIfAllProductsValid(db.products, request.productSet) {
      return BadRequest;
    }
    forall id | id in request.productSet.value ensures VersionCount(db.products, id) > 0 {
      assert ProductService.GetLatestVersionNumber(db.products, id) != 0;
    }
    var placed := OrderService.PlaceOrder(db, request);
    if placed.Err? {
      assert false;
    }
    response := Placed(placed.value);
  }

  /** `get`: the order, or NOT_FOUND when `getOderForId` finds none. */
  function Get(products: seq<ProductDao>, orders: seq<OrderDao>, pins: seq<OrderProductDao>, orderId: int): (response: GetResponse)
    requires TablesWellFormed(products, orders, pins)
    ensures response.NotFound? <==> forall o :: o in orders ==> o.orderId != orderId
    ensures response.Found? ==>
      && response.order.orderId == orderId
      && exists dao :: dao in orders && dao.orderId == orderId && response.order == OrderService.MapDaoToOrder(products, pins, dao)
  {
    match OrderService.GetOrderForId(products, orders, pins, orderId)
    case None => NotFound
    case Some(order) => Found(order)
  }
}
