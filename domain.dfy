/**
 * The records the order maker passes around: the rows of its three tables
 * (the DAO classes), the request bodies and the response objects, plus the
 * failure kinds the repositories and services raise.
 */
module Domain {

  datatype Option<+T> = None | Some(value: T)

  /** The exceptions the core raises or lets through. */
  datatype Error =
    | EmptyResult          // EmptyResultDataAccessException: a single-row query found no row
    | IncorrectResultSize  // IncorrectResultSizeDataAccessException: it found more than one
    | ResourceNotFound     // ResourceNotFoundException, thrown by the code itself
    | NullProductSet       // NullPointerException from iterating a null product set

  datatype Result<+T> = Ok(value: T) | Err(error: Error)

  /** One row of PRODUCTS: one immutable version of a product. */
  datatype ProductDao = ProductDao(productId: int, name: string, price: real, version: int, latest: bool)

  /** One row of ORDERS. Times are instants on an integer clock. */
  datatype OrderDao = OrderDao(orderId: int, buyerEmailId: string, orderTime: int)

  /** One row of ORDERS_PRODUCTS: the version of a product an order is pinned to. */
  datatype OrderProductDao = OrderProductDao(orderId: int, productId: int, version: int)

  /** The product as the API returns it: no version, no latest flag. */
  datatype Product = Product(productId: int, name: string, price: real)

  /** The order as the API returns it, with its products and its cost. */
  datatype Order = Order(orderId: int, buyerEmailId: string, orderTime: int, products: seq<Product>, orderCost: real)

  datatype ProductCreateRequest = ProductCreateRequest(name: string, price: real)

  datatype ProductUpdateRequest = ProductUpdateRequest(productId: int, name: string, price: real)

  /** `productSet` is `None` when the client sent no set at all (Java null). */
  datatype OrderCreateRequest = OrderCreateRequest(buyerEmailId: string, productSet: Option<set<int>>, orderTime: int)

  /** The key of `Comparator.comparingLong(Product::getProductId)`. */
  function ProductKey(p: Product): int { p.productId }

  /** The key of `Comparator.comparingLong(Order::getOrderId)`. */
  function OrderKey(o: Order): int { o.orderId }
}
