/**
 * The database the repositories share: the tables PRODUCTS, ORDERS and
 * ORDERS_PRODUCTS and the sequences SQ_PRODUCT_ID and SQ_ORDER_ID.
 */
module Store {
  import opened Domain
  import Tables

  class Database {
    var products: seq<ProductDao>              // PRODUCTS, in insertion order
    var orders: seq<OrderDao>                  // ORDERS
    var ordersProducts: seq<OrderProductDao>   // ORDERS_PRODUCTS
    var productIdSeq: int                      // the value SQ_PRODUCT_ID.nextval returns next
    var orderIdSeq: int                        // the value SQ_ORDER_ID.nextval returns next

    /** What holds of the database between transactions. */
    ghost predicate Valid()
      reads this
    {
      Tables.Consistent(products, orders, ordersProducts, productIdSeq, orderIdSeq)
    }

    /** The empty schema; both sequences start at 1. */
    constructor ()
      ensures Valid()
      ensures products == [] && orders == [] && ordersProducts == []
      ensures productIdSeq == 1 && orderIdSeq == 1
    {
      products, orders, ordersProducts := [], [], [];
      productIdSeq, orderIdSeq := 1, 1;
    }

    /** `SELECT SQ_PRODUCT_ID.nextval`: a value never handed out before. */
    method NextProductId() returns (id: int)
      requires Valid()
      modifies this`productIdSeq
      ensures Valid()
      ensures id == old(productIdSeq) && productIdSeq == id + 1
    {
      Tables.ConsistentAfterNextval(products, orders, ordersProducts, productIdSeq, orderIdSeq);
      id := productIdSeq;
      productIdSeq := productIdSeq + 1;
    }

    /** `SELECT SQ_ORDER_ID.nextval`. A sequence is not rolled back with a transaction. */
    method NextOrderId() returns (id: int)
      requires Valid()
      modifies this`orderIdSeq
      ensures Valid()
      ensures id == old(orderIdSeq) && orderIdSeq == id + 1
    {
      Tables.ConsistentAfterNextval(products, orders, ordersProducts, productIdSeq, orderIdSeq);
      id := orderIdSeq;
      orderIdSeq := orderIdSeq + 1;
    }
  }
}
