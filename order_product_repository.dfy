/** H2OrderProductRepository: reads the pins of one order from ORDERS_PRODUCTS. */
module OrderProductRepository {
  import opened Domain
  import opened Tables
  import opened Store

  /** `getAllForOrderId`: the query callback adds the order's pins one row at a time. */
  method GetAllForOrderId(db: Database, orderId: int) returns (results: seq<OrderProductDao>)
    ensures results == PinsOf(db.ordersProducts, orderId)
    ensures forall pin :: pin in results <==> pin in db.ordersProducts && pin.orderId == orderId
    ensures (forall pin :: pin in db.ordersProducts ==> pin.orderId != orderId) ==> results == []
  {
    results := [];
    var i := 0;
    while i < |db.ordersProducts|
      invariant 0 <= i <= |db.ordersProducts|
      invariant results == PinsOf(db.ordersProducts[..i], orderId)
    {
      var pin := db.ordersProducts[i];
      assert db.ordersProducts[..i + 1][..i] == db.ordersProducts[..i];
      if pin.orderId == orderId {
        results := results + [pin];
      }
      i := i + 1;
    }
    assert db.ordersProducts[..i] == db.ordersProducts;
    if forall pin :: pin in db.ordersProducts ==> pin.orderId != orderId {
      PinsOfAbsent(db.ordersProducts, orderId);
    }
  }
}
