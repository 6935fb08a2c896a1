/**
 * The three tables of the database as values, the SQL queries the
 * repositories run against them, and the invariant every committed state of
 * the database keeps. PRODUCTS rows are kept in insertion order.
 *
 * The definition of the view ACTIVE_PRODUCTS is not in the Java code; the view
 * is taken to select the rows of PRODUCTS with `latest = TRUE`, which is what
 * `lockProduct` asks for explicitly and what the tests observe.
 */
module Tables {
  import opened Domain

  /* ---------- Queries ---------- */

  /** `SELECT count(*) FROM PRODUCTS WHERE productId = ?` */
  function VersionCount(rows: seq<ProductDao>, id: int): nat
  {
    if rows == [] then 0
    else VersionCount(rows[..|rows| - 1], id) + (if rows[|rows| - 1].productId == id then 1 else 0)
  }

  /** `... FROM PRODUCTS WHERE version = ? AND productId = ?` */
  function RowsAt(rows: seq<ProductDao>, id: int, v: int): (r: seq<ProductDao>)
    ensures forall x :: x in r <==> x in rows && x.productId == id && x.version == v
  {
    if rows == [] then []
    else
      var init, last := rows[..|rows| - 1], rows[|rows| - 1];
      assert rows == init + [last];
      if last.productId == id && last.version == v then RowsAt(init, id, v) + [last] else RowsAt(init, id, v)
  }

  /** `... FROM PRODUCTS WHERE latest = TRUE AND productId = ?` (and ACTIVE_PRODUCTS with that productId) */
  function LatestOf(rows: seq<ProductDao>, id: int): (r: seq<ProductDao>)
    ensures forall x :: x in r <==> x in rows && x.latest && x.productId == id
  {
    if rows == [] then []
    else
      var init, last := rows[..|rows| - 1], rows[|rows| - 1];
      assert rows == init + [last];
      if last.latest && last.productId == id then LatestOf(init, id) + [last] else LatestOf(init, id)
  }

  /** `... FROM ACTIVE_PRODUCTS` */
  function ActiveRows(rows: seq<ProductDao>): (r: seq<ProductDao>)
    ensures forall x :: x in r <==> x in rows && x.latest
  {
    if rows == [] then []
    else
      var init, last := rows[..|rows| - 1], rows[|rows| - 1];
      assert rows == init + [last];
      if last.latest then ActiveRows(init) + [last] else ActiveRows(init)
  }

  /** `... FROM ORDERS WHERE orderId = ?` */
  function OrderWithId(orders: seq<OrderDao>, id: int): (r: seq<OrderDao>)
    ensures forall o :: o in r <==> o in orders && o.orderId == id
  {
    if orders == [] then []
    else
      var init, last := orders[..|orders| - 1], orders[|orders| - 1];
      assert orders == init + [last];
      if last.orderId == id then OrderWithId(init, id) + [last] else OrderWithId(init, id)
  }

  /** `... FROM ORDERS WHERE orderTime >= ? AND orderTime <= ?` */
  function OrdersBetween(orders: seq<OrderDao>, start: int, end: int): (r: seq<OrderDao>)
    ensures forall o :: o in r <==> o in orders && start <= o.orderTime <= end
  {
    if orders == [] then []
    else
      var init, last := orders[..|orders| - 1], orders[|orders| - 1];
      assert orders == init + [last];
      if start <= last.orderTime <= end then OrdersBetween(init, start, end) + [last] else OrdersBetween(init, start, end)
  }

  /** `... FROM ORDERS_PRODUCTS WHERE orderId = ?` */
  function PinsOf(pins: seq<OrderProductDao>, orderId: int): (r: seq<OrderProductDao>)
    ensures forall p :: p in r <==> p in pins && p.orderId == orderId
  {
    if pins == [] then []
    else
      var init, last := pins[..|pins| - 1], pins[|pins| - 1];
      assert pins == init + [last];
      if last.orderId == orderId then PinsOf(init, orderId) + [last] else PinsOf(init, orderId)
  }

  /** `JdbcTemplate.queryForObject`: exactly one row, or an exception. */
  function QueryForObject<T>(rows: seq<T>): Result<T>
  {
    if |rows| == 1 then Ok(rows[0])
    else if rows == [] then Err(EmptyResult)
    else Err(IncorrectResultSize)
  }

  /** `UPDATE PRODUCTS SET latest = 'false' WHERE version = ? AND productId = ?` */
  function ClearLatest(rows: seq<ProductDao>, id: int, v: int): (r: seq<ProductDao>)
    ensures |r| == |rows|
    ensures forall i :: 0 <= i < |rows| ==>
      && r[i].productId == rows[i].productId && r[i].version == rows[i].version
      && r[i].name == rows[i].name && r[i].price == rows[i].price
      && r[i].latest == (rows[i].latest && !(rows[i].productId == id && rows[i].version == v))
  {
    seq(|rows|, i requires 0 <= i < |rows| =>
      if rows[i].productId == id && rows[i].version == v then rows[i].(latest := false) else rows[i])
  }

  /* ---------- The invariant of committed states ---------- */

  /** The k-th row stored for a product carries version k. */
  ghost predicate VersionsSequential(rows: seq<ProductDao>)
  {
    forall i :: 0 <= i < |rows| ==> rows[i].version == VersionCount(rows[..i + 1], rows[i].productId)
  }

  /** A row is flagged latest exactly when it carries the product's highest version. */
  ghost predicate LatestIsTop(rows: seq<ProductDao>)
  {
    forall i :: 0 <= i < |rows| ==> (rows[i].latest <==> rows[i].version == VersionCount(rows, rows[i].productId))
  }

  ghost predicate ProductsWellFormed(rows: seq<ProductDao>)
  {
    VersionsSequential(rows) && LatestIsTop(rows)
  }

  ghost predicate Consistent(products: seq<ProductDao>, orders: seq<OrderDao>, pins: seq<OrderProductDao>,
                             productIdSeq: int, orderIdSeq: int)
  {
    && ProductsWellFormed(products)
    // SQ_PRODUCT_ID has not yet handed out any stored productId
    && (forall i :: 0 <= i < |products| ==> products[i].productId < productIdSeq)
    // orders are stored in the order SQ_ORDER_ID handed out their ids
    && (forall i, j :: 0 <= i < j < |orders| ==> orders[i].orderId < orders[j].orderId)
    && (forall i :: 0 <= i < |orders| ==> orders[i].orderId < orderIdSeq)
    // every pin names an allocated order and a stored version of its product
    && (forall k :: 0 <= k < |pins| ==>
          pins[k].orderId < orderIdSeq && 1 <= pins[k].version <= VersionCount(products, pins[k].productId))
    // an order pins each product once
    && (forall k, l :: 0 <= k < l < |pins| && pins[k].orderId == pins[l].orderId ==> pins[k].productId != pins[l].productId)
  }

  /** What the read paths rely on: products well formed, orderId a key of ORDERS, every pin resolvable. */
  ghost predicate TablesWellFormed(products: seq<ProductDao>, orders: seq<OrderDao>, pins: seq<OrderProductDao>)
  {
    && ProductsWellFormed(products)
    && (forall i, j :: 0 <= i < j < |orders| ==> orders[i].orderId < orders[j].orderId)
    && PinsResolve(products, pins)
    && (forall k, l :: 0 <= k < l < |pins| && pins[k].orderId == pins[l].orderId ==> pins[k].productId != pins[l].productId)
  }

  /** Every pin names a stored version of its product. */
  ghost predicate PinsResolve(products: seq<ProductDao>, pins: seq<OrderProductDao>)
  {
    forall pin :: pin in pins ==> 1 <= pin.version <= VersionCount(products, pin.productId)
  }

  /** The committed states are the well-formed ones the read paths need. */
  lemma ConsistentTables(products: seq<ProductDao>, orders: seq<OrderDao>, pins: seq<OrderProductDao>,
                         productIdSeq: int, orderIdSeq: int)
    requires Consistent(products, orders, pins, productIdSeq, orderIdSeq)
    ensures TablesWellFormed(products, orders, pins)
  {
    forall pin | pin in pins ensures 1 <= pin.version <= VersionCount(products, pin.productId) {
      var k :| 0 <= k < |pins| && pins[k] == pin;
    }
  }

  /* ---------- Lemmas about ORDERS and ORDERS_PRODUCTS ---------- */

  lemma {:induction false} OrderWithIdAbsent(orders: seq<OrderDao>, id: int)
    requires forall o :: o in orders ==> o.orderId != id
    ensures OrderWithId(orders, id) == []
  {
    if orders != [] {
      var init := orders[..|orders| - 1];
      assert orders == init + [orders[|orders| - 1]];
      OrderWithIdAbsent(init, id);
    }
  }

  /** orderId is a key of ORDERS: a stored order is found exactly once. */
  lemma {:induction false} OrderWithIdSingle(orders: seq<OrderDao>, o: OrderDao)
    requires forall i, j :: 0 <= i < j < |orders| ==> orders[i].orderId < orders[j].orderId
    requires o in orders
    ensures OrderWithId(orders, o.orderId) == [o]
  {
    var n := |orders|;
    var init, last := orders[..n - 1], orders[n - 1];
    assert orders == init + [last];
    if last == o {
      forall x | x in init ensures x.orderId != o.orderId {
        var i :| 0 <= i < n - 1 && init[i] == x;
      }
      OrderWithIdAbsent(init, o.orderId);
    } else {
      var i :| 0 <= i < n - 1 && orders[i] == o;
      OrderWithIdSingle(init, o);
    }
  }

  lemma {:induction false} PinsOfAbsent(pins: seq<OrderProductDao>, orderId: int)
    requires forall pin :: pin in pins ==> pin.orderId != orderId
    ensures PinsOf(pins, orderId) == []
  {
    if pins != [] {
      var init := pins[..|pins| - 1];
      assert pins == init + [pins[|pins| - 1]];
      PinsOfAbsent(init, orderId);
    }
  }

  lemma {:induction false} PinsOfAll(pins: seq<OrderProductDao>, orderId: int)
    requires forall pin :: pin in pins ==> pin.orderId == orderId
    ensures PinsOf(pins, orderId) == pins
  {
    if pins != [] {
      var init := pins[..|pins| - 1];
      assert pins == init + [pins[|pins| - 1]];
      PinsOfAll(init, orderId);
    }
  }

  lemma {:induction false} PinsOfAppend(pins: seq<OrderProductDao>, added: seq<OrderProductDao>, orderId: int)
    ensures PinsOf(pins + added, orderId) == PinsOf(pins, orderId) + PinsOf(added, orderId)
  {
    if added == [] {
      assert pins + added == pins;
    } else {
      var init, last := added[..|added| - 1], added[|added| - 1];
      var all := pins + added;
      assert all[..|all| - 1] == pins + init && all[|all| - 1] == last;
      PinsOfAppend(pins, init, orderId);
    }
  }

  /** An order pins each product once, so its pins carry distinct productIds. */
  lemma {:induction false} PinsOfDistinct(pins: seq<OrderProductDao>, orderId: int)
    requires forall k, l :: 0 <= k < l < |pins| && pins[k].orderId == pins[l].orderId ==> pins[k].productId != pins[l].productId
    ensures forall k, l :: 0 <= k < l < |PinsOf(pins, orderId)| ==> PinsOf(pins, orderId)[k].productId != PinsOf(pins, orderId)[l].productId
  {
    if pins != [] {
      var n := |pins|;
      var init, last := pins[..n - 1], pins[n - 1];
      assert pins == init + [last];
      PinsOfDistinct(init, orderId);
      var before := PinsOf(init, orderId);
      forall k | 0 <= k < |before| && last.orderId == orderId ensures before[k].productId != last.productId {
        assert before[k] in before;
        var j :| 0 <= j < n - 1 && init[j] == before[k];
      }
    }
  }

  /* ---------- Lemmas about PRODUCTS ---------- */

  lemma CountAppend(rows: seq<ProductDao>, x: ProductDao, id: int)
    ensures VersionCount(rows + [x], id) == VersionCount(rows, id) + (if x.productId == id then 1 else 0)
  {
    assert (rows + [x])[..|rows|] == rows;
  }

  /** A productId above every stored one has no rows: count(*) is 0. */
  lemma {:induction false} CountOfFreshId(rows: seq<ProductDao>, id: int)
    requires forall i :: 0 <= i < |rows| ==> rows[i].productId < id
    ensures VersionCount(rows, id) == 0
  {
    if rows != [] {
      CountOfFreshId(rows[..|rows| - 1], id);
    }
  }

  /** count(*) is positive exactly when some row of the product is stored. */
  lemma {:induction false} CountPositive(rows: seq<ProductDao>, id: int)
    ensures VersionCount(rows, id) > 0 <==> exists i :: 0 <= i < |rows| && rows[i].productId == id
  {
    if rows != [] {
      var init := rows[..|rows| - 1];
      CountPositive(init, id);
      if exists i :: 0 <= i < |init| && init[i].productId == id {
        var i :| 0 <= i < |init| && init[i].productId == id;
        assert rows[i].productId == id;
      }
    }
  }

  /** count(*) only depends on the productIds of the rows. */
  lemma {:induction false} CountSameIds(a: seq<ProductDao>, b: seq<ProductDao>, id: int)
    requires |a| == |b|
    requires forall i :: 0 <= i < |a| ==> a[i].productId == b[i].productId
    ensures VersionCount(a, id) == VersionCount(b, id)
  {
    if a != [] {
      CountSameIds(a[..|a| - 1], b[..|b| - 1], id);
    }
  }

  lemma {:induction false} CountPrefixMonotone(rows: seq<ProductDao>, k: nat, m: nat, id: int)
    requires k <= m <= |rows|
    ensures VersionCount(rows[..k], id) <= VersionCount(rows[..m], id)
  {
    if k < m {
      CountPrefixMonotone(rows, k, m - 1, id);
      assert rows[..m][..m - 1] == rows[..m - 1];
    }
  }

  lemma SequentialPrefix(rows: seq<ProductDao>, n: nat)
    requires VersionsSequential(rows) && n <= |rows|
    ensures VersionsSequential(rows[..n])
  {
    forall i | 0 <= i < n
      ensures rows[..n][i].version == VersionCount(rows[..n][..i + 1], rows[..n][i].productId)
    {
      assert rows[..n][..i + 1] == rows[..i + 1];
    }
  }

  /** Every stored version lies in 1..count(*). */
  lemma VersionBounds(rows: seq<ProductDao>)
    requires VersionsSequential(rows)
    ensures forall i :: 0 <= i < |rows| ==> 1 <= rows[i].version <= VersionCount(rows, rows[i].productId)
  {
    forall i | 0 <= i < |rows|
      ensures 1 <= rows[i].version <= VersionCount(rows, rows[i].productId)
    {
      assert rows[..i + 1][..i] == rows[..i];
      CountPrefixMonotone(rows, i + 1, |rows|, rows[i].productId);
      assert rows[..|rows|] == rows;
    }
  }

  /** Later rows of a product carry strictly higher versions. */
  lemma VersionsIncrease(rows: seq<ProductDao>, i: nat, j: nat)
    requires VersionsSequential(rows)
    requires i < j < |rows| && rows[i].productId == rows[j].productId
    ensures rows[i].version < rows[j].version
  {
    assert rows[..j + 1][..j] == rows[..j];
    CountPrefixMonotone(rows, i + 1, j, rows[i].productId);
  }

  /** Versions have no gaps: each of 1..count(*) is stored. */
  lemma {:induction false} VersionExists(rows: seq<ProductDao>, id: int, v: int)
    requires VersionsSequential(rows)
    requires 1 <= v <= VersionCount(rows, id)
    ensures exists i :: 0 <= i < |rows| && rows[i].productId == id && rows[i].version == v
  {
    var n := |rows|;
    var init, last := rows[..n - 1], rows[n - 1];
    assert rows[..n] == rows;
    if last.productId == id && v == VersionCount(rows, id) {
      assert rows[n - 1].version == v;
    } else {
      SequentialPrefix(rows, n - 1);
      VersionExists(init, id, v);
      var i :| 0 <= i < |init| && init[i].productId == id && init[i].version == v;
      assert rows[i] == init[i];
    }
  }

  /** A version outside 1..count(*) is not stored. */
  lemma {:induction false} RowsAtMissing(rows: seq<ProductDao>, id: int, v: int)
    requires VersionsSequential(rows)
    requires v < 1 || v > VersionCount(rows, id)
    ensures RowsAt(rows, id, v) == []
  {
    if rows != [] {
      var n := |rows|;
      SequentialPrefix(rows, n - 1);
      assert rows[..n] == rows;
      assert rows[..n][..n - 1] == rows[..n - 1];
      RowsAtMissing(rows[..n - 1], id, v);
    }
  }

  /** (productId, version) is a key of PRODUCTS: a stored version is found exactly once. */
  lemma {:induction false} RowsAtSingle(rows: seq<ProductDao>, x: ProductDao)
    requires VersionsSequential(rows)
    requires x in rows
    ensures RowsAt(rows, x.productId, x.version) == [x]
  {
    var n := |rows|;
    var init, last := rows[..n - 1], rows[n - 1];
    assert rows == init + [last];
    assert rows[..n] == rows;
    SequentialPrefix(rows, n - 1);
    VersionBounds(init);
    if last.productId == x.productId && last.version == x.version {
      RowsAtMissing(init, x.productId, x.version);
    } else {
      RowsAtSingle(init, x);
    }
  }

  /** The latest rows of a product are its rows carrying version `top`. */
  lemma {:induction false} LatestOfIsTop(rows: seq<ProductDao>, id: int, top: int)
    requires forall i :: 0 <= i < |rows| && rows[i].productId == id ==> (rows[i].latest <==> rows[i].version == top)
    ensures LatestOf(rows, id) == RowsAt(rows, id, top)
  {
    if rows != [] {
      LatestOfIsTop(rows[..|rows| - 1], id, top);
    }
  }

  /**
   * Exactly one row per created product is latest: the one with the highest
   * version; a product never created has none.
   */
  lemma LatestRow(rows: seq<ProductDao>, id: int)
    requires ProductsWellFormed(rows)
    ensures VersionCount(rows, id) == 0 ==> LatestOf(rows, id) == []
    ensures VersionCount(rows, id) > 0 ==>
      exists x :: x in rows && x.productId == id && x.version == VersionCount(rows, id) && LatestOf(rows, id) == [x]
  {
    LatestOfIsTop(rows, id, VersionCount(rows, id));
    if VersionCount(rows, id) == 0 {
      RowsAtMissing(rows, id, 0);
    } else {
      VersionExists(rows, id, VersionCount(rows, id));
      var i :| 0 <= i < |rows| && rows[i].productId == id && rows[i].version == VersionCount(rows, id);
      RowsAtSingle(rows, rows[i]);
    }
  }

  /** A stored row flagged latest is the one `LatestOf` finds. */
  lemma LatestRowIs(rows: seq<ProductDao>, x: ProductDao)
    requires ProductsWellFormed(rows)
    requires x in rows && x.latest
    ensures LatestOf(rows, x.productId) == [x]
  {
    LatestOfIsTop(rows, x.productId, VersionCount(rows, x.productId));
    RowsAtSingle(rows, x);
  }

  /** No two rows of ACTIVE_PRODUCTS belong to the same product. */
  lemma {:induction false} ActiveRowsDistinct(rows: seq<ProductDao>)
    requires ProductsWellFormed(rows)
    ensures forall i, j :: 0 <= i < j < |ActiveRows(rows)| ==> ActiveRows(rows)[i].productId != ActiveRows(rows)[j].productId
  {
    var act := ActiveRows(rows);
    forall i, j | 0 <= i < j < |act|
      ensures act[i].productId != act[j].productId
    {
      if act[i].productId == act[j].productId {
        assert act[i] in rows && act[j] in rows;
        LatestRowIs(rows, act[i]);
        LatestRowIs(rows, act[j]);
        ActiveRowsNoRepeat(rows, i, j);
      }
    }
  }

  /** ACTIVE_PRODUCTS never lists one row twice when (productId, version) is a key. */
  lemma {:induction false} ActiveRowsNoRepeat(rows: seq<ProductDao>, i: nat, j: nat)
    requires VersionsSequential(rows)
    requires i < j < |ActiveRows(rows)|
    ensures ActiveRows(rows)[i] != ActiveRows(rows)[j]
  {
    var n := |rows|;
    var init, last := rows[..n - 1], rows[n - 1];
    assert rows == init + [last];
    SequentialPrefix(rows, n - 1);
    if last.latest && j == |ActiveRows(rows)| - 1 {
      assert ActiveRows(rows) == ActiveRows(init) + [last];
      var y := ActiveRows(init)[i];
      assert y in ActiveRows(init);
      NewRowIsTop(rows, y);
    } else {
      ActiveRowsNoRepeat(init, i, j);
    }
  }

  /** The last row stored for a product carries a higher version than every earlier row of it. */
  lemma NewRowIsTop(rows: seq<ProductDao>, y: ProductDao)
    requires VersionsSequential(rows) && rows != []
    requires y in rows[..|rows| - 1]
    ensures y.productId == rows[|rows| - 1].productId ==> y.version < rows[|rows| - 1].version
  {
    var init := rows[..|rows| - 1];
    LastVersion(rows);
    SequentialPrefix(rows, |rows| - 1);
    VersionBounds(init);
    var i :| 0 <= i < |init| && init[i] == y;
  }

  /** The last row carries one more than the number of earlier rows of its product. */
  lemma LastVersion(rows: seq<ProductDao>)
    requires VersionsSequential(rows) && rows != []
    ensures rows[|rows| - 1].version == VersionCount(rows[..|rows| - 1], rows[|rows| - 1].productId) + 1
  {
    var n := |rows|;
    assert rows[..n][..n - 1] == rows[..n - 1];
    assert rows[n - 1].version == VersionCount(rows[..n], rows[n - 1].productId);
  }

  /* ---------- The invariant across the store's state changes ---------- */

  /** Drawing the next value of either sequence keeps the invariant. */
  lemma ConsistentAfterNextval(products: seq<ProductDao>, orders: seq<OrderDao>, pins: seq<OrderProductDao>,
                               productIdSeq: int, orderIdSeq: int)
    requires Consistent(products, orders, pins, productIdSeq, orderIdSeq)
    ensures Consistent(products, orders, pins, productIdSeq + 1, orderIdSeq)
    ensures Consistent(products, orders, pins, productIdSeq, orderIdSeq + 1)
  {
  }

  /** Inserting version 1 of a product under a fresh productId keeps the invariant. */
  lemma ConsistentAfterCreate(products: seq<ProductDao>, orders: seq<OrderDao>, pins: seq<OrderProductDao>,
                              productIdSeq: int, orderIdSeq: int, name: string, price: real)
    requires Consistent(products, orders, pins, productIdSeq, orderIdSeq)
    ensures VersionCount(products, productIdSeq) == 0
    ensures Consistent(products + [ProductDao(productIdSeq, name, price, 1, true)], orders, pins, productIdSeq + 1, orderIdSeq)
  {
    var row := ProductDao(productIdSeq, name, price, 1, true);
    var rows := products + [row];
    CountOfFreshId(products, productIdSeq);
    forall id ensures VersionCount(rows, id) == VersionCount(products, id) + (if id == productIdSeq then 1 else 0) {
      CountAppend(products, row, id);
    }
    forall i | 0 <= i < |rows|
      ensures rows[i].version == VersionCount(rows[..i + 1], rows[i].productId)
    {
      if i < |products| {
        assert rows[..i + 1] == products[..i + 1];
      } else {
        assert rows[..i + 1] == rows;
      }
    }
  }

  /** count(*) after `update` appended a version to `id`. */
  lemma CountAfterUpdate(products: seq<ProductDao>, id: int, n: int, row: ProductDao, pid: int)
    requires row.productId == id
    ensures VersionCount(ClearLatest(products, id, n) + [row], pid)
         == VersionCount(products, pid) + (if pid == id then 1 else 0)
  {
    CountAppend(ClearLatest(products, id, n), row, pid);
    CountSameIds(ClearLatest(products, id, n), products, pid);
  }

  lemma CountClearedPrefix(products: seq<ProductDao>, id: int, v: int, k: nat, pid: int)
    requires k <= |products|
    ensures VersionCount(ClearLatest(products, id, v)[..k], pid) == VersionCount(products[..k], pid)
  {
    var a, b := ClearLatest(products, id, v)[..k], products[..k];
    forall j | 0 <= j < k ensures a[j].productId == b[j].productId {
      assert a[j] == ClearLatest(products, id, v)[j];
    }
    CountSameIds(a, b, pid);
  }

  lemma SequentialAfterUpdate(products: seq<ProductDao>, id: int, row: ProductDao)
    requires VersionsSequential(products)
    requires row.productId == id && row.version == VersionCount(products, id) + 1
    ensures VersionsSequential(ClearLatest(products, id, row.version - 1) + [row])
  {
    var cleared := ClearLatest(products, id, row.version - 1);
    var rows := cleared + [row];
    forall i | 0 <= i < |rows|
      ensures rows[i].version == VersionCount(rows[..i + 1], rows[i].productId)
    {
      if i < |products| {
        assert rows[..i + 1] == cleared[..i + 1];
        assert rows[i].productId == products[i].productId && rows[i].version == products[i].version;
        CountClearedPrefix(products, id, row.version - 1, i + 1, products[i].productId);
      } else {
        assert rows[..i + 1] == rows;
        CountAfterUpdate(products, id, row.version - 1, row, id);
      }
    }
  }

  lemma TopAfterUpdate(products: seq<ProductDao>, id: int, row: ProductDao)
    requires ProductsWellFormed(products)
    requires row.productId == id && row.version == VersionCount(products, id) + 1 && row.latest
    ensures LatestIsTop(ClearLatest(products, id, row.version - 1) + [row])
  {
    var n := row.version - 1;
    var cleared := ClearLatest(products, id, n);
    var rows := cleared + [row];
    VersionBounds(products);
    forall i | 0 <= i < |rows|
      ensures rows[i].latest <==> rows[i].version == VersionCount(rows, rows[i].productId)
    {
      CountAfterUpdate(products, id, n, row, rows[i].productId);
    }
  }

  /** Clearing the top version's flag and appending version count+1 keeps the invariant. */
  lemma ConsistentAfterUpdate(products: seq<ProductDao>, orders: seq<OrderDao>, pins: seq<OrderProductDao>,
                              productIdSeq: int, orderIdSeq: int, id: int, n: int, row: ProductDao)
    requires Consistent(products, orders, pins, productIdSeq, orderIdSeq)
    requires n == VersionCount(products, id) > 0
    requires row.productId == id && row.version == n + 1 && row.latest
    ensures Consistent(ClearLatest(products, id, n) + [row], orders, pins, productIdSeq, orderIdSeq)
  {
    var rows := ClearLatest(products, id, n) + [row];
    SequentialAfterUpdate(products, id, row);
    TopAfterUpdate(products, id, row);
    forall pid ensures VersionCount(rows, pid) >= VersionCount(products, pid) {
      CountAfterUpdate(products, id, n, row, pid);
    }
    CountPositive(products, id);
  }

  /** PRODUCTS after `update` of a stored product: the top version's flag cleared, version count+1 appended. */
  function UpdatedRows(rows: seq<ProductDao>, id: int, name: string, price: real): (r: seq<ProductDao>)
    ensures |r| == |rows| + 1
    ensures r[..|rows|] == ClearLatest(rows, id, VersionCount(rows, id))
    ensures r[|rows|] == ProductDao(id, name, price, VersionCount(rows, id) + 1, true)
  {
    var n := VersionCount(rows, id);
    ClearLatest(rows, id, n) + [ProductDao(id, name, price, n + 1, true)]
  }

  /** `update` keeps the table well formed and adds one to its product's count only. */
  lemma UpdatedWellFormed(rows: seq<ProductDao>, id: int, name: string, price: real)
    requires ProductsWellFormed(rows)
    requires VersionCount(rows, id) > 0
    ensures ProductsWellFormed(UpdatedRows(rows, id, name, price))
    ensures forall pid :: VersionCount(UpdatedRows(rows, id, name, price), pid)
                          == VersionCount(rows, pid) + (if pid == id then 1 else 0)
  {
    var n := VersionCount(rows, id);
    var row := ProductDao(id, name, price, n + 1, true);
    SequentialAfterUpdate(rows, id, row);
    TopAfterUpdate(rows, id, row);
    forall pid ensures VersionCount(UpdatedRows(rows, id, name, price), pid)
                       == VersionCount(rows, pid) + (if pid == id then 1 else 0) {
      CountAfterUpdate(rows, id, n, row, pid);
    }
  }

  /** Inserting an order with fresh id `orderIdSeq` and its pins keeps the invariant. */
  lemma ConsistentAfterPlace(products: seq<ProductDao>, orders: seq<OrderDao>, pins: seq<OrderProductDao>,
                             productIdSeq: int, orderIdSeq: int, order: OrderDao, added: seq<OrderProductDao>)
    requires Consistent(products, orders, pins, productIdSeq, orderIdSeq)
    requires order.orderId == orderIdSeq
    requires forall k :: 0 <= k < |added| ==>
      added[k].orderId == orderIdSeq && 1 <= added[k].version <= VersionCount(products, added[k].productId)
    requires forall k, l :: 0 <= k < l < |added| ==> added[k].productId != added[l].productId
    ensures Consistent(products, orders + [order], pins + added, productIdSeq, orderIdSeq + 1)
  {
    var all := pins + added;
    assert forall k :: 0 <= k < |pins| ==> all[k] == pins[k];
    assert forall k :: |pins| <= k < |all| ==> all[k] == added[k - |pins|];
  }
}
