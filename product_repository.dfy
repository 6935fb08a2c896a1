/**
 * H2ProductRepository: the queries and statements over PRODUCTS.
 * Queries that run no Java loop are functions of the table; `getAllActive`,
 * whose callback adds row after row to a set, and the two writers are methods.
 */
module ProductRepository {
  import opened Domain
  import opened Tables
  import opened Store

  /** `getAllActive`: the rows of ACTIVE_PRODUCTS, collected one row at a time. */
  method GetAllActive(db: Database) returns (results: seq<ProductDao>)
    ensures results == ActiveRows(db.products)
    ensures forall x :: x in results <==> x in db.products && x.latest
  {
    results := [];
    var i := 0;
    while i < |db.products|
      invariant 0 <= i <= |db.products|
      invariant results == ActiveRows(db.products[..i])
    {
      var row := db.products[i];
      assert db.products[..i + 1][..i] == db.products[..i];
      if row.latest {
        results := results + [row];
      }
      i := i + 1;
    }
    assert db.products[..i] == db.products;
  }

  /** `getActiveForId`: the product's row in ACTIVE_PRODUCTS. */
  function GetActiveForId(rows: seq<ProductDao>, productId: int): (r: Result<ProductDao>)
    ensures r.Ok? ==> r.value in rows && r.value.latest && r.value.productId == productId
  {
    QueryForObject(LatestOf(rows, productId))
  }

  /** In a well-formed table the active row is found exactly for a stored product, and it is the top version. */
  lemma ActiveForIdResult(rows: seq<ProductDao>, productId: int)
    requires ProductsWellFormed(rows)
    ensures var r := GetActiveForId(rows, productId);
      && (r.Ok? <==> VersionCount(rows, productId) > 0)
      && (r.Ok? ==> r.value.version == VersionCount(rows, productId))
      && (r.Err? ==> r.error == EmptyResult)
  {
    LatestRow(rows, productId);
  }

  /** `getForVersion`: the row with that productId and version. */
  function GetForVersion(rows: seq<ProductDao>, productId: int, version: int): (r: Result<ProductDao>)
    ensures r.Ok? ==> r.value in rows && r.value.productId == productId && r.value.version == version
  {
    QueryForObject(RowsAt(rows, productId, version))
  }

  /** With versions numbered 1..N, exactly the versions 1..N are found; any other raises the empty-result error. */
  lemma ForVersionResult(rows: seq<ProductDao>, productId: int, version: int)
    requires VersionsSequential(rows)
    ensures var r := GetForVersion(rows, productId, version);
      && (r.Ok? <==> 1 <= version <= VersionCount(rows, productId))
      && (r.Err? ==> r.error == EmptyResult)
  {
    if 1 <= version <= VersionCount(rows, productId) {
      VersionExists(rows, productId, version);
      var i :| 0 <= i < |rows| && rows[i].productId == productId && rows[i].version == version;
      RowsAtSingle(rows, rows[i]);
    } else {
      RowsAtMissing(rows, productId, version);
    }
  }

  /** `getLatestVersionNumber`: count(*) of the product's rows; 0 exactly for a product never created. */
  function GetLatestVersionNumber(rows: seq<ProductDao>, productId: int): (n: nat)
    ensures n == 0 <==> forall i :: 0 <= i < |rows| ==> rows[i].productId != productId
  {
    CountPositive(rows, productId);
    VersionCount(rows, productId)
  }

  /**
   * `lockProduct`, by its sequential effect only: the single-row query for the
   * product's latest row either finds it or throws.
   */
  function LockProduct(rows: seq<ProductDao>, productId: int): (r: Result<ProductDao>)
    ensures r.Ok? ==> VersionCount(rows, productId) > 0
  {
    var locked := QueryForObject(LatestOf(rows, productId));
    if locked.Ok? then
      assert locked.value in LatestOf(rows, productId);
      CountPositive(rows, productId);
      locked
    else
      locked
  }

  /** The lock succeeds exactly for a product that has rows. */
  lemma LockResult(rows: seq<ProductDao>, productId: int)
    requires ProductsWellFormed(rows)
    ensures LockProduct(rows, productId).Ok? <==> VersionCount(rows, productId) > 0
    ensures LockProduct(rows, productId).Err? ==> LockProduct(rows, productId).error == EmptyResult
  {
    LatestRow(rows, productId);
  }

  /** `save`: draw a fresh productId and insert its version 1, flagged latest. */
  method Save(db: Database, request: ProductCreateRequest) returns (dao: ProductDao)
    requires db.Valid()
    modifies db
    ensures db.Valid()
    ensures dao == ProductDao(old(db.productIdSeq), request.name, request.price, 1, true)
    ensures VersionCount(old(db.products), dao.productId) == 0
    ensures db.products == old(db.products) + [dao]
    ensures db.productIdSeq == old(db.productIdSeq) + 1
    ensures db.orders == old(db.orders) && db.ordersProducts == old(db.ordersProducts)
    ensures db.orderIdSeq == old(db.orderIdSeq)
  {
    ConsistentAfterCreate(db.products, db.orders, db.ordersProducts, db.productIdSeq, db.orderIdSeq,
                          request.name, request.price);
    var id := db.NextProductId();
    dao := ProductDao(id, request.name, request.price, 1, true);
    db.products := db.products + [dao];
  }

  /**
   * `update`, one transaction: fail when the product has no rows; otherwise
   * clear the flag of the row carrying version count(*) and insert version
   * count(*)+1, flagged latest.
   */
  method Update(db: Database, request: ProductUpdateRequest) returns (r: Result<ProductDao>)
    requires db.Valid()
    modifies db
    ensures db.Valid()
    ensures var n := VersionCount(old(db.products), request.productId);
      if n == 0 then
        r == Err(ResourceNotFound) && db.products == old(db.products)
      else
        && r == Ok(ProductDao(request.productId, request.name, request.price, n + 1, true))
        && db.products == ClearLatest(old(db.products), request.productId, n) + [r.value]
    ensures db.orders == old(db.orders) && db.ordersProducts == old(db.ordersProducts)
    ensures db.productIdSeq == old(db.productIdSeq) && db.orderIdSeq == old(db.orderIdSeq)
  {
    var productId := request.productId;
    var version := GetLatestVersionNumber(db.products, productId);
    if version == 0 {
      return Err(ResourceNotFound);
    }
    var dao := ProductDao(productId, request.name, request.price, version + 1, true);
    ConsistentAfterUpdate(db.products, db.orders, db.ordersProducts, db.productIdSeq, db.orderIdSeq,
                          productId, version, dao);
    db.products := ClearLatest(db.products, productId, version) + [dao];  // clear the flag, then insert
    r := Ok(dao);
  }

  /**
   * Nothing but one flag changes in place: the rows `update` keeps are the old
   * rows, and the only one that differs is the product's previous latest row.
   */
  lemma UpdateClearsOnlyPreviousLatest(rows: seq<ProductDao>, productId: int)
    requires ProductsWellFormed(rows)
    requires VersionCount(rows, productId) > 0
    ensures var after := ClearLatest(rows, productId, VersionCount(rows, productId));
      forall i :: 0 <= i < |rows| ==>
        (after[i] == rows[i] <==> !(rows[i].latest && rows[i].productId == productId))
  {
    var n := VersionCount(rows, productId);
    var after := ClearLatest(rows, productId, n);
    forall i | 0 <= i < |rows|
      ensures after[i] == rows[i] <==> !(rows[i].latest && rows[i].productId == productId)
    {
      if after[i].latest == rows[i].latest {
        assert after[i] == rows[i];
      }
    }
  }
}
