/**
 * ProductService: the product API over the repository. The lookups are
 * functions of the PRODUCTS table; creating and updating are methods on the
 * database. A lookup that catches the empty-result exception is asked only of
 * a well-formed table, where no other exception can arise.
 */
module ProductService {
  import opened Domain
  import opened Tables
  import opened TreeSets
  import opened Store
  import ProductRepository

  /** `mapDaoToProduct`: the API view of a row drops its version and latest flag. */
  function MapDaoToProduct(dao: ProductDao): (p: Product)
    ensures p.productId == dao.productId && p.name == dao.name && p.price == dao.price
  {
    Product(dao.productId, dao.name, dao.price)
  }

  /** `.map(this::mapDaoToProduct)` over a sequence of rows. */
  function ProductsOf(daos: seq<ProductDao>): (ps: seq<Product>)
    ensures |ps| == |daos|
    ensures forall i :: 0 <= i < |daos| ==> ps[i] == MapDaoToProduct(daos[i])
  {
    seq(|daos|, i requires 0 <= i < |daos| => MapDaoToProduct(daos[i]))
  }

  /** `getActiveProductForId`: the product's latest version, or empty when it has none. */
  function GetActiveProductForId(rows: seq<ProductDao>, productId: int): (r: Option<Product>)
    requires ProductsWellFormed(rows)
    ensures r.None? <==> VersionCount(rows, productId) == 0
    ensures r.Some? ==> exists i :: (0 <= i < |rows| && rows[i].productId == productId && rows[i].latest
                                     && rows[i].version == VersionCount(rows, productId)
                                     && r.value == MapDaoToProduct(rows[i]))
  {
    ProductRepository.ActiveForIdResult(rows, productId);
    match ProductRepository.GetActiveForId(rows, productId)
    case Ok(dao) => Some(MapDaoToProduct(dao))
    case Err(_) => None  // only EmptyResultDataAccessException, which is caught
  }

  /** `getProductForVersion`: that version of the product, or empty when it was never stored. */
  function GetProductForVersion(rows: seq<ProductDao>, productId: int, version: int): (r: Option<Product>)
    requires VersionsSequential(rows)
    ensures r.None? <==> !(1 <= version <= VersionCount(rows, productId))
    ensures r.Some? ==> exists i :: (0 <= i < |rows| && rows[i].productId == productId
                                     && rows[i].version == version && r.value == MapDaoToProduct(rows[i]))
  {
    ProductRepository.ForVersionResult(rows, productId, version);
    match ProductRepository.GetForVersion(rows, productId, version)
    case Ok(dao) => Some(MapDaoToProduct(dao))
    case Err(_) => None
  }

  /** `getLatestVersionNumber`: the repository's count, passed through. */
  function GetLatestVersionNumber(rows: seq<ProductDao>, productId: int): (n: nat)
    ensures n == VersionCount(rows, productId)
    ensures n == 0 <==> forall i :: 0 <= i < |rows| ==> rows[i].productId != productId
  {
    ProductRepository.GetLatestVersionNumber(rows, productId)
  }

  /**
   * `getAllActiveProducts`: the active rows as products in a tree set ordered
   * by productId: one product per stored productId, its latest version.
   */
  function GetAllActiveProducts(rows: seq<ProductDao>): (ps: seq<Product>)
    requires ProductsWellFormed(rows)
    ensures StrictlySorted(ps, ProductKey)
    ensures forall id :: id in Keys(ps, ProductKey) <==> VersionCount(rows, id) > 0
    ensures forall p :: p in ps ==> GetActiveProductForId(rows, p.productId) == Some(p)
  {
    var mapped := ProductsOf(ActiveRows(rows));
    ActiveKeys(rows);
    ActiveAreLatest(rows);
    var ps := Collect(mapped, ProductKey);
    assert forall p :: p in ps ==> p in multiset(mapped);
    ps
  }

  /** The productIds among the active rows are exactly the stored ones. */
  lemma ActiveKeys(rows: seq<ProductDao>)
    requires ProductsWellFormed(rows)
    ensures forall id :: id in Keys(ProductsOf(ActiveRows(rows)), ProductKey) <==> VersionCount(rows, id) > 0
  {
    forall id ensures id in Keys(ProductsOf(ActiveRows(rows)), ProductKey) <==> VersionCount(rows, id) > 0 {
      ActiveKey(rows, id);
    }
  }

  lemma ActiveKey(rows: seq<ProductDao>, id: int)
    requires ProductsWellFormed(rows)
    ensures id in Keys(ProductsOf(ActiveRows(rows)), ProductKey) <==> VersionCount(rows, id) > 0
  {
    var act := ActiveRows(rows);
    var mapped := ProductsOf(act);
    if VersionCount(rows, id) > 0 {
      LatestRow(rows, id);
      var x :| x in rows && x.productId == id && x.version == VersionCount(rows, id) && LatestOf(rows, id) == [x];
      assert x in LatestOf(rows, id);
      assert x in act;
      var i :| 0 <= i < |act| && act[i] == x;
      assert mapped[i] in mapped;
    }
    if id in Keys(mapped, ProductKey) {
      var p :| p in mapped && p.productId == id;
      var i :| 0 <= i < |mapped| && mapped[i] == p;
      assert act[i] in act;
      var j :| 0 <= j < |rows| && rows[j] == act[i];
      CountPositive(rows, id);
    }
  }

  /** Every active row, mapped, is what the active lookup of its productId returns. */
  lemma ActiveAreLatest(rows: seq<ProductDao>)
    requires ProductsWellFormed(rows)
    ensures forall p :: p in ProductsOf(ActiveRows(rows)) ==> GetActiveProductForId(rows, p.productId) == Some(p)
  {
    var act := ActiveRows(rows);
    var mapped := ProductsOf(act);
    forall p | p in mapped ensures GetActiveProductForId(rows, p.productId) == Some(p) {
      var i :| 0 <= i < |mapped| && mapped[i] == p;
      assert act[i] in act;
      LatestRowIs(rows, act[i]);
    }
  }

  /** `createProduct`: store version 1 of a new product and return it. */
  method CreateProduct(db: Database, request: ProductCreateRequest) returns (p: Product)
    requires db.Valid()
    modifies db
    ensures db.Valid()
    ensures p == Product(old(db.productIdSeq), request.name, request.price)
    ensures VersionCount(old(db.products), p.productId) == 0
    ensures db.products == old(db.products) + [ProductDao(p.productId, request.name, request.price, 1, true)]
    ensures GetActiveProductForId(db.products, p.productId) == Some(p)
    ensures GetLatestVersionNumber(db.products, p.productId) == 1
    ensures db.productIdSeq == old(db.productIdSeq) + 1
    ensures db.orders == old(db.orders) && db.ordersProducts == old(db.ordersProducts)
    ensures db.orderIdSeq == old(db.orderIdSeq)
  {
    var dao := ProductRepository.Save(db, request);
    p := MapDaoToProduct(dao);
    CountAppend(old(db.products), dao, dao.productId);
    LatestRowIs(db.products, dao);
  }

  /**
   * `updateProduct`: store the next version of a product; unknown products
   * raise ResourceNotFoundException.
   */
  method UpdateProduct(db: Database, request: ProductUpdateRequest) returns (r: Result<Product>)
    requires db.Valid()
    modifies db
    ensures db.Valid()
    ensures var n := VersionCount(old(db.products), request.productId);
      if n == 0 then
        r == Err(ResourceNotFound) && db.products == old(db.products)
      else
        && r == Ok(Product(request.productId, request.name, request.price))
        && db.products == UpdatedRows(old(db.products), request.productId, request.name, request.price)
        && GetActiveProductForId(db.products, request.productId) == Some(r.value)
        && GetLatestVersionNumber(db.products, request.productId) == n + 1
    ensures db.orders == old(db.orders) && db.ordersProducts == old(db.ordersProducts)
    ensures db.productIdSeq == old(db.productIdSeq) && db.orderIdSeq == old(db.orderIdSeq)
  {
    ghost var rows := db.products;
    var updated := ProductRepository.Update(db, request);
    match updated
    case Err(e) =>
      r := Err(e);
    case Ok(dao) =>
      r := Ok(MapDaoToProduct(dao));
      assert db.products == UpdatedRows(rows, request.productId, request.name, request.price);
      UpdatedLookup(rows, request.productId, request.name, request.price);
  }

  /** Creating a product leaves the active version of every other product as it was. */
  lemma CreateKeepsOthers(rows: seq<ProductDao>, dao: ProductDao, productId: int)
    requires ProductsWellFormed(rows) && ProductsWellFormed(rows + [dao])
    requires productId != dao.productId
    ensures GetActiveProductForId(rows + [dao], productId) == GetActiveProductForId(rows, productId)
  {
    assert (rows + [dao])[..|rows|] == rows;
  }

  /** After `update` the product's active version is the new one, and its count went up by one. */
  lemma UpdatedLookup(rows: seq<ProductDao>, id: int, name: string, price: real)
    requires ProductsWellFormed(rows)
    requires VersionCount(rows, id) > 0
    ensures ProductsWellFormed(UpdatedRows(rows, id, name, price))
    ensures GetActiveProductForId(UpdatedRows(rows, id, name, price), id) == Some(Product(id, name, price))
    ensures GetLatestVersionNumber(UpdatedRows(rows, id, name, price), id) == VersionCount(rows, id) + 1
  {
    var after := UpdatedRows(rows, id, name, price);
    UpdatedWellFormed(rows, id, name, price);
    assert after[|rows|] in after;
    LatestRowIs(after, after[|rows|]);
  }

  /** Updating a product leaves the active version of every other product as it was. */
  lemma UpdateKeepsOthers(rows: seq<ProductDao>, id: int, name: string, price: real, productId: int)
    requires ProductsWellFormed(rows)
    requires VersionCount(rows, id) > 0
    requires productId != id
    ensures ProductsWellFormed(UpdatedRows(rows, id, name, price))
    ensures GetActiveProductForId(UpdatedRows(rows, id, name, price), productId) == GetActiveProductForId(rows, productId)
  {
    var after := UpdatedRows(rows, id, name, price);
    UpdatedWellFormed(rows, id, name, price);
    if VersionCount(rows, productId) > 0 {
      LatestRow(rows, productId);
      var x :| x in rows && x.productId == productId && x.version == VersionCount(rows, productId) && LatestOf(rows, productId) == [x];
      assert x in LatestOf(rows, productId);
      var i :| 0 <= i < |rows| && rows[i] == x;
      assert after[i] == x;
      LatestRowIs(after, x);
    } else {
      LatestRow(after, productId);
      LatestRow(rows, productId);
    }
  }
}
