/** The request handlers of app.py with the web and ORM plumbing removed.
    Each handler is one transaction: its effect on the database is given by a
    step function on `Database`, and class `Inventory` performs the same
    effect in place on its two tables. */
module App {
  import opened Wrappers
  import opened Models

  /** Why a handler fails before its commit, leaving the database as it was.
      `NoSuchProduct`: the lookup returned `None` and the handler raised on
      `None.stock`. `IntegerOverflow`: an integer bound into a statement is
      outside the 64-bit range (OverflowError). `NullPrice`: a NaN price,
      stored by SQLite as NULL, violates the NOT NULL `price` column. */
  datatype Error = NoSuchProduct(productId: int) | IntegerOverflow(value: int) | NullPrice

  /** The product the start-up block inserts into an empty catalog. */
  const SampleName: string := "コーヒー豆"
  const SampleUnit: string := "kg"
  const SampleSupplier: string := "業務スーパー"
  const SampleStock: int := 5

  /** The catalog with the stock of the row at position `k` replaced. */
  function SetStock(catalog: seq<Product>, k: nat, stock: int): (c: seq<Product>)
    requires k < |catalog|
    ensures ProductIds(c) == ProductIds(catalog)
  {
    var c := catalog[k := catalog[k].(stock := stock)];
    assert forall j :: 0 <= j < |c| ==> ProductIds(c)[j] == ProductIds(catalog)[j];
    c
  }

  /** `add_product`, POST branch: one product row under the next key. A
      stock outside the 64-bit range fails the INSERT at the commit. */
  function AddProductStep(db: Database, name: string, unit: string, supplier: string, stock: int): (Outcome<Error>, Database)
  {
    if !InInt64(stock) then (Fail(IntegerOverflow(stock)), db)
    else (Pass, db.(catalog := db.catalog + [NewProduct(NextRowId(ProductIds(db.catalog)), name, unit, supplier, stock)]))
  }

  /** The start-up block: the sample product, only when the catalog is empty. */
  function SeedStep(db: Database): Database
  {
    if |db.catalog| == 0 then AddProductStep(db, SampleName, SampleUnit, SampleSupplier, SampleStock).1 else db
  }

  /** `update_stock`. The lookup binds the id first, so an id outside the
      64-bit range fails for every action. "plus" adds one, failing at the
      commit when that leaves the range; "minus" takes one away only from a
      positive stock; any other action leaves the product alone and never
      dereferences it, so only "plus" and "minus" fail on a missing product. */
  function UpdateStockStep(db: Database, productId: int, action: string): (Outcome<Error>, Database)
  {
    if !InInt64(productId) then (Fail(IntegerOverflow(productId)), db)
    else
      var found := Find(db.catalog, productId);
      if action == "plus" then
        if found.None? then (Fail(NoSuchProduct(productId)), db)
        else
          var stock := db.catalog[found.value].stock + 1;
          if !InInt64(stock) then (Fail(IntegerOverflow(stock)), db)
          else (Pass, db.(catalog := SetStock(db.catalog, found.value, stock)))
      else if action == "minus" then
        if found.None? then (Fail(NoSuchProduct(productId)), db)
        else if db.catalog[found.value].stock > 0 then
          (Pass, db.(catalog := SetStock(db.catalog, found.value, db.catalog[found.value].stock - 1)))
        else (Pass, db)
      else (Pass, db)
  }

  /** The ledger row `add_purchase` inserts: the next key, the given fields
      with the price as the column stores it, and the time of the request. */
  function NewPurchaseRow(ledger: seq<Purchase>, productId: int, quantity: int, price: Price, now: Timestamp): Purchase
  {
    Purchase(NextRowId(PurchaseIds(ledger)), productId, quantity, StoredPrice(price), now)
  }

  /** `add_purchase`, POST branch: one ledger row, and the product's stock
      raised by the quantity. The pending row is flushed when the product is
      looked up, so its product id, its quantity (in that column order) and
      its price are checked first; then a missing product fails; then the new
      stock is written at the commit. Any failure commits neither change. */
  function AddPurchaseStep(db: Database, productId: int, quantity: int, price: Price, now: Timestamp): (Outcome<Error>, Database)
  {
    if !InInt64(productId) then (Fail(IntegerOverflow(productId)), db)
    else if !InInt64(quantity) then (Fail(IntegerOverflow(quantity)), db)
    else if IsNaN(price) then (Fail(NullPrice), db)
    else
      var row := NewPurchaseRow(db.ledger, productId, quantity, price, now);
      match Find(db.catalog, productId)
      case None => (Fail(NoSuchProduct(productId)), db)
      case Some(k) =>
        var stock := db.catalog[k].stock + quantity;
        if !InInt64(stock) then (Fail(IntegerOverflow(stock)), db)
        else (Pass, Database(SetStock(db.catalog, k, stock), db.ledger + [row]))
  }

  /** Each handler keeps the database consistent: unique keys in both tables,
      every ledger row naming a product, and only storable values. */
  lemma AddProductStepConsistent(db: Database, name: string, unit: string, supplier: string, stock: int)
    requires Consistent(db)
    ensures Consistent(AddProductStep(db, name, unit, supplier, stock).1)
  {
    var (r, db') := AddProductStep(db, name, unit, supplier, stock);
    if r.Pass? {
      var ids := ProductIds(db.catalog);
      AppendNextKeyAscending(ids);
      assert ProductIds(db'.catalog) == ids + [NextRowId(ids)];
      forall k | 0 <= k < |db'.ledger| ensures db'.ledger[k].productId in ProductIds(db'.catalog) {
        assert db.ledger[k].productId in ids;
      }
    }
  }

  lemma SeedStepConsistent(db: Database)
    requires Consistent(db)
    ensures Consistent(SeedStep(db))
  {
    if |db.catalog| == 0 {
      AddProductStepConsistent(db, SampleName, SampleUnit, SampleSupplier, SampleStock);
    }
  }

  lemma UpdateStockStepConsistent(db: Database, productId: int, action: string)
    requires Consistent(db)
    ensures Consistent(UpdateStockStep(db, productId, action).1)
  {
  }

  lemma AddPurchaseStepConsistent(db: Database, productId: int, quantity: int, price: Price, now: Timestamp)
    requires Consistent(db)
    ensures Consistent(AddPurchaseStep(db, productId, quantity, price, now).1)
  {
    var (r, db') := AddPurchaseStep(db, productId, quantity, price, now);
    if r.Pass? {
      var ids := PurchaseIds(db.ledger);
      var row := NewPurchaseRow(db.ledger, productId, quantity, price, now);
      assert db'.ledger == db.ledger + [row];
      AppendNextKeyAscending(ids);
      assert PurchaseIds(db'.ledger) == ids + [row.id];
    }
  }

  /** The inventory database held in memory: the product table and the
      purchase table, each a sequence of rows in insertion order that the
      handlers update in place. */
  class Inventory {
    var products: seq<Product>
    var purchases: seq<Purchase>

    /** The two tables as one value. */
    function State(): Database
      reads this
    {
      Database(products, purchases)
    }

    ghost predicate Valid()
      reads this
    {
      Consistent(State())
    }

    /** A new database file: `create_all` makes both tables, empty. */
    constructor ()
      ensures Valid() && State() == Database([], [])
    {
      products := [];
      purchases := [];
    }

    /** An existing database file, opened with the rows it holds. */
    constructor Open(db: Database)
      requires Consistent(db)
      ensures Valid() && State() == db
    {
      products := db.catalog;
      purchases := db.ledger;
    }

    /** The start-up block: insert the sample product when no product exists. */
    method Seed()
      requires Valid()
      modifies this
      ensures Valid()
      ensures State() == SeedStep(old(State()))
    {
      SeedStepConsistent(State());
      if |products| == 0 {
        var sample := NewProduct(NextRowId(ProductIds(products)), SampleName, SampleUnit, SampleSupplier, SampleStock);
        products := products + [sample];
      }
    }

    /** `index`: every product, in key order. */
    method Index() returns (rows: seq<Product>)
      requires Valid()
      ensures rows == products
      ensures KeysAscending(ProductIds(rows))
    {
      rows := products;
    }

    /** `add_purchase`, POST branch. The purchase row is added to the session
        and flushed when the product is fetched; when the flush or the lookup
        fails, or the new stock cannot be written, the handler raises before
        its commit and the pending row is discarded. */
    method AddPurchase(productId: int, quantity: int, price: Price, now: Timestamp) returns (r: Outcome<Error>)
      requires Valid()
      modifies this
      ensures Valid()
      ensures (r, State()) == AddPurchaseStep(old(State()), productId, quantity, price, now)
    {
      AddPurchaseStepConsistent(State(), productId, quantity, price, now);
      var purchase := NewPurchaseRow(purchases, productId, quantity, price, now);
      var pending := purchases + [purchase];
      if !InInt64(productId) {
        return Fail(IntegerOverflow(productId));
      } else if !InInt64(quantity) {
        return Fail(IntegerOverflow(quantity));
      } else if IsNaN(price) {
        return Fail(NullPrice);
      }
      var found := Find(products, productId);
      if found.None? {
        return Fail(NoSuchProduct(productId));
      }
      var k := found.value;
      var stock := products[k].stock + quantity;
      if !InInt64(stock) {
        return Fail(IntegerOverflow(stock));
      }
      products := SetStock(products, k, stock);
      purchases := pending;
      r := Pass;
    }

    /** `update_stock`; the route only matches non-negative ids. */
    method UpdateStock(productId: nat, action: string) returns (r: Outcome<Error>)
      requires Valid()
      modifies this
      ensures Valid()
      ensures (r, State()) == UpdateStockStep(old(State()), productId, action)
    {
      UpdateStockStepConsistent(State(), productId, action);
      if !InInt64(productId) {
        return Fail(IntegerOverflow(productId));
      }
      var found := Find(products, productId);
      if action == "plus" {
        if found.None? {
          return Fail(NoSuchProduct(productId));
        }
        var k := found.value;
        var stock := products[k].stock + 1;
        if !InInt64(stock) {
          return Fail(IntegerOverflow(stock));
        }
        products := SetStock(products, k, stock);
      } else if action == "minus" {
        if found.None? {
          return Fail(NoSuchProduct(productId));
        }
        var k := found.value;
        if products[k].stock > 0 {
          products := SetStock(products, k, products[k].stock - 1);
        }
      }
      r := Pass;
    }

    /** `add_product`, POST branch. */
    method AddProduct(name: string, unit: string, supplier: string, stock: int) returns (r: Outcome<Error>)
      requires Valid()
      modifies this
      ensures Valid()
      ensures (r, State()) == AddProductStep(old(State()), name, unit, supplier, stock)
    {
      AddProductStepConsistent(State(), name, unit, supplier, stock);
      if !InInt64(stock) {
        return Fail(IntegerOverflow(stock));
      }
      var product := NewProduct(NextRowId(ProductIds(products)), name, unit, supplier, stock);
      products := products + [product];
      r := Pass;
    }

    /** `purchases`: every ledger row, in key order, each naming a product. */
    method Purchases() returns (rows: seq<Purchase>)
      requires Valid()
      ensures rows == purchases
      ensures KeysAscending(PurchaseIds(rows))
      ensures forall k :: 0 <= k < |rows| ==> ProductOf(products, rows[k]).Some?
    {
      rows := purchases;
    }
  }
}
