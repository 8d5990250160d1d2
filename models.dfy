/** The inventory's two tables as declared in models.py: the product catalog
    and the purchase ledger, the shape of their rows, the keys SQLite assigns
    to them, and the relationship between a purchase and its product. */
module Models {
  import opened Wrappers

  /** A Python float, carried as the bit pattern of its IEEE-754 binary64
      value. The model stores and compares prices and never computes with them. */
  datatype Price = Price(bits: bv64)

  /** A UTC wall-clock reading, supplied by the caller (the clock is outside the model). */
  datatype Timestamp = Timestamp(utcMicros: int)

  /** One row of the product table. `name`, `unit` and `supplier` are
      non-null columns, so each is always a string. */
  datatype Product = Product(id: int, name: string, unit: string, supplier: string, stock: int)

  /** One row of the purchase table; `productId` refers to a product's id. */
  datatype Purchase = Purchase(id: int, productId: int, quantity: int, price: Price, timestamp: Timestamp)

  /** The range of an SQLite INTEGER, a signed 64-bit value. Binding a Python
      int outside it raises OverflowError before the statement runs. */
  const Int64Min: int := -0x8000_0000_0000_0000
  const Int64Max: int := 0x7FFF_FFFF_FFFF_FFFF

  predicate InInt64(x: int)
  {
    Int64Min <= x <= Int64Max
  }

  /** A NaN: all exponent bits set and a non-zero fraction. SQLite stores a
      NaN as NULL, which the NOT NULL `price` column rejects. */
  predicate IsNaN(p: Price)
  {
    (p.bits >> 52) & 0x7FF == 0x7FF && p.bits & 0xF_FFFF_FFFF_FFFF != 0
  }

  /** The bit pattern of -0.0. */
  const NegativeZero: bv64 := 0x8000_0000_0000_0000

  /** The price as the REAL-affinity `price` column keeps it. SQLite stores a
      float with an integral value as an integer, so -0.0 comes back as 0.0;
      every other float that is not NaN comes back bit for bit. */
  function StoredPrice(p: Price): (q: Price)
    ensures q.bits != NegativeZero
    ensures p.bits == NegativeZero ==> q == Price(0)
    ensures p.bits != NegativeZero ==> q == p
    ensures !IsNaN(p) ==> !IsNaN(q)
  {
    if p.bits == NegativeZero then Price(0) else p
  }

  /** The column default of `stock`. */
  const DefaultStock: int := 0

  /** A product row as the ORM builds it; `stock` falls back to its column default. */
  function NewProduct(id: int, name: string, unit: string, supplier: string, stock: int := DefaultStock): Product
  {
    Product(id, name, unit, supplier, stock)
  }

  /** A product created without a stock value holds the column default, 0. */
  lemma OmittedStockIsZero(id: int, name: string, unit: string, supplier: string)
    ensures NewProduct(id, name, unit, supplier).stock == 0
    ensures NewProduct(id, name, unit, supplier) == Product(id, name, unit, supplier, 0)
  {
  }

  /** The key column of the product table, in row order. */
  function ProductIds(catalog: seq<Product>): (ids: seq<int>)
    ensures |ids| == |catalog|
    ensures forall k :: 0 <= k < |catalog| ==> ids[k] == catalog[k].id
  {
    seq(|catalog|, k requires 0 <= k < |catalog| => catalog[k].id)
  }

  /** The key column of the purchase table, in row order. */
  function PurchaseIds(ledger: seq<Purchase>): seq<int>
  {
    seq(|ledger|, k requires 0 <= k < |ledger| => ledger[k].id)
  }

  /** The keys of an integer primary-key column, read in insertion order:
      positive and strictly increasing. */
  predicate KeysAscending(ids: seq<int>)
  {
    && (forall k :: 0 <= k < |ids| ==> 1 <= ids[k])
    && (forall i, j :: 0 <= i < j < |ids| ==> ids[i] < ids[j])
  }

  /** Ascending keys are a primary key: no two rows share one. */
  lemma AscendingKeysAreUnique(ids: seq<int>, i: int, j: int)
    requires KeysAscending(ids)
    requires 0 <= i < |ids| && 0 <= j < |ids| && i != j
    ensures ids[i] != ids[j]
  {
  }

  /** The key SQLite gives the next inserted row: one more than the largest
      key in the table, or 1 when the table has no row with a positive key. */
  function NextRowId(ids: seq<int>): (r: int)
    ensures 1 <= r
    ensures forall k :: 0 <= k < |ids| ==> ids[k] < r
    ensures r == 1 || r - 1 in ids
  {
    if |ids| == 0 then 1
    else
      var last := ids[|ids| - 1];
      var m := NextRowId(ids[..|ids| - 1]);
      assert m == 1 || m - 1 in ids by {
        assert ids[..|ids| - 1] <= ids;
      }
      if last < m then m else last + 1
  }

  /** Appending a row under the next key keeps the keys ascending. */
  lemma AppendNextKeyAscending(ids: seq<int>)
    requires KeysAscending(ids)
    ensures KeysAscending(ids + [NextRowId(ids)])
  {
  }

  /** The position of the product whose primary key is `id`: `Query.get`. */
  function Find(catalog: seq<Product>, id: int): (r: Option<nat>)
    ensures r.Some? ==> r.value < |catalog| && catalog[r.value].id == id
    ensures r.Some? ==> forall k :: 0 <= k < r.value ==> catalog[k].id != id
    ensures r.None? <==> forall k :: 0 <= k < |catalog| ==> catalog[k].id != id
  {
    FindFrom(catalog, id, 0)
  }

  /** The scan behind `Find`, from position `i` onwards. */
  function FindFrom(catalog: seq<Product>, id: int, i: nat): (r: Option<nat>)
    requires i <= |catalog|
    ensures r.Some? ==> i <= r.value < |catalog| && catalog[r.value].id == id
    ensures r.Some? ==> forall k :: i <= k < r.value ==> catalog[k].id != id
    ensures r.None? <==> forall k :: i <= k < |catalog| ==> catalog[k].id != id
    decreases |catalog| - i
  {
    if i == |catalog| then None
    else if catalog[i].id == id then Some(i)
    else FindFrom(catalog, id, i + 1)
  }

  /** A lookup depends on the keys alone: changing other columns does not move it. */
  lemma FindSameKeys(catalog: seq<Product>, catalog': seq<Product>, id: int)
    requires ProductIds(catalog) == ProductIds(catalog')
    ensures Find(catalog, id) == Find(catalog', id)
  {
    assert forall k :: 0 <= k < |catalog| ==> catalog[k].id == ProductIds(catalog)[k] == catalog'[k].id;
  }

  /** With unique keys, the row carrying a key is the one `Find` returns. */
  lemma FindUnique(catalog: seq<Product>, k: int)
    requires KeysAscending(ProductIds(catalog))
    requires 0 <= k < |catalog|
    ensures Find(catalog, catalog[k].id) == Some(k)
  {
  }

  /** The current stock of the product with key `id`, if there is one. */
  function StockOf(catalog: seq<Product>, id: int): (r: Option<int>)
    ensures r.Some? <==> id in ProductIds(catalog)
  {
    match Find(catalog, id)
    case None =>
      assert forall k :: 0 <= k < |catalog| ==> ProductIds(catalog)[k] != id;
      None
    case Some(k) => Some(catalog[k].stock)
  }

  /** With unique keys, the stock of a key is the stock column of the one
      row that carries it. */
  lemma StockOfRow(catalog: seq<Product>, k: int)
    requires KeysAscending(ProductIds(catalog))
    requires 0 <= k < |catalog|
    ensures StockOf(catalog, catalog[k].id) == Some(catalog[k].stock)
  {
    FindUnique(catalog, k);
  }

  /** The whole database: both tables, each in insertion order. */
  datatype Database = Database(catalog: seq<Product>, ledger: seq<Purchase>)

  /** What holds of every committed database: both primary keys are unique
      (ascending in insertion order), and every ledger row's `productId` names
      a product. SQLite does not enforce the foreign key; it holds because
      recording a purchase for a missing product fails before its commit.
      Every stored stock, product reference and quantity is a 64-bit integer,
      and no stored price is NaN, because writes of other values fail. No
      stored price is -0.0 either: the column keeps it as 0. */
  predicate Consistent(db: Database)
  {
    && KeysAscending(ProductIds(db.catalog))
    && KeysAscending(PurchaseIds(db.ledger))
    && (forall k :: 0 <= k < |db.catalog| ==> InInt64(db.catalog[k].stock))
    && (forall k :: 0 <= k < |db.ledger| ==>
          && db.ledger[k].productId in ProductIds(db.catalog)
          && InInt64(db.ledger[k].productId)
          && InInt64(db.ledger[k].quantity)
          && !IsNaN(db.ledger[k].price)
          && db.ledger[k].price.bits != NegativeZero)
  }

  /** The `product` relationship of a purchase: the catalog row its
      `productId` refers to. */
  function ProductOf(catalog: seq<Product>, row: Purchase): (p: Option<Product>)
    ensures p.Some? ==> p.value in catalog && p.value.id == row.productId
    ensures p.None? <==> row.productId !in ProductIds(catalog)
  {
    match Find(catalog, row.productId)
    case None =>
      assert forall k :: 0 <= k < |catalog| ==> ProductIds(catalog)[k] != row.productId;
      None
    case Some(k) => Some(catalog[k])
  }

  /** The `purchases` back-reference of a product: the ledger rows whose
      `productId` is `productId`, in ledger order. `PurchasesOfMembers`
      states which rows these are. */
  function PurchasesOf(ledger: seq<Purchase>, productId: int): (rows: seq<Purchase>)
    ensures |rows| <= |ledger|
  {
    if |ledger| == 0 then []
    else (if ledger[0].productId == productId then [ledger[0]] else []) + PurchasesOf(ledger[1..], productId)
  }

  /** A row belongs to a product's purchases exactly when it is in the ledger
      and refers to that product. */
  lemma {:induction false} PurchasesOfMembers(ledger: seq<Purchase>, productId: int, x: Purchase)
    ensures x in PurchasesOf(ledger, productId) <==> x in ledger && x.productId == productId
  {
    if |ledger| != 0 {
      PurchasesOfMembers(ledger[1..], productId, x);
      assert ledger == [ledger[0]] + ledger[1..];
    }
  }

  /** Appending a ledger row extends exactly the purchases of the product it names. */
  lemma {:induction false} PurchasesOfAppend(ledger: seq<Purchase>, x: Purchase, productId: int)
    ensures PurchasesOf(ledger + [x], productId)
         == PurchasesOf(ledger, productId) + (if x.productId == productId then [x] else [])
  {
    if |ledger| != 0 {
      assert (ledger + [x])[1..] == ledger[1..] + [x];
      PurchasesOfAppend(ledger[1..], x, productId);
    }
  }

  /** The sum of the quantities of some ledger rows. */
  function TotalQuantity(rows: seq<Purchase>): int
  {
    if |rows| == 0 then 0 else rows[0].quantity + TotalQuantity(rows[1..])
  }

  lemma {:induction false} TotalQuantityAppend(rows: seq<Purchase>, x: Purchase)
    ensures TotalQuantity(rows + [x]) == TotalQuantity(rows) + x.quantity
  {
    if |rows| != 0 {
      assert (rows + [x])[1..] == rows[1..] + [x];
      TotalQuantityAppend(rows[1..], x);
    }
  }

  /** The total quantity the ledger records as received for one product. */
  function Received(ledger: seq<Purchase>, productId: int): int
  {
    TotalQuantity(PurchasesOf(ledger, productId))
  }

  /** Appending a ledger row adds its quantity to the total of the product it
      names and to no other product's total. */
  lemma ReceivedAppend(ledger: seq<Purchase>, x: Purchase, productId: int)
    ensures Received(ledger + [x], productId)
         == Received(ledger, productId) + (if x.productId == productId then x.quantity else 0)
  {
    PurchasesOfAppend(ledger, x, productId);
    if x.productId == productId {
      TotalQuantityAppend(PurchasesOf(ledger, productId), x);
    } else {
      assert PurchasesOf(ledger, productId) + [] == PurchasesOf(ledger, productId);
    }
  }

  /** In a consistent database the two sides of the relationship agree: a
      ledger row is among a product's purchases exactly when its `product`
      is that product, and no ledger row is without a product. */
  lemma RelationshipsAgree(db: Database, p: Product, x: Purchase)
    requires Consistent(db)
    requires p in db.catalog
    ensures x in db.ledger ==> ProductOf(db.catalog, x).Some?
    ensures x in PurchasesOf(db.ledger, p.id) <==> x in db.ledger && ProductOf(db.catalog, x) == Some(p)
  {
    PurchasesOfMembers(db.ledger, p.id, x);
    if x in db.ledger && ProductOf(db.catalog, x).Some? {
      var q := ProductOf(db.catalog, x).value;
      var i :| 0 <= i < |db.catalog| && db.catalog[i] == p;
      var j :| 0 <= j < |db.catalog| && db.catalog[j] == q;
      if i != j && p.id == q.id {
        AscendingKeysAreUnique(ProductIds(db.catalog), i, j);
      }
    }
  }
}
