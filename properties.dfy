/** What the handlers of app.py promise about the stock and the ledger,
    proved of the step functions that the methods of `App.Inventory` follow. */
module Properties {
  import opened Wrappers
  import opened Models
  import opened App

  /** `after` is `before` with at most the stock of the product keyed `id`
      changed: same rows, same order, same keys, names, units and suppliers. */
  ghost predicate ChangesOnlyStockOf(before: seq<Product>, after: seq<Product>, id: int)
  {
    && |after| == |before|
    && forall k :: 0 <= k < |before| ==>
         after[k] == if before[k].id == id then before[k].(stock := after[k].stock) else before[k]
  }

  /** The outcome `r` and database `after` of a successful "minus" on the
      product keyed `id`, whose stock was `s`: a positive stock is lowered by
      exactly one, a stock at or below zero is left as it is (and then nothing
      changes at all), no other product or column changes, and the ledger is
      untouched. */
  ghost predicate MinusApplied(before: Database, r: Outcome<Error>, after: Database, id: int, s: int)
  {
    && r == Pass
    && StockOf(after.catalog, id) == Some(if s > 0 then s - 1 else s)
    && (s <= 0 ==> after == before)
    && (forall x :: x != id ==> StockOf(after.catalog, x) == StockOf(before.catalog, x))
    && ChangesOnlyStockOf(before.catalog, after.catalog, id)
    && after.ledger == before.ledger
  }

  /** The outcome `r` and database `after` of a successful purchase of
      `quantity` units of the product keyed `id`, whose stock was `s`: exactly
      one ledger row is appended, carrying the product, the quantity, the price
      as stored and the time under a fresh key; earlier rows are kept; the
      product's stock rises by exactly the quantity and no other product or
      column changes. */
  ghost predicate PurchaseRecorded(before: Database, r: Outcome<Error>, after: Database,
                                   id: int, quantity: int, price: Price, now: Timestamp, s: int)
  {
    && r == Pass
    && |after.ledger| == |before.ledger| + 1
    && after.ledger[..|before.ledger|] == before.ledger
    && (var row := after.ledger[|before.ledger|];
        && row.productId == id && row.quantity == quantity && row.price == StoredPrice(price) && row.timestamp == now
        && row.id !in PurchaseIds(before.ledger))
    && StockOf(after.catalog, id) == Some(s + quantity)
    && (forall x :: x != id ==> StockOf(after.catalog, x) == StockOf(before.catalog, x))
    && ChangesOnlyStockOf(before.catalog, after.catalog, id)
  }

  /** Every product has a non-negative stock. */
  ghost predicate StockNonNegative(catalog: seq<Product>)
  {
    forall k :: 0 <= k < |catalog| ==> catalog[k].stock >= 0
  }

  /** Setting the stock of the row a lookup found sets that product's stock
      and changes no other product. */
  lemma SetStockEffect(catalog: seq<Product>, id: int, k: nat, stock: int)
    requires Find(catalog, id) == Some(k)
    ensures StockOf(SetStock(catalog, k, stock), id) == Some(stock)
    ensures forall x :: x != id ==> StockOf(SetStock(catalog, k, stock), x) == StockOf(catalog, x)
    ensures ChangesOnlyStockOf(catalog, SetStock(catalog, k, stock), id)
  {
    var c := SetStock(catalog, k, stock);
    FindSameKeys(catalog, c, id);
    forall x | x != id ensures StockOf(c, x) == StockOf(catalog, x) {
      SetStockOther(catalog, id, k, stock, x);
    }
  }

  /** Setting the stock of the row a lookup found for `id` leaves the stock
      of every other key as it was. */
  lemma SetStockOther(catalog: seq<Product>, id: int, k: nat, stock: int, x: int)
    requires Find(catalog, id) == Some(k)
    requires x != id
    ensures StockOf(SetStock(catalog, k, stock), x) == StockOf(catalog, x)
  {
    FindSameKeys(catalog, SetStock(catalog, k, stock), x);
  }

  /** The successful branch of "plus", once the lookup has found row `k`
      holding stock `s`. */
  lemma PlusStep(db: Database, id: int, k: nat, s: int)
    requires InInt64(id)
    requires Find(db.catalog, id) == Some(k)
    requires db.catalog[k].stock == s
    requires InInt64(s + 1)
    ensures UpdateStockStep(db, id, "plus").0 == Pass
    ensures UpdateStockStep(db, id, "plus").1 == db.(catalog := SetStock(db.catalog, k, s + 1))
  {
  }

  /** The branches of "minus", once the lookup has found row `k` holding stock `s`. */
  lemma MinusStep(db: Database, id: int, k: nat, s: int)
    requires InInt64(id)
    requires Find(db.catalog, id) == Some(k)
    requires db.catalog[k].stock == s
    ensures UpdateStockStep(db, id, "minus").0 == Pass
    ensures UpdateStockStep(db, id, "minus").1
         == if s > 0 then db.(catalog := SetStock(db.catalog, k, s - 1)) else db
  {
  }

  /** The successful branch of a purchase, once the lookup has found row `k`
      holding stock `s`. */
  lemma PurchaseStep(db: Database, id: int, quantity: int, price: Price, now: Timestamp, k: nat, s: int)
    requires InInt64(id) && InInt64(quantity) && !IsNaN(price)
    requires Find(db.catalog, id) == Some(k)
    requires db.catalog[k].stock == s
    requires InInt64(s + quantity)
    ensures AddPurchaseStep(db, id, quantity, price, now).0 == Pass
    ensures AddPurchaseStep(db, id, quantity, price, now).1.catalog == SetStock(db.catalog, k, s + quantity)
    ensures AddPurchaseStep(db, id, quantity, price, now).1.ledger
         == db.ledger + [NewPurchaseRow(db.ledger, id, quantity, price, now)]
  {
  }

  /** "plus" raises the product's stock by exactly one and changes nothing
      else, when the raised stock is still a 64-bit integer. */
  lemma UpdateStockPlus(db: Database, id: int, s: int)
    requires InInt64(id)
    requires StockOf(db.catalog, id) == Some(s)
    requires InInt64(s + 1)
    ensures var (r, db') := UpdateStockStep(db, id, "plus");
      && r == Pass
      && StockOf(db'.catalog, id) == Some(s + 1)
      && (forall x :: x != id ==> StockOf(db'.catalog, x) == StockOf(db.catalog, x))
      && ChangesOnlyStockOf(db.catalog, db'.catalog, id)
      && db'.ledger == db.ledger
  {
    var k := Find(db.catalog, id).value;
    assert db.catalog[k].stock == s;
    PlusStep(db, id, k, s);
    SetStockEffect(db.catalog, id, k, s + 1);
  }

  /** "plus" that would leave the 64-bit range fails when the new stock is
      written, and nothing changes. */
  lemma UpdateStockPlusOverflow(db: Database, id: int, s: int)
    requires InInt64(id)
    requires StockOf(db.catalog, id) == Some(s)
    requires !InInt64(s + 1)
    ensures UpdateStockStep(db, id, "plus") == (Fail(IntegerOverflow(s + 1)), db)
  {
    assert db.catalog[Find(db.catalog, id).value].stock == s;
  }

  /** "minus" lowers a positive stock by exactly one, leaves a stock at or
      below zero as it is, and changes nothing else. */
  lemma UpdateStockMinus(db: Database, id: int, s: int)
    requires InInt64(id)
    requires StockOf(db.catalog, id) == Some(s)
    ensures var (r, db') := UpdateStockStep(db, id, "minus");
      MinusApplied(db, r, db', id, s)
  {
    UpdateStockMinusAt(db, id, Find(db.catalog, id).value, s);
  }

  /** `UpdateStockMinus`, for the row `k` the lookup finds. */
  lemma UpdateStockMinusAt(db: Database, id: int, k: nat, s: int)
    requires InInt64(id)
    requires Find(db.catalog, id) == Some(k)
    requires db.catalog[k].stock == s
    ensures var (r, db') := UpdateStockStep(db, id, "minus");
      MinusApplied(db, r, db', id, s)
  {
    MinusStep(db, id, k, s);
    if s > 0 {
      SetStockEffect(db.catalog, id, k, s - 1);
    }
  }

  /** Any action other than "plus" and "minus" changes nothing, whether or not
      the product exists; it succeeds unless the id is outside the 64-bit
      range, where the lookup itself fails. */
  lemma UpdateStockOtherAction(db: Database, id: int, action: string)
    requires action != "plus" && action != "minus"
    ensures UpdateStockStep(db, id, action)
         == (if InInt64(id) then Pass else Fail(IntegerOverflow(id)), db)
  {
  }

  /** "plus" or "minus" on a missing product fails and changes no table. */
  lemma UpdateStockMissingProduct(db: Database, id: int, action: string)
    requires id !in ProductIds(db.catalog)
    requires action == "plus" || action == "minus"
    ensures UpdateStockStep(db, id, action)
         == (Fail(if InInt64(id) then NoSuchProduct(id) else IntegerOverflow(id)), db)
  {
  }

  /** A failed stock adjustment leaves both tables as they were. */
  lemma UpdateStockFailureCommitsNothing(db: Database, id: int, action: string)
    ensures UpdateStockStep(db, id, action).0.Fail? ==> UpdateStockStep(db, id, action).1 == db
  {
  }

  /** Adjusting stock never takes a non-negative stock below zero. */
  lemma UpdateStockKeepsStockNonNegative(db: Database, id: int, action: string)
    requires StockNonNegative(db.catalog)
    ensures StockNonNegative(UpdateStockStep(db, id, action).1.catalog)
  {
    var db' := UpdateStockStep(db, id, action).1;
    if Find(db.catalog, id).Some? {
      var k := Find(db.catalog, id).value;
      forall j | 0 <= j < |db'.catalog| ensures db'.catalog[j].stock >= 0 {
        if j != k {
          assert db'.catalog[j] == db.catalog[j];
        }
      }
    }
  }

  /** "plus" followed by "minus" restores the database exactly when the
      stock was non-negative and below the largest 64-bit value. From a
      negative stock the "minus" is refused and the stock stays one higher;
      at the largest value the "plus" fails and the "minus" lowers the stock. */
  lemma PlusThenMinus(db: Database, id: int, s: int)
    requires InInt64(id)
    requires StockOf(db.catalog, id) == Some(s)
    requires InInt64(s)
    ensures var db1 := UpdateStockStep(db, id, "plus").1;
            var db2 := UpdateStockStep(db1, id, "minus").1;
            && (db2 == db <==> 0 <= s < Int64Max)
            && StockOf(db2.catalog, id) == Some(if s < 0 then s + 1 else if s == Int64Max then s - 1 else s)
  {
    if s == Int64Max {
      PlusThenMinusAtMax(db, id);
    } else {
      PlusThenMinusBelowMax(db, id, s);
    }
  }

  /** At the largest stock the "plus" fails and only the "minus" takes effect. */
  lemma PlusThenMinusAtMax(db: Database, id: int)
    requires InInt64(id)
    requires StockOf(db.catalog, id) == Some(Int64Max)
    ensures var db2 := UpdateStockStep(UpdateStockStep(db, id, "plus").1, id, "minus").1;
            && db2 != db
            && StockOf(db2.catalog, id) == Some(Int64Max - 1)
  {
    UpdateStockPlusOverflow(db, id, Int64Max);
    UpdateStockMinus(db, id, Int64Max);
  }

  /** Below the largest stock both steps find the same row; the "minus"
      undoes the "plus" exactly when the stock was not negative. */
  lemma PlusThenMinusBelowMax(db: Database, id: int, s: int)
    requires InInt64(id)
    requires StockOf(db.catalog, id) == Some(s)
    requires InInt64(s + 1)
    ensures var db2 := UpdateStockStep(UpdateStockStep(db, id, "plus").1, id, "minus").1;
            && (db2 == db <==> 0 <= s)
            && StockOf(db2.catalog, id) == Some(if s < 0 then s + 1 else s)
  {
    var k := Find(db.catalog, id).value;
    assert db.catalog[k].stock == s;
    var c1 := SetStock(db.catalog, k, s + 1);
    var db1 := db.(catalog := c1);
    PlusStep(db, id, k, s);
    FindSameKeys(db.catalog, c1, id);
    assert c1[k].stock == s + 1;
    MinusStep(db1, id, k, s + 1);
    if s >= 0 {
      assert SetStock(c1, k, s) == db.catalog;
    } else {
      assert c1[k] != db.catalog[k];
      SetStockEffect(db.catalog, id, k, s + 1);
    }
  }

  /** A purchase for an existing product, with a 64-bit product id and
      quantity, a price that is not NaN and a new stock in the 64-bit range,
      appends exactly one ledger row, carrying the given product, quantity,
      price and time under a fresh key, and raises that product's stock by
      exactly the quantity; earlier ledger rows and every other product are
      unchanged. */
  lemma AddPurchaseRecords(db: Database, id: int, quantity: int, price: Price, now: Timestamp, s: int)
    requires InInt64(id) && InInt64(quantity) && !IsNaN(price)
    requires StockOf(db.catalog, id) == Some(s)
    requires InInt64(s + quantity)
    ensures var (r, db') := AddPurchaseStep(db, id, quantity, price, now);
      PurchaseRecorded(db, r, db', id, quantity, price, now, s)
  {
    AddPurchaseRecordsAt(db, id, quantity, price, now, Find(db.catalog, id).value, s);
  }

  /** `AddPurchaseRecords`, for the row `k` the lookup finds. */
  lemma AddPurchaseRecordsAt(db: Database, id: int, quantity: int, price: Price, now: Timestamp, k: nat, s: int)
    requires InInt64(id) && InInt64(quantity) && !IsNaN(price)
    requires Find(db.catalog, id) == Some(k)
    requires db.catalog[k].stock == s
    requires InInt64(s + quantity)
    ensures var (r, db') := AddPurchaseStep(db, id, quantity, price, now);
      PurchaseRecorded(db, r, db', id, quantity, price, now, s)
  {
    var row := NewPurchaseRow(db.ledger, id, quantity, price, now);
    var db' := Database(SetStock(db.catalog, k, s + quantity), db.ledger + [row]);
    PurchaseStep(db, id, quantity, price, now, k, s);
    SetStockEffect(db.catalog, id, k, s + quantity);
    assert db'.ledger[..|db.ledger|] == db.ledger;
    assert row.id !in PurchaseIds(db.ledger) by {
      var ids := PurchaseIds(db.ledger);
      assert forall j :: 0 <= j < |ids| ==> ids[j] < NextRowId(ids);
    }
  }

  /** A purchase succeeds exactly when its product id and quantity are 64-bit
      integers, its price is not NaN, the product exists and the new stock is
      a 64-bit integer; otherwise it fails with both tables unchanged. */
  lemma AddPurchaseSucceedsIff(db: Database, id: int, quantity: int, price: Price, now: Timestamp)
    ensures var (r, db') := AddPurchaseStep(db, id, quantity, price, now);
      && (r.Pass? <==> InInt64(id) && InInt64(quantity) && !IsNaN(price)
                       && StockOf(db.catalog, id).Some? && InInt64(StockOf(db.catalog, id).value + quantity))
      && (r.Fail? ==> db' == db)
  {
  }

  /** A purchase naming a missing product fails, appends no ledger row and
      changes no stock; with storable values the failure is the missing product. */
  lemma AddPurchaseMissingProduct(db: Database, id: int, quantity: int, price: Price, now: Timestamp)
    requires id !in ProductIds(db.catalog)
    ensures AddPurchaseStep(db, id, quantity, price, now).0.Fail?
    ensures AddPurchaseStep(db, id, quantity, price, now).1 == db
    ensures InInt64(id) && InInt64(quantity) && !IsNaN(price) ==>
              AddPurchaseStep(db, id, quantity, price, now).0 == Fail(NoSuchProduct(id))
  {
  }

  /** Recording a purchase moves a product's stock and its received total
      together: for every product, stock minus the quantities the ledger
      records for it is the same before and after, and the product bought
      has received exactly the quantity more. */
  lemma AddPurchaseKeepsBalance(db: Database, id: int, quantity: int, price: Price, now: Timestamp, x: int)
    requires x in ProductIds(db.catalog)
    ensures var (r, db') := AddPurchaseStep(db, id, quantity, price, now);
      && StockOf(db'.catalog, x).value - Received(db'.ledger, x) == StockOf(db.catalog, x).value - Received(db.ledger, x)
      && Received(db'.ledger, x) == Received(db.ledger, x) + (if id == x && r.Pass? then quantity else 0)
  {
    var (r, db') := AddPurchaseStep(db, id, quantity, price, now);
    if r.Pass? {
      var k := Find(db.catalog, id).value;
      var s := db.catalog[k].stock;
      var row := NewPurchaseRow(db.ledger, id, quantity, price, now);
      PurchaseStep(db, id, quantity, price, now, k, s);
      assert db' == Database(SetStock(db.catalog, k, s + row.quantity), db.ledger + [row]);
      BalanceAfterAppend(db.catalog, db.ledger, id, k, s, row, x);
    } else {
      AddPurchaseSucceedsIff(db, id, quantity, price, now);
      assert db' == db;
    }
  }

  /** The tables after a successful purchase keep the balance of every product. */
  lemma BalanceAfterAppend(catalog: seq<Product>, ledger: seq<Purchase>, id: int, k: nat, s: int, row: Purchase, x: int)
    requires Find(catalog, id) == Some(k)
    requires catalog[k].stock == s
    requires row.productId == id
    requires x in ProductIds(catalog)
    ensures StockOf(SetStock(catalog, k, s + row.quantity), x).value - Received(ledger + [row], x)
         == StockOf(catalog, x).value - Received(ledger, x)
    ensures Received(ledger + [row], x) == Received(ledger, x) + (if id == x then row.quantity else 0)
  {
    var c := SetStock(catalog, k, s + row.quantity);
    ReceivedAppend(ledger, row, x);
    if x == id {
      FindSameKeys(catalog, c, id);
      assert StockOf(catalog, x).value == s;
      assert StockOf(c, x).value == s + row.quantity;
    } else {
      SetStockOther(catalog, id, k, s + row.quantity, x);
    }
  }

  /** A purchase of a non-negative quantity keeps every stock non-negative. */
  lemma AddPurchaseKeepsStockNonNegative(db: Database, id: int, quantity: int, price: Price, now: Timestamp)
    requires StockNonNegative(db.catalog)
    requires quantity >= 0
    ensures StockNonNegative(AddPurchaseStep(db, id, quantity, price, now).1.catalog)
  {
    var db' := AddPurchaseStep(db, id, quantity, price, now).1;
    if Find(db.catalog, id).Some? {
      var k := Find(db.catalog, id).value;
      forall j | 0 <= j < |db'.catalog| ensures db'.catalog[j].stock >= 0 {
        if j != k {
          assert db'.catalog[j] == db.catalog[j];
        }
      }
    }
  }

  /** Adding a product with a 64-bit stock appends exactly one row with the
      given name, unit, supplier and stock under a key no product had;
      existing products and the ledger are unchanged. */
  lemma AddProductAppends(db: Database, name: string, unit: string, supplier: string, stock: int)
    requires InInt64(stock)
    ensures var (r, db') := AddProductStep(db, name, unit, supplier, stock);
      && r == Pass
      && |db'.catalog| == |db.catalog| + 1
      && db'.catalog[..|db.catalog|] == db.catalog
      && (var p := db'.catalog[|db.catalog|];
          && p.name == name && p.unit == unit && p.supplier == supplier && p.stock == stock
          && p.id !in ProductIds(db.catalog)
          && StockOf(db'.catalog, p.id) == Some(stock))
      && (forall x :: x in ProductIds(db.catalog) ==> StockOf(db'.catalog, x) == StockOf(db.catalog, x))
      && db'.ledger == db.ledger
  {
    var db' := AddProductStep(db, name, unit, supplier, stock).1;
    var ids := ProductIds(db.catalog);
    var p := db'.catalog[|db.catalog|];
    assert db'.catalog[..|db.catalog|] == db.catalog;
    assert ProductIds(db'.catalog) == ids + [p.id];
    forall x | x in ids ensures StockOf(db'.catalog, x) == StockOf(db.catalog, x) {
      FindPrefix(db.catalog, p, x);
    }
    FindPrefix(db.catalog, p, p.id);
  }

  /** A stock outside the 64-bit range fails the insert, and nothing changes. */
  lemma AddProductOverflow(db: Database, name: string, unit: string, supplier: string, stock: int)
    requires !InInt64(stock)
    ensures AddProductStep(db, name, unit, supplier, stock) == (Fail(IntegerOverflow(stock)), db)
  {
  }

  /** Appending a row does not move a lookup that already succeeded, and a
      key that was absent is found at the new row. */
  lemma {:induction false} FindPrefix(catalog: seq<Product>, p: Product, id: int)
    ensures Find(catalog + [p], id)
         == if Find(catalog, id).Some? then Find(catalog, id)
            else if p.id == id then Some(|catalog|) else None
  {
    if |catalog| != 0 {
      assert (catalog + [p])[1..] == catalog[1..] + [p];
      FindPrefix(catalog[1..], p, id);
    }
  }

  /** Starting up on an empty catalog leaves exactly one product, the sample
      with stock 5 under key 1; on a non-empty catalog it changes nothing. */
  lemma SeedEffect(db: Database)
    ensures |db.catalog| == 0 ==>
      SeedStep(db) == db.(catalog := [Product(1, SampleName, SampleUnit, SampleSupplier, 5)])
    ensures |db.catalog| != 0 ==> SeedStep(db) == db
  {
  }

  /** Starting up a second time changes nothing. */
  lemma SeedIdempotent(db: Database)
    ensures SeedStep(SeedStep(db)) == SeedStep(db)
  {
  }
}
