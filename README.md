# Café inventory: the product catalog and the purchase ledger

This project models the core of a small Flask inventory application: a
**product catalog** (id, name, unit, supplier, stock) and an append-only
**purchase ledger** (id, product id, quantity, price, timestamp), and the
request handlers that change them:

- the start-up block, which inserts a sample product (stock 5) into an empty catalog;
- `index` and `purchases`, which list the two tables;
- `add_purchase`, which appends one ledger row and raises the product's stock by the quantity;
- `update_stock`, which adds one ("plus") or takes one away from a positive stock ("minus");
- `add_product`, which appends a product under a fresh id.

Layout:

- `wrappers.dfy`: `Option` and `Outcome`.
- `models.dfy` (module `Models`, from models.py): the row datatypes, the
  `Database` value holding both tables, how SQLite assigns primary keys
  (`NextRowId`: one more than the largest key (keys are positive), 1 on an
  empty table), the primary-key lookup `Find`, the range of an SQLite
  INTEGER (`InInt64`, a signed 64-bit value), the NaN test on prices
  (`IsNaN`), the price the `price` column keeps (`StoredPrice`: -0.0 becomes
  0.0), the invariant `Consistent` (unique keys in both tables, every ledger
  row naming a product, every stored stock, product reference and quantity
  in the 64-bit range, no NaN or -0.0 price; keys are only positive), and both directions of the product/purchase
  relationship
  (`ProductOf`, `PurchasesOf`).
- `app.dfy` (module `App`, from app.py): one step function per handler,
  giving the `Outcome` and the database after the request, and the class
  `Inventory`, whose fields `products` and `purchases` are the two tables.
  Its methods update those fields in place, as the handlers update fetched
  rows and add new ones. Each method is proved to leave exactly the state
  its step function gives and to keep `Consistent`.
- `properties.dfy` (module `Properties`): what the handlers promise, proved
  of the step functions. This covers the stock deltas, the floor on "minus",
  "exactly one ledger row appended", "no other product changes", the failure
  paths, seeding and the balance between stock and the ledger.

A handler that raises before its commit changes nothing. The model returns
`Fail(e)` with the tables as they were, for three causes:

- `NoSuchProduct(id)`: the handler dereferences a missing product.
- `IntegerOverflow(v)`: an integer bound into a statement lies outside the
  signed 64-bit range of an SQLite INTEGER, so the driver raises
  OverflowError. This covers a product id or quantity, the stock of a new
  product, and a stock that a purchase or "plus" moves out of that range.
- `NullPrice`: a NaN price is stored as NULL, and the NOT NULL `price`
  column rejects it.

`add_purchase` checks these in the order the statements bind them: the
product id, the quantity and the price of the pending purchase row, then the
lookup, then the new stock.

The model follows app.py in these points, some of which a reader might not
expect:

- Stock is not non-negative in general. `add_product` and `add_purchase`
  accept negative values. Non-negativity is proved only as a property that
  `update_stock`, and `add_purchase` with a non-negative quantity, preserve.
- "minus" is a no-op for every stock at or below zero, not only at zero.
- A missing product is not a graceful "not found". It is an unhandled
  exception, and nothing is committed.
- `update_stock` with an action other than "plus" or "minus" never reads the
  product's stock: the `and` short-circuits. So, for an id in range, it
  succeeds and changes nothing even when the product does not exist.
- `add_purchase` adds the purchase to the session before it fetches the
  product. On failure that pending row is rolled back, so it takes no key.

## Model

| member | source | states |
|---|---|---|
| `Models.OmittedStockIsZero` | models.py:11 | a product built without a stock value has stock 0 |
| `Models.NextRowId` | models.py:7 | the key given to a new row is at least 1, exceeds every existing key, and is 1 or one more than an existing key (the largest key plus one) |
| `Models.AppendNextKeyAscending` | models.py:14 | inserting a row under the next key keeps a table's keys positive and strictly ascending |
| `Models.AscendingKeysAreUnique` | models.py:7 | ascending keys are a primary key: no two rows share one |
| `Models.Find` | app.py:30 | the primary-key lookup returns a position holding the key, and the first such; it returns None exactly when no row has the key |
| `Models.StoredPrice` | models.py:17 | the price the column keeps is never -0.0: -0.0 is kept as 0.0 (bits 0), and it is the given price whenever that is not -0.0, and is not NaN when the given price is not NaN |
| `Models.FindUnique` | models.py:7 | with unique keys, a lookup of a row's key returns that row |
| `Models.StockOfRow` | models.py:7-11 | with unique keys, the stock of a row's key is that row's stock column |
| `Models.ProductOf` | models.py:20 | a purchase's `product` is a catalog row with its `productId`, and is absent exactly when no product has that id |
| `Models.PurchasesOfMembers` | models.py:20 | a product's `purchases` are exactly the ledger rows whose `productId` is its id |
| `Models.PurchasesOfAppend` | app.py:27-28 | appending a ledger row extends the `purchases` of the product it names by that row and leaves every other product's `purchases` unchanged |
| `Models.ReceivedAppend` | app.py:27-28 | appending a ledger row adds its quantity to the received total of the product it names and to no other |
| `Models.RelationshipsAgree` | models.py:15-20 | in a consistent database every ledger row has a product, and a row is among a product's `purchases` exactly when its `product` is that product |
| `App.SeedStepConsistent` | app.py:11-14 | seeding keeps both keys unique, every ledger row naming a product, every stored stock, product reference and quantity in the 64-bit range and no price NaN |
| `App.AddProductStepConsistent` | app.py:57-59 | adding a product, successful or not, keeps both keys unique, every ledger row naming a product, every stored stock, product reference and quantity in the 64-bit range and no price NaN |
| `App.UpdateStockStepConsistent` | app.py:41-46 | adjusting stock, successful or not, keeps both keys unique, every ledger row naming a product, every stored stock, product reference and quantity in the 64-bit range and no price NaN |
| `App.AddPurchaseStepConsistent` | app.py:27-32 | recording a purchase, successful or not, keeps both keys unique, every ledger row naming a product (the foreign key of models.py:15), every stored stock, product reference and quantity in the 64-bit range and no price NaN |
| `App.Inventory.constructor` | app.py:10 | a new database file has both tables empty |
| `App.Inventory.Open` | app.py:10 | an existing consistent database file is opened with exactly its rows |
| `App.Inventory.Seed` | app.py:11-14 | the tables afterwards are the seeding step of the tables before, still consistent |
| `App.Inventory.Index` | app.py:18 | returns every product, keys ascending |
| `App.Inventory.AddPurchase` | app.py:24-32 | outcome and tables afterwards are the purchase step of the tables before: it fails with nothing changed on an out-of-range id, quantity or new stock, a NaN price or a missing product; the tables stay consistent |
| `App.Inventory.UpdateStock` | app.py:40-46 | outcome and tables afterwards are the stock-adjustment step of the tables before: it fails with nothing changed on an out-of-range id, a missing product for "plus"/"minus" or a stock raised out of range; the tables stay consistent |
| `App.Inventory.AddProduct` | app.py:52-59 | outcome and tables afterwards are the add-product step of the tables before: it fails with nothing changed on an out-of-range stock; the tables stay consistent |
| `App.Inventory.Purchases` | app.py:67 | returns every ledger row, keys ascending, each naming an existing product |
| `Properties.UpdateStockPlus` | app.py:42-43 | for an id in range and a raised stock still in range, "plus" succeeds and raises the product's stock by exactly 1; every other product, every other column and the ledger are unchanged |
| `Properties.UpdateStockPlusOverflow` | app.py:43-46 | "plus" that would raise the stock out of the 64-bit range fails with `IntegerOverflow` and changes nothing |
| `Properties.UpdateStockMinus` | app.py:44-45 | for an id in range, "minus" lowers a positive stock by exactly 1 and leaves a stock at or below 0 unchanged (the whole database unchanged); nothing else changes |
| `Properties.UpdateStockOtherAction` | app.py:41-46 | any other action changes nothing, even for a missing product; it succeeds exactly when the id is in the 64-bit range, and fails with `IntegerOverflow` otherwise |
| `Properties.UpdateStockMissingProduct` | app.py:41-46 | "plus" or "minus" on a missing product fails with no change to either table: `NoSuchProduct` for an id in range, `IntegerOverflow` otherwise |
| `Properties.UpdateStockFailureCommitsNothing` | app.py:41-46 | every failed stock adjustment leaves both tables as they were |
| `Properties.UpdateStockKeepsStockNonNegative` | app.py:44-45 | if every stock is non-negative before an adjustment, every stock is non-negative after it |
| `Properties.PlusThenMinus` | app.py:42-45 | for an id and stock in range, "plus" then "minus" restores the database if and only if the stock was non-negative and below 2^63 - 1; from a negative stock it ends one higher, from 2^63 - 1 one lower |
| `Properties.AddPurchaseRecords` | app.py:27-31 | a purchase for an existing product, with id, quantity and new stock in range and a price that is not NaN, succeeds and appends exactly one ledger row carrying the given product, quantity and time and the price as stored (-0.0 as 0.0) under a fresh key; earlier rows are kept; that product's stock rises by exactly the quantity and no other product changes |
| `Properties.AddPurchaseSucceedsIff` | app.py:24-32 | a purchase succeeds if and only if its id and quantity are in range, its price is not NaN, the product exists and the new stock is in range; a failed purchase changes neither table |
| `Properties.AddPurchaseMissingProduct` | app.py:30-32 | a purchase naming a missing product fails, appends no row and changes no stock; with id and quantity in range and a price that is not NaN the failure is `NoSuchProduct` |
| `Properties.AddPurchaseKeepsBalance` | app.py:27-31 | for every product, stock minus the quantity the ledger records for it is unchanged by a purchase, and when the purchase succeeds the product bought has received exactly the quantity more |
| `Properties.AddPurchaseKeepsStockNonNegative` | app.py:25-31 | a purchase of a non-negative quantity keeps every stock non-negative |
| `Properties.AddProductAppends` | app.py:57-59 | adding a product with a stock in range succeeds and appends exactly one row with the given name, unit, supplier and stock under a key no product had; existing products and the ledger are unchanged |
| `Properties.AddProductOverflow` | app.py:55-59 | adding a product whose stock is outside the 64-bit range fails with `IntegerOverflow` and changes nothing |
| `Properties.SeedEffect` | app.py:11-14 | on an empty catalog seeding leaves exactly the sample product (key 1, stock 5); on a non-empty catalog it changes nothing |
| `Properties.SeedIdempotent` | app.py:11-14 | seeding a second time changes nothing |

## Left out

- Flask routing, `render_template`, `redirect`/`url_for` and `app.run`: web plumbing with no logic. The GET branches of `add_purchase` and `add_product` only render forms.
- SQLAlchemy sessions, queries and the SQLite connection string. The tables are sequences of rows in memory, and a handler's commit is the end of its method. A failed handler leaves the tables as they were.
- The order of `Query.all()` without ORDER BY is taken to be key order. In SQLite that is the usual order of a table scan, but SQL does not promise it.
- Form parsing with `int(...)` and `float(...)`, and the error raised for a missing or malformed form field. The methods take typed arguments.
- Prices are IEEE-754 doubles. The model keeps their bit patterns and never computes with them. It models the two conversions the `price` column makes: NaN is stored as NULL (the write fails), and -0.0 is stored as the integer 0 and listed as 0.0.
- The purchase timestamp comes from the clock (`datetime.utcnow`). The model takes it as a parameter.
- Concurrent requests: the lost update of `stock += quantity` under parallel requests, and database isolation.
- Login, registration, password hashing and session gating: none of it is in the modelled source files.
- The `String(100)`/`String(50)` length limits are not modelled. SQLite does not enforce them.
- SQLite's key choice once the largest key reaches 2^63 - 1 (a random unused key) is not modelled. Keys are unbounded integers.
- The `product_id` and `stock` columns are nullable in the schema. These handlers never store NULL in them, so the model has no null.
- A failing handler is a server error page in the application. The model has the failure outcome but no HTTP status.
