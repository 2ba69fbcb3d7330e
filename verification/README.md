# Order service: validation, model building and the order repository

A Dafny model of the core of a small Go order service. It has two parts.

- The **service** (`service/order_service.go`) validates a request-side order whose identifiers are still text. The quantity check runs first: an item with quantity 0 is rejected and negative quantities pass. The duplicate check runs second: two items with the same identifier *text* are rejected. The service then builds the storage-side order by parsing every item identifier, in order, and then the order identifier. `AddOrder` composes the two steps. It parses the identifier the client sent instead of minting a fresh one, and it never calls the repository.
- The **repository** (`repository/order.go`) keeps two tables, modelled in memory by the class `Repository.OrderRepository`:
  - `order` is a map from id to (cost, created_at);
  - `order_item` is a sequence of (order id, menu item id, quantity) rows.

  `AddOrder` inserts the order row with the fixed cost 77 and then one item row per item. `UpdateOrder` deletes all item rows of the order and inserts the new ones. `DeleteOrder` removes the order row only, so its item rows stay behind. Reads go through an aggregate query that joins each order's items into one text column of `uuid=quantity` tokens separated by commas. `parseOrder` decodes that column and `parseOrders` decodes one row per order.

Engine failures are an input. `faults: set<Step>` names the calls of one operation that fail: `Begin`, the `n`-th write statement `Exec(n)` (counting from 0), `Commit`, or a read `Query`. The code runs every write through the connection pool (`o.db.Exec`), not through the transaction it opened. A write that succeeded therefore stays in effect when a later one fails, and the model states exactly that. No operation here is atomic. The `order` table's primary key is modelled: inserting an id that is already present fails with `DuplicateKey`.

Supporting modules:

- `Wrappers`: `Option`, `Result`, and `MapAll`, which is the "append while it succeeds, return the first error" loop that the Go code writes out three times.
- `Strings`: Go's `strings.Split` and `strings.Join` with a one-character separator, and ASCII case mapping.
- `Strconv`: Go's 64-bit `int`, `strconv.Atoi`, and the decimal text of an integer.
- `UuidCodec`: 128-bit identifiers. `Format` gives the lower-case canonical text of section 3 of RFC 4122. `Parse` accepts the forms `github.com/google/uuid`'s `Parse` accepts.
- `Model`: the storage-side order.

Where the code does less than its own structure suggests (Begin/Rollback/Commit around the writes, an aggregate read for every stored order, a service entry point named `AddOrder`), the model follows what the code does:

- the service does not mint identifiers and does not persist anything;
- the repository's writes are not atomic;
- deleting an order leaves its item rows;
- an order without items cannot be read back.

## Model

| member | source | states |
|---|---|---|
| `Service.IsValidItemsQuantity` | orderservice/pkg/orderservice/service/order_service.go:57-65 | fails, with the zero-quantity error, exactly when some item has quantity 0; negative quantities pass |
| `Service.IsOrderHasNotDuplicatedItems` | orderservice/pkg/orderservice/service/order_service.go:67-78 | fails, with the duplicate error, exactly when two items carry identical identifier text |
| `Service.ValidateOrder` | orderservice/pkg/orderservice/service/order_service.go:43-55 | a zero quantity is reported before duplicates; success iff no zero quantity and no duplicate text; an empty item list passes |
| `Service.OrderModel` | orderservice/pkg/orderservice/service/order_service.go:25-40 | succeeds iff every item id and the order id parse; the items keep length, order and quantities, with each id the parse of its text; time and cost are Go zero values; the first unparsable item id decides the error, before the order id is looked at |
| `Service.CreateOrderModel` | orderservice/pkg/orderservice/service/order_service.go:25-40 | the append loop returns exactly `OrderModel`'s result, with no partial model on error |
| `Service.AddOrder` | orderservice/pkg/orderservice/service/order_service.go:9-23 | a validation error is returned as is; otherwise the outcome is `OrderModel`'s error or success |
| `Service.CaseVariantsPassDuplicateCheck` | orderservice/pkg/orderservice/service/order_service.go:67-78 | a lower-case and an upper-case spelling of one identifier are different texts, pass validation, and yield two model items with the same identifier |
| `Wrappers.MapAll` | orderservice/pkg/orderservice/service/order_service.go:26-33 | all outputs in input order when every element succeeds, otherwise the error of the first failing element |
| `Wrappers.MapAllStopsAt` | orderservice/pkg/orderservice/repository/order.go:167-171 | once the prefix succeeds and element `i` fails, the whole traversal is that element's error |
| `Strings.Split` | orderservice/pkg/orderservice/repository/order.go:194 | at least one piece, no piece contains the separator, and joining the pieces gives the input back |
| `Strings.SplitJoin` | orderservice/pkg/orderservice/repository/order.go:194-198 | splitting a join of separator-free parts gives the parts back |
| `Strconv.Atoi` | orderservice/pkg/orderservice/repository/order.go:203 | a syntax error exactly when the text is not an optional sign followed by at least one digit; a negative result only after '-'; unsigned digits give their value when it fits in 64 bits and a range error otherwise |
| `Strconv.AtoiItoa` | orderservice/pkg/orderservice/repository/order.go:203 | `Atoi` reads the decimal text of every 64-bit integer back as that integer |
| `Strconv.ItoaCharacters` | orderservice/pkg/orderservice/repository/order.go:122 | the text of a quantity holds only digits and '-', so it never contains ',' or '=' |
| `UuidCodec.Format` | orderservice/pkg/orderservice/repository/order.go:121-122 | canonical text is 36 characters of lower-case hexadecimal digits and dashes |
| `UuidCodec.Parse` | orderservice/pkg/orderservice/repository/order.go:189 | the length alone decides `InvalidLength` (any length other than 32, 36, 38, 45); a 45-character text fails with `InvalidUrnPrefix` exactly when its first nine characters are not `urn:uuid:` in any case; an accepted 36-character text has dashes at 8, 13, 18 and 23, and an accepted 32-character text is all hexadecimal digits |
| `UuidCodec.ParseFormat` | orderservice/pkg/orderservice/repository/order.go:199 | parsing the canonical text of an identifier gives the identifier |
| `UuidCodec.FormatParse` | orderservice/pkg/orderservice/service/order_service.go:35 | a 36-character text that parses is, in lower case, the canonical text of its identifier |
| `UuidCodec.ParseIgnoresCase` | orderservice/pkg/orderservice/service/order_service.go:28 | an upper-case spelling parses to the same identifier, or fails with the same error |
| `Repository.FirstFailing` | orderservice/pkg/orderservice/repository/order.go:38-49 | the first failing write statement in a range, or the range's end when none fails |
| `Repository.AppendedRows` | orderservice/pkg/orderservice/repository/order.go:38-50 | after the insert loop, the order's rows are its earlier rows followed by the new ones; other orders' rows are unchanged |
| `Repository.ReplacedRows` | orderservice/pkg/orderservice/repository/order.go:68-87 | after delete-then-reinsert, the order's rows are exactly the new ones (none for an empty list); other orders' rows are unchanged |
| `Repository.DecodeItemToken` | orderservice/pkg/orderservice/repository/order.go:198-207 | an `id=quantity` token has no ',' and decodes to its item |
| `Repository.DecodeEncodeItems` | orderservice/pkg/orderservice/repository/order.go:194-208 | decoding the comma-joined tokens of a non-empty item list gives the same items in token order |
| `Repository.DecodeEmptyText` | orderservice/pkg/orderservice/repository/order.go:194-201 | empty text fails: it splits into one empty token, whose identifier has length 0 |
| `Repository.AggregateRow` | orderservice/pkg/orderservice/repository/order.go:119-128 | the query's row for one order: its id text parses back to the order's id, time and cost come from the order row, and the item column is NULL exactly when no `order_item` row names the order (`LEFT JOIN`) |
| `Repository.AggregateRows` | orderservice/pkg/orderservice/repository/order.go:147-155 | the listing query: one row per listed order, each with the id, time, cost and NULL-iff-no-items facts of `AggregateRow` |
| `Repository.ReadBack` | orderservice/pkg/orderservice/repository/order.go:178-216 | an order with item rows decodes to its id, its items in table order, and its time and cost |
| `Repository.ItemlessOrderUnreadable` | orderservice/pkg/orderservice/repository/order.go:184-187 | an order without item rows yields a NULL item column, and the scan fails |
| `Repository.AddedOrderReadsBack` | orderservice/pkg/orderservice/repository/order.go:32-50 | a new order with items, once fully added, reads back with the same items, cost 77 and the `created_at` value stored for it (the `now` argument, read back as stored) |
| `Repository.UpdatedOrderReadsBack` | orderservice/pkg/orderservice/repository/order.go:68-87 | after a complete update with items, the order reads back with exactly the new items |
| `Repository.ListingReadsBack` | orderservice/pkg/orderservice/repository/order.go:164-176 | decoding the listing succeeds iff every listed order has item rows, and then gives each order in row order |
| `Repository.ParseOrder` | orderservice/pkg/orderservice/repository/order.go:178-216 | the scan, id parse and token loop compute `DecodeRow`; a token without '=' is modelled as the error `MissingQuantity` (the source panics at `repository/order.go:203`) |
| `Repository.ParseOrders` | orderservice/pkg/orderservice/repository/order.go:164-176 | orders in row order, or the first failing row's error and no list |
| `Repository.OrderRepository.constructor` | orderservice/pkg/orderservice/repository/order.go:16-18 | both tables start empty |
| `Repository.OrderRepository.AddOrder` | orderservice/pkg/orderservice/repository/order.go:20-53 | the order row (cost 77, given time) and then item rows in list order, up to the first failing statement; an existing id fails the header insert; earlier writes persist on error; on success nothing else changes |
| `Repository.OrderRepository.UpdateOrder` | orderservice/pkg/orderservice/repository/order.go:55-90 | the order table is unchanged; the order's item rows are deleted, then new ones are inserted up to the first failing statement; on success the order's rows are exactly the new list and other orders' rows are unchanged |
| `Repository.OrderRepository.DeleteOrder` | orderservice/pkg/orderservice/repository/order.go:92-111 | removes only the order row, succeeds for an absent id, and leaves every item row |
| `Repository.OrderRepository.GetOrder` | orderservice/pkg/orderservice/repository/order.go:113-144 | no order and no error for an unknown id; the stored order when it has item rows; the NULL-column error when it has none |
| `Repository.OrderRepository.GetOrders` | orderservice/pkg/orderservice/repository/order.go:146-162 | one decoded order per order row, in the engine's row order; fails as a whole iff some order has no item rows |
| `Repository.OrderRepository.AddOrderAtomic` | orderservice/pkg/orderservice/repository/order.go:20-53 | corrected: any failure leaves both tables unchanged; success writes the order row and all item rows |
| `Repository.OrderRepository.UpdateOrderAtomic` | orderservice/pkg/orderservice/repository/order.go:55-90 | corrected: any failure leaves the item rows unchanged; success replaces the order's rows completely |
| `Repository.PartialAddLeavesRows` | orderservice/pkg/orderservice/repository/order.go:32-48 | a failing second item insert returns its error, yet the order row and the first item row remain |
| `Repository.PartialUpdateLosesItems` | orderservice/pkg/orderservice/repository/order.go:68-85 | a failing insert after the delete leaves the order with no items, and reading it then fails |
| `Repository.AtomicAddLeavesNothing` | orderservice/pkg/orderservice/repository/order.go:28-48 | the same failure under the corrected add leaves both tables empty |
| `Repository.ItemlessOrderScenario` | orderservice/pkg/orderservice/repository/order.go:184-187 | an order added with no items is stored, and reading it returns the NULL-column error |
| `Repository.ReadBackNullable` | orderservice/pkg/orderservice/repository/order.go:178-208 | corrected: with NULL read as "no items", every stored order reads back, with or without items |

## Left out

- HTTP transport, JSON, logging, process start-up and configuration, and the URL-redirect tool are not part of this model.
- Service `UpdateOrder`, `DeleteOrder` and `GetOrderInfo`: the service file has none.
- The unused `orderModel` variable in the service's `AddOrder`: the built model is discarded and no repository call follows. Go rejects an unused local variable, so that file does not compile as written; the model keeps the evident behaviour of validating, then building the model.
- The SQL engine is replaced by the functions `RowsOf`, `RowsNotOf` and `AggregateRow` over the modelled tables. `GROUP_CONCAT`'s element order is taken to be table order. The engine's `GROUP BY` output order is the `rowOrder` parameter of `GetOrders`. The truncation at `group_concat_max_len` is not modelled.
- The database schema is not part of this model. No foreign key links `order_item` to `order`. A constraint failure the engine might raise is covered by an `Exec` fault. The quantity column is taken to hold any Go `int`.
- `time.Now()` is the `now` parameter, and `time.Time` is opaque.
- `created_at` is taken to read back as exactly the value `AddOrder` stored. The column's precision (which rounds the nanoseconds away) and the time zone the driver gives a parsed time (UTC) are not modelled, so the read-back time is not the `time.Time` the program passed in.
- Concurrency, isolation between concurrent operations, `rows.Close` and `rows.Err`, and the errors of `tx.Rollback` are not modelled.
- `MarshalBinary` cannot fail, because a UUID is its 16 bytes. The error branches after it are unreachable and are not modelled.
- The run-time panic at `repository/order.go:203` (a token with a valid identifier and no '=') is modelled as the error `MissingQuantity`.
- Strings are sequences of characters. Go measures length in bytes, so the length checks of `uuid.Parse` can differ from this model on non-ASCII input. `EqualFold` is modelled for ASCII only.
- `uuid.Parse` and `strconv.Atoi` are modelled from their documented behaviour. Their source is not part of this model.

## Findings

| source | as written | input that shows it | evidently intended | confidence | as-written member | corrected member |
|---|---|---|---|---|---|---|
| orderservice/pkg/orderservice/repository/order.go:32-48 | every insert of `AddOrder` runs on `o.db`, outside the transaction, so `tx.Rollback` undoes nothing | two items, where the third write statement (the second item insert) fails | the order row and its items are written together or not at all | high, not executed | `Repository.PartialAddLeavesRows` | `Repository.OrderRepository.AddOrderAtomic` |
| orderservice/pkg/orderservice/repository/order.go:68-85 | `UpdateOrder`'s delete and inserts run on `o.db`, outside the transaction | a stored order with one item, updated with one item whose insert fails | a failed update leaves the previous items in place | high, not executed | `Repository.PartialUpdateLosesItems` | `Repository.OrderRepository.UpdateOrderAtomic` |
| orderservice/pkg/orderservice/repository/order.go:184-187 | an order without item rows has a NULL item column, and scanning NULL into a string fails | `AddOrder` with an empty item list (validation accepts it), then `GetOrder` of that id | the order reads back with an empty item list (`Repository.ReadBackNullable`) | medium, not executed | `Repository.ItemlessOrderScenario` | `Repository.DecodeRowNullable` |
