# AutoREST CRUD engine, modelled in Dafny

This project models the generic CRUD engine of AutoREST, a small REST API generator
for GORM. A `RegisteredType` binds one record shape to one store handle. It offers five
operations: Create, Read, List (paginated), Update (partial merge) and Delete. Each one
turns decoder and store outcomes into an HTTP status code: 200, 400, 404 or 500.

Layout:

- `types.dfy` (`Types`): `Option` and `Result`.
- `store.dfy` (`Store`): an abstract in-memory store. It is written twice over:
  - as pure functions over a `Table` value (rows by ID, plus a next-ID counter);
  - as a class `Db` whose methods update that state in place.

  A backend failure cannot come from the state alone, so every store call takes an
  injected `fault: Option<StoreError>`. `StoreError` is `NotFound` (GORM's
  record-not-found) or `Internal` (any other failure). The store reports `NotFound` by
  itself when an ID is missing. Rows come back in ascending ID order.
- `object.dfy` (`AutoRest`), the engine:
  - the status mapping (`ErrorStatus`);
  - the `Decoder` contract, which overlays a payload onto a record and keeps absent keys;
  - the `Logger`, which records each failure it is given, in order;
  - the 64-bit paging arithmetic and the `ListHeader` envelope;
  - one pure outcome function per operation;
  - the `RegisteredType` class, whose methods call the store in the same order as the Go
    code and are proved equal to those functions;
  - the `EndpointTypes` bit flags.
- `properties.dfy` (`Properties`): lemmas that relate several operations.
- `scenario.dfy` (`Scenario`): the test suite's end-to-end run, driven through the class
  contracts.

Points where the model follows the code:

- Update returns 200 even when `Save` fails, because the save error is never checked.
  The model keeps this behaviour; see `UpdateIgnoresSaveFailure`.
- The offset is `page*limit` and is applied only when `page > 0`. So a positive page with
  limit 0 starts at offset 0. The product uses Go's 64-bit `int` and wraps around.
- The test lists the records before the update, so the listed record still has `Int: 5`.
  The scenario follows the test.

## Model

| member | source | states |
|---|---|---|
| `Store.Empty` | gorilla/endpoint_test.go:44 | a fresh store is a valid table without rows |
| `Store.Fallible` | object.go:131-135 | an injected backend failure overrides what the store state would yield; without one the state decides |
| `Store.AssignedId` | object.go:92 | a record with unset ID (0) gets an ID not yet in the table; one with an ID keeps it |
| `Store.Put` | object.go:181 | writing a record stores it under its assigned ID with that ID, keeps the table valid, and leaves every other row alone |
| `Store.Insert` | object.go:92 | insert fails with an internal error exactly when the record names an ID already taken; otherwise it writes the record and adds one row |
| `Store.Lookup` | object.go:105 | fetch by ID yields the stored row exactly when the ID is present, otherwise not-found |
| `Store.Remove` | object.go:189 | delete removes exactly that ID and keeps the rest, or reports not-found when the ID is absent |
| `Store.Window` | object.go:138-145 | a find query returns no more rows than exist, and returns them all when neither offset nor cap is set |
| `Store.RowsBelowFacts` | object.go:145 | the store's order lists each row below a bound exactly once, strictly ascending by ID |
| `Store.RowsOfTable` | object.go:145 | a find without paging sees every stored row once, as many rows as the table holds, in ascending ID order |
| `Store.WindowSlice` | object.go:139-144 | a positive offset and a cap select the rows at positions off to off+cap-1 that exist, in order |
| `Store.Db.constructor` | gorilla/endpoint_test.go:44 | a new store holds an empty, consistent table |
| `Store.Db.Create` | object.go:92 | insert: on success the table is the one `Insert` gives, on failure it is unchanged and the error is returned |
| `Store.Db.First` | object.go:105 | fetch-first-by-ID returns the row, not-found, or the injected failure |
| `Store.Db.Count` | object.go:131 | counting returns the number of rows, or the injected failure |
| `Store.Db.Find` | object.go:145 | find returns the paged window of the rows in store order, or the injected failure |
| `Store.Db.Save` | object.go:181 | merge-write: on success the record is upserted under its ID, on failure nothing changes |
| `Store.Db.Delete` | object.go:189 | delete: on success the row is gone, on failure the table is unchanged and the error is returned |
| `AutoRest.ErrorStatus` | object.go:109-112 | a store error maps to 404 exactly when it is not-found, and to 500 exactly when it is any other failure |
| `AutoRest.Decode` | object.go:55-58 | decoding fails only for a malformed payload; otherwise fields the payload omits keep the target's values, the fields it names take its values, and no other key appears |
| `AutoRest.Logger.constructor` | object.go:61-64 | a new logger has recorded nothing |
| `AutoRest.Logger.Println` | object.go:61-64 | a message is appended to what was logged |
| `AutoRest.Mul64` | object.go:140 | Go's 64-bit product is the true product when it fits, and is congruent to it modulo 2^64 otherwise |
| `AutoRest.PageQuery` | object.go:138-144 | an offset is set exactly when page > 0 and equals the 64-bit product page*limit (0 when limit is 0); a cap is set exactly when limit > 0 and equals limit |
| `AutoRest.CreateOutcome` | object.go:82-99 | a failed decode gives 400 without touching the store; a failed insert of any kind gives 500 with the store unchanged; otherwise 200 with the decoded record inserted; exactly one failure is logged on every non-200 path |
| `AutoRest.ReadOutcome` | object.go:102-116 | a value comes back exactly when the code is 200, which happens exactly when the row exists and the store is healthy; 404 exactly for not-found, 500 exactly for other failures |
| `AutoRest.ListOutcome` | object.go:126-156 | a count failure always gives 500 with no value, whatever the data query would do; a data-query failure maps as in Read; on 200 the envelope echoes page and limit, Total counts all rows, and Data is the paged window |
| `AutoRest.UpdateOutcome` | object.go:160-183 | a fetch failure gives its 404/500 before any decode, with the store unchanged; a decode failure gives 400 with nothing saved; otherwise 200, with the merged record saved when the save works and the store unchanged when it does not |
| `AutoRest.DeleteOutcome` | object.go:186-199 | 200 exactly when the row exists and the store is healthy, and then only that row is gone; 404 exactly for not-found, 500 exactly for other failures, and the store is unchanged on both |
| `AutoRest.RegisteredType.constructor` | object.go:44-51 | registering binds the given shape and store handle |
| `AutoRest.RegisteredType.Blank` | object.go:83 | a fresh instance of the shape has unset ID and the shape's zero-valued fields |
| `AutoRest.RegisteredType.Create` | object.go:82-99 | the new store state, the status and the logged lines are those of `CreateOutcome` |
| `AutoRest.RegisteredType.Read` | object.go:102-116 | the value, the status and the logged lines are those of `ReadOutcome`; the store is not modified |
| `AutoRest.RegisteredType.List` | object.go:126-156 | the envelope, the status and the logged lines are those of `ListOutcome`, so on success the envelope's data is the window `PageQuery(page, limit)` selects from the rows in store order; the store is not modified |
| `AutoRest.RegisteredType.Update` | object.go:160-183 | the new store state, the status and the logged lines are those of `UpdateOutcome` |
| `AutoRest.RegisteredType.Delete` | object.go:186-199 | the new store state, the status and the logged lines are those of `DeleteOutcome` |
| `AutoRest.Selected` | object.go:66-76 | the combined flag selects every endpoint kind, each single flag selects its own kind and no other, and bits outside the five flags select nothing |
| `AutoRest.SelectedUnion` | object.go:66-76 | a union of flags selects exactly the kinds either part selects |
| `Properties.CreateThenRead` | object.go:92-98 | a create with an unset ID on a healthy store succeeds, and reading the ID the store handed out returns the blank record overlaid with the supplied fields |
| `Properties.FirstCreateGetsIdOne` | gorilla/endpoint_test.go:55-93 | on an empty store the first created record is read back under ID 1 with the supplied fields |
| `Properties.CreateWithTakenIdFails` | object.go:92-97 | a payload that names an existing ID is refused with 500, and the store is unchanged |
| `Properties.UpdateMergesPartial` | object.go:173-182 | a partial update sets the payload's fields, keeps every field it omits, keeps the ID, and changes no other row |
| `Properties.UpdateTwiceIsUpdateOnce` | object.go:173-182 | repeating the same partial update leaves the stored state as it was after the first |
| `Properties.UpdateIgnoresSaveFailure` | object.go:181-182 | when the save fails after a good fetch and decode, Update still answers 200, logs nothing, and the store is unchanged |
| `Properties.DeleteThenRead` | object.go:186-199 | after a successful delete, reading that ID gives 404 and no value; every other ID reads as before |
| `Properties.NotFoundConsistency` | object.go:105-112 | on a missing ID, Read, Update (whatever the payload) and Delete all give 404, no value, and an unchanged store |
| `Properties.ListUnpaged` | object.go:138-155 | page 0 and limit 0 return every row in store order, with Total equal to the number of rows listed |
| `Properties.ListZeroLimitReturnsAll` | object.go:138-144 | with limit 0 every page returns all rows from offset 0 |
| `Properties.ListLimitOnly` | object.go:142-144 | with no page and a positive limit, List returns the first `limit` rows, or all rows if there are fewer |
| `Properties.ListPaged` | object.go:138-155 | with a positive page and limit whose product fits, List skips page*limit rows and returns up to `limit` rows in order, while Total counts all rows |
| `Properties.ListSecondPage` | object.go:139-144 | page 1 with any positive limit k returns exactly the rows at positions k to 2k-1 (those that exist) |
| `Properties.PageOffsetWraps` | object.go:140 | page = limit = 2^32 wraps the 64-bit offset to 0 |
| `Scenario.TestShape` | gorilla/endpoint_test.go:148-152 | the test type has a String and an Int field besides its ID |
| `Scenario.EndToEnd` | gorilla/endpoint_test.go:43-146 | create, list, read, partial update, read, delete all give 200 and the last read gives 404; the list is `{0, 0, 1, [{1, "test", 5}]}`; the reads return `{1, "test", 5}` and then `{1, "test", 10}`; the only line logged is the store's not-found error |

## Left out

- Schema migration: `RegisterType` calls `AutoMigrate` and throws away the result (object.go:49). Schemas are not modelled, so `RegisteredType.constructor` only binds the shape and the store.
- GORM and SQLite: the query builder, SQL and driver behaviour are replaced by the abstract `Db`. Its choices for cases the engine does not decide are stated in `store.dfy`. A zero or negative offset skips nothing. A negative cap caps nothing. A missing ID in Delete reports not-found. Real GORM returns no error when a delete matches zero rows.
- Store failures are not nondeterministic in the model. Each store call takes an injected fault parameter instead, which is why the engine methods have the extra `fault` arguments.
- Reflection: the record type is a map from field names to their zero values (`shape`), and records are `Record(id, fields)` values.
- JSON decoding: `Decoder` is either malformed or a payload of field values plus an optional ID. The model does not drop unknown keys and does not reject type mismatches. Those are decoder internals.
- Logging: the engine logs error values rather than messages. The model records each as a `Failure` (decode failure, or the store error).
- The HTTP adapters (vanilla/endpoints.go, gorilla/endpoints.go): route mounting, `strconv` parsing of ids and paging parameters, and response encoding. IDs are `nat` rather than `uint64`, and Total is `nat` rather than `int64`. Neither is ever near its bound here.
- The race between count and find in List: without concurrent writers both calls read the same state, so the model runs them one after the other on one table.
