# metacpp SQL persistence core, modelled in Dafny

This project models two pieces of metacpp's SQL persistence layer.

The first is the generic binding `Storable<TObj>`. It pairs one reflected domain type with persistence operations. It includes:
- the per-type constant list of column constraints that `DEFINE_STORABLE` declares, read through `numConstraints` and `getConstraint`;
- the primary-key lookup `primaryKey`, which scans that list for the first primary-key constraint and caches the hit in the mutable field `m_pkey`;
- the static operations `createSchema`, both `fetchAll` overloads and `insertAll`.

The second is `SqlResultIterator`, the cursor over an executed select. Its state is the pair (result set, row id). Every row is fetched into one shared storable buffer.

Files:
- `wrappers.dfy`: `Option`, which stands for a nullable `const MetaFieldBase *`.
- `sql_storable.dfy` (module `SqlStorable`): constraints, the per-type `TypeBinding`, the accessors, the specification `FirstPrimaryKey` with its lemmas, and the class `Storable`. The class holds the record, its `pkey` cache and the `PrimaryKey` scan.
- `sql_driver.dfy` (module `SqlDriver`): an in-memory stand-in for the transaction and driver. `ExecSelect` returns the stored rows that match the where clause, in order. `FetchRow` writes the next row into the shared buffer. `ExecPrepare` and `ExecStep` are logged, and each step stores its object.
- `sql_result_iterator.dfy` (module `SqlResultIterator`): the class `ResultIterator`, the row-id transition `Advance`, and the row-id trace `RowIds`.
- `sql_storable_ops.dfy` (module `SqlStorableOps`): `CreateSchema`, `FetchAll`, `FetchAllWhere`, their shared loop `Drain`, and `InsertAll`.

Static members of `Storable<TObj>` read the per-type constants `ms_constraints` and `TObj::staticMetaObject()`. Here these constants are passed explicitly as a `TypeBinding`. Fields and meta objects are opaque numeric ids. Domain objects are values of a type parameter `Obj`.

## Model

| member | source | states |
|---|---|---|
| `SqlStorable.NumConstraints` | src/db/sql/SqlStorable.h:101-103 | the count is the length of the type's constraint list |
| `SqlStorable.GetConstraint` | src/db/sql/SqlStorable.h:96-98 | callers must keep the index below `numConstraints()` (the source does not check it); the result is an element of the list |
| `SqlStorable.AccessorsEnumerateList` | src/db/sql/SqlStorable.h:96-103 | reading positions 0 .. `numConstraints()`-1 with `getConstraint` gives back the declared list in declaration order |
| `SqlStorable.FirstPrimaryKeyAt` | src/db/sql/SqlStorable.h:89-91 | if position i is a primary key and no earlier one is, the lookup yields the field at i |
| `SqlStorable.FirstPrimaryKeyNone` | src/db/sql/SqlStorable.h:89-92 | the lookup yields null exactly when no constraint in the list is a primary key (both directions) |
| `SqlStorable.FirstPrimaryKeyIndex` | src/db/sql/SqlStorable.h:89-91 | a non-null lookup comes from some position that is a primary key with none before it |
| `SqlStorable.FirstPrimaryKeyIsFirst` | src/db/sql/SqlStorable.h:89-91 | a non-null result is the field of the first primary-key constraint, as read through `getConstraint`/`numConstraints` |
| `SqlStorable.Storable.constructor` | src/db/sql/SqlStorable.h:80 | the default constructor gives a default record and an empty cache |
| `SqlStorable.Storable.FromObject` | src/db/sql/SqlStorable.h:83 | constructing from an object copies it and leaves the cache empty |
| `SqlStorable.Storable.PrimaryKey` | src/db/sql/SqlStorable.h:87-93 | the result is always the first primary key in list order, or null. A filled cache is returned without scanning and stays the same. On a miss the hit is cached. A null result is not cached, so the next call scans the whole list again. Repeated calls therefore return the same value |
| `SqlResultIterator.ResultIterator.constructor` | src/sql/SqlResultIterator.cpp:10-13 | sets the result set and the row id |
| `SqlResultIterator.ResultIterator.Copy` | src/sql/SqlResultIterator.cpp:15-18 | the copy has both fields of the source and compares equal to it, both ways |
| `SqlResultIterator.ResultIterator.Assign` | src/sql/SqlResultIterator.cpp:24-28 | overwrites both fields with those of the right-hand side, which it then equals |
| `SqlResultIterator.ResultIterator.NotEquals` | src/sql/SqlResultIterator.cpp:35-38 | `!=` holds exactly when the result sets differ or the row ids differ, which is the negation of `==` |
| `SqlResultIterator.EqualsIsEquivalence` | src/sql/SqlResultIterator.cpp:30-33 | `==` is reflexive, symmetric and transitive. Iterators that differ in row id or in result set are never equal |
| `SqlResultIterator.ResultIterator.Deref` | src/sql/SqlResultIterator.cpp:40-48 | `operator*` and `operator->` return the result set's one shared storable, whatever the row id |
| `SqlResultIterator.DerefAliases` | src/sql/SqlResultIterator.cpp:40-48 | any two iterators over the same result set dereference to the same buffer |
| `SqlResultIterator.ResultIterator.FetchNext` | src/sql/SqlResultIterator.cpp:59-63 | asks the driver to fetch into the shared storable. On success the next row is in the buffer; on failure nothing changes |
| `SqlResultIterator.ResultIterator.Increment` | src/sql/SqlResultIterator.cpp:50-57 | after a successful fetch the row id goes up by exactly 1; after a failed fetch it becomes `ROW_ID_PAST_THE_END`. The result set and the dereferenced buffer do not change, and the buffer now holds the fetched row |
| `SqlResultIterator.RowIds` | src/sql/SqlResultIterator.cpp:50-57 | a sequence of advances visits one row id per fetch outcome, plus the starting one |
| `SqlResultIterator.DriveThroughRows` | src/sql/SqlResultIterator.cpp:50-63 | from row id k, n successful fetches followed by a failure give the row ids k .. k+n and then `ROW_ID_PAST_THE_END`. With k = 0 this is the full walk of a result set with n+1 rows |
| `SqlResultIterator.SuccessesStayActive` | src/sql/SqlResultIterator.cpp:52-53 | from a row index, successful fetches count up one by one and never reach the sentinel |
| `SqlStorableOps.CreateSchema` | src/db/sql/SqlStorable.h:106-109 | forwards the type's meta object and its constraint list unchanged, and nothing else |
| `SqlStorableOps.Drain` | src/db/sql/SqlStorable.h:115-122 | reserves the reported size only when it is not `numeric_limits<size_t>::max()`. Walking `begin()` to `end()` appends the shared buffer's contents once per row, so the result is exactly the cursor's rows in order |
| `SqlStorableOps.FetchAll` | src/db/sql/SqlStorable.h:111-123 | the result is every stored row, in cursor order, one element per row. A reserve happens only when the driver knows the count, and it does not change the result |
| `SqlStorableOps.FetchAllWhere` | src/db/sql/SqlStorable.h:125-139 | the result is the stored rows matching the where clause, in order, one element per row. Reserving works the same way |
| `SqlStorableOps.InsertAll` | src/db/sql/SqlStorable.h:141-151 | one prepare of a fresh insert statement, then one step per object in input order on that same statement; each object is stored |
| `SqlStorableOps.StepsOfCounts` | src/db/sql/SqlStorable.h:147-150 | the loop's calls are one step per object, no prepare, all on the batch's statement |
| `SqlStorableOps.InsertAllCalls` | src/db/sql/SqlStorable.h:144-150 | a whole `insertAll` makes exactly one prepare and exactly one step per object, all on one statement. An empty batch makes one prepare and no step |
| `SqlStorableOps.InsertAllThenFetchAll` | src/db/sql/SqlStorable.h:141-151 | with the in-memory driver, `fetchAll` after `insertAll` returns the earlier rows followed by the batch |
| `SqlDriver.FilterNoMatch` | src/db/sql/SqlStorable.h:130 | a where clause that matches no row gives an empty result, not an error |
| `SqlDriver.FilterKeepsMatching` | src/db/sql/SqlStorable.h:130 | a filtered select returns exactly the matching rows and never more rows than stored |
| `SqlDriver.FilterAppend` | src/db/sql/SqlStorable.h:130 | filtering the table after appending rows is the old filtered result followed by the filtered new rows |

## Left out

- `createSchemaSqlite`, `createSchemaPostgreSQL`, `createSchemaMySql`, `whereId`, `select`, `remove`, `update`, `insertOne`, `updateOne` and `removeOne` are only declared in SqlStorable.h, and their bodies are not part of this model. `CreateSchema` is modelled only as forwarding the list to the schema creator.
- The driver and transaction engine, `SqlResultSet` and `SqlStatementInsert` are not part of this model. They are replaced by the in-memory stand-in in `sql_driver.dfy`. The stand-in's driver never fails with an error. The real fetch conflates "no more rows" with "driver error", and both lead to `ROW_ID_PAST_THE_END`; the model has only the first cause. `FilterNoMatch`, `FilterKeepsMatching`, `FilterAppend` and `InsertAllThenFetchAll` hold for this stand-in, not for every driver.
- `SqlResultSet::begin()`, `end()` and `size()` are not part of this model. `Begin` primes the cursor with one fetch and starts at row 0, or past the end when there is no row. `End` is the sentinel iterator. The size is the row count, or `numeric_limits<size_t>::max()` when the driver cannot count.
- `ROW_ID_PAST_THE_END` is defined in a header that is not part of this model. It is modelled as -1, and the proofs use only that it is negative.
- The reflection system (`MetaObject`, `MetaFieldBase`, `Object`, `record()`): fields and types are opaque ids, objects are opaque values, and a constraint's field is never null.
- The template-specialisation mechanics of `DEFINE_STORABLE`: the list is an immutable per-type value.
- The race on the `mutable m_pkey` cache: the model is sequential.
- The missing `return *this` in `operator=` (undefined behaviour in C++): `Assign` simply copies the fields.
- `SqlResultIterator.ResultIterator.Increment`: does not model the 32-bit `int` overflow of `m_rowId++`. It is unreachable with fewer than 2^31 rows.
- Dereferencing past the end raises no error in the source: it returns the buffer. The model follows the code.
- `Array` capacity is not observable in the returned contents, so the reserved capacity is a ghost result of `FetchAll`, `FetchAllWhere` and `Drain`.
- The destructor `~SqlResultIterator` does nothing and is not modelled.
