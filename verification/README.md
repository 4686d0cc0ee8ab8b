# Row decoding of the SQL connector's read transaction

This project models the read operations of the SQL query connector's
transaction (`ReadOperations` on `SqlConnectorTransaction`). The model starts
where the database has answered: each operation receives the outcome of its
query, either the returned rows or the error the query layer reported. It
then turns those rows into connector records, as the connector does:

- `get_single_record` maps "no record found for the filter" to `None`.
- `get_many_records` maps every row to one record.
- `get_related_records` takes the parent id and the relation id off the end of
  every row.
- `get_scalar_list_values` decodes (record id, value) pairs. It then groups
  consecutive pairs with the same record id into one `ScalarListValues`.
- `count_by_model` casts the database's 64-bit signed count to `usize`.

Files:

- `wrappers.dfy` (module `Wrappers`): `Option`, `Result`, and `Collect`.
  `Collect` is Rust's collection of an iterator of results into one result.
  It stops at the first error.
- `prisma_models.dfy` (module `PrismaModels`): the values, record ids, rows,
  records and errors the read path handles.
- `scalar_lists.dfy` (module `ScalarLists`): the run grouping of scalar-list
  elements, and the loop that builds it.
- `read.dfy` (module `ReadOperations`): the five read operations.

Conversion of a row value into a record id (`GraphqlId::try_from`) is defined
outside the read path. It is therefore a parameter, `toId`, which may fail
with any connector error. All properties hold for every such conversion.

## Model

| member | source | states |
|---|---|---|
| `ReadOperations.GetSingleRecord` | query-engine/connectors/sql-query-connector/src/database/transaction/read.rs:20-38 | The answer is `Ok(None)` exactly when the lookup failed with "record not found for where". It is an error exactly when the lookup failed otherwise, and then it is that same error. A found row gives `Some` record holding the row's values, with no parent id, labelled with the selected fields' names. |
| `ReadOperations.RecordsFromRows` | query-engine/connectors/sql-query-connector/src/database/transaction/read.rs:50-55 | One record per row, in row order. Each record holds its row's values and has no parent id. |
| `ReadOperations.GetManyRecords` | query-engine/connectors/sql-query-connector/src/database/transaction/read.rs:40-58 | A query error is passed on unchanged. Otherwise there is exactly one record per returned row, in row order, carrying that row's values. The field names are the selected fields' names. |
| `ReadOperations.SingleAgreesWithMany` | query-engine/connectors/sql-query-connector/src/database/transaction/read.rs:34 | A single-record read and a many-record read decode the same row into the same record. |
| `ReadOperations.Pop` | query-engine/connectors/sql-query-connector/src/database/transaction/read.rs:86-90 | Popping an empty vector gives nothing and leaves it empty. Otherwise it gives the last value, and the remaining values followed by that value are the original vector. |
| `ReadOperations.RelatedRecord` | query-engine/connectors/sql-query-connector/src/database/transaction/read.rs:85-96 | A row with no values fails with `ColumnDoesNotExist`. Otherwise the result succeeds exactly when the last value converts to an id; on failure it carries the conversion's error. The parent id is the converted last value. The record's values are a prefix of the row, two values shorter, or empty for a one-value row. |
| `ReadOperations.DecodeRelatedRow` | query-engine/connectors/sql-query-connector/src/database/transaction/read.rs:85-96 | Popping the parent id (failing on an empty row), then popping and discarding the relation id, gives exactly `RelatedRecord`. |
| `ReadOperations.GetRelatedRecords` | query-engine/connectors/sql-query-connector/src/database/transaction/read.rs:60-103 | The loop over the rows computes exactly the specification `RelatedRecords`: the query error, or the first failing row's error, or all decoded records with the selected names. |
| `ReadOperations.RelatedRecordsShape` | query-engine/connectors/sql-query-connector/src/database/transaction/read.rs:81-102 | A related-records read succeeds exactly when every row is non-empty and its last value converts. On success there is one record per row, in row order, with parent id = converted last value and values = row minus its last two values. On failure the error is that of the first failing row, and no partial result is returned. |
| `Wrappers.Collect` | query-engine/connectors/sql-query-connector/src/database/transaction/read.rs:116-129 | Collecting results succeeds exactly when every element succeeds, and then keeps every value in order. Otherwise its error is that of an element before which all elements succeeded. |
| `Wrappers.CollectFirstFailure` | query-engine/connectors/sql-query-connector/src/database/transaction/read.rs:97-100 | The collected error is the error of the first failing element. |
| `ReadOperations.DecodeScalarListRow` | query-engine/connectors/sql-query-connector/src/database/transaction/read.rs:118-128 | A row with fewer than two values fails with `ColumnDoesNotExist`, before any id conversion. Otherwise it succeeds exactly when the first value converts to an id; on failure it carries the conversion's error. The element is (converted first value, second value), and further values are ignored. |
| `ReadOperations.ScalarListRowsDecode` | query-engine/connectors/sql-query-connector/src/database/transaction/read.rs:116-129 | All rows decode exactly when every row has at least two values and a convertible first value. The elements are then one per row, in row order, taken from each row's first two values. |
| `ScalarLists.GroupByRecordId` | query-engine/connectors/sql-query-connector/src/database/transaction/read.rs:131-141 | The pushed groups are the run grouping of the elements. Expanding them gives back exactly the elements, in order, so every element of a group has the group's id. No group is empty, and adjacent groups have different ids. The groups' values concatenated are the elements' values, and there are never more groups than elements. |
| `ScalarLists.RunGroupingUnique` | query-engine/connectors/sql-query-connector/src/database/transaction/read.rs:133-139 | Every element sequence has only one run grouping, so the result of grouping is fully determined by the properties above. |
| `ScalarLists.RunGroupingValues` | query-engine/connectors/sql-query-connector/src/database/transaction/read.rs:133-139 | Grouping loses, duplicates and reorders no value. |
| `ScalarLists.ValuesOfExpand` | query-engine/connectors/sql-query-connector/src/database/transaction/read.rs:136 | The groups' values concatenated equal the values of the elements the groups stand for. |
| `ScalarLists.RunGroupingCount` | query-engine/connectors/sql-query-connector/src/database/transaction/read.rs:131-141 | There are never more groups than elements. There are no groups exactly when there are no elements. |
| `ScalarLists.ReappearingIdStartsNewGroup` | query-engine/connectors/sql-query-connector/src/database/transaction/read.rs:133 | Grouping is by consecutive runs and not by id: `[a:u, a:v, b:w, a:x]` groups as `[a:[u,v], b:[w], a:[x]]`. |
| `ReadOperations.GetScalarListValues` | query-engine/connectors/sql-query-connector/src/database/transaction/read.rs:105-142 | A query error, or the first row's decoding error, is passed on and no groups are returned. Otherwise the result is the run grouping of the decoded elements, with their values in row order. |
| `ReadOperations.AsUsize` | query-engine/connectors/sql-query-connector/src/database/transaction/read.rs:150 | `i64 as usize` gives a value below 2^64 that is congruent to the input modulo 2^64. |
| `ReadOperations.AsI64` | query-engine/connectors/sql-query-connector/src/database/transaction/read.rs:150 | The reverse cast gives a value in `i64` range that is congruent modulo 2^64. |
| `ReadOperations.UsizeCastRoundTrip` | query-engine/connectors/sql-query-connector/src/database/transaction/read.rs:150 | The cast is undone by the reverse cast. It leaves a count unchanged exactly when the count is not negative. |
| `ReadOperations.CountByModel` | query-engine/connectors/sql-query-connector/src/database/transaction/read.rs:144-153 | A query error is passed on unchanged. Otherwise the count is the `usize` reinterpretation of the database's `i64`, equal to it whenever it is not negative. |

## Left out

- Query construction (`ReadQueryBuilder`, the related-records query builders with and without pagination) is not part of this model. Neither are the database calls `find`, `filter` and `find_int`, which are I/O. Their outcomes are the operations' inputs.
- The type identifiers passed to the database driver to decode column types belong to the driver, which is not part of this model.
- `GraphqlId::try_from` is a parameter. Which values convert into which ids is not modelled.
- The query layer's error enum and the connector's error enum, with the conversion between them, are folded into one `ConnectorError` type. A passed-on error is therefore the same value and not its converted form.
- `Record::from` and `add_parent_id` are defined outside this code and are not part of this model. They are taken as "the row's values, no parent" and "set the parent id".
- `ReadOperations.AsUsize` assumes a 64-bit target, where `usize` has 64 bits.
- The lazy, streaming behaviour of the iterators is not modelled. Only the results are, and the read path's closures are pure apart from the rows they consume.
- The cached connector only forwards its reads and writes to the SQL connector. Its caching exists only as comments, so it has no behaviour to model.
- The migration engine is not part of this model. That covers its schema differ, step applier, destructive-change checker, plan execution and migration history. Their sources are not among the files covered. Its connector's connection setup and database dropping are I/O.
- The query engine's and `vb-query`'s foreign-function "hello" entry points are unsafe pointer stubs with no logic.
- The integration tests against live databases exercise the migration engine and introspection. Their subject code is not part of this model.
