# incresql in Dafny

incresql is a small SQL engine. Every row carries an integer frequency, a delete is an insert with a
negated frequency, and every key is a byte string compared lexicographically. This project models the
five parts of the engine where that is hard to get right, and proves what each of them is for.

* **Sortable keys** (`Bags`, `Bytes`, `Varint`, `ByteChunks`, `Decimals`, `Datums`): the encodings of integers,
  byte strings, decimals and whole tuples. Comparing codes is comparing values, in both directions;
  codes are prefix-free; decoding undoes encoding.
* **MVCC storage** (`TableKeys`, `Mvcc`, `DeltaLog`, `IndexScan`, `RangeScan`, `TableScan`) **and the
  catalog** (`Catalog`, `SystemTables`): a header record and a descending history for each row, against the
  plain log of deltas they stand for; the lifecycle of databases, tables and views, and the stored logs of the
  system tables that hold them.
* **Executors** (`HashJoin`, `HashGroup`, `AggregateState`, `Counting`, `SortExec`, `Limit`, `Insert`, `Delete`):
  `advance`/`get` state machines, each proved over whole runs against a list or bag definition; what aggregates
  do with frequencies.
* **The planner** (`Exprs`, `Plans`, `PlanAlgebra`, `PlanLaws`, `FunctionCompile`, `Overloads`, `FoldConstants`, `Pushdown`,
  `CollapseProjects`, `NormalizeJoins`, `NormalizePlans`, `Physical`, `Lowering`, `TidyPlans`, `Planner`): function
  compilation, the rewrites and the lowering to executors. A plan means the *list* of rows it produces, with
  their frequencies, in every environment of tables, files, scalar and aggregate functions and orders in which
  each hash map of groups may be drained; only `and` and `=` are interpreted. `HashGroup.RunGroup` shows that
  every run of the group executor is a run in one of these environments. A lowered sort means exactly the
  sorted rows, while `SortExec.RunSort` serves them equal as SQL values: a decimal may come back in another
  scale. Each pass is a function of the plan (`FoldOp`, `Pushed`, `Merged`, `Normal`, `LowerTo`), which its
  in-place method computes and about which its lemmas are. `Planner.PlanRuns` puts them together, and
  `Planner.TidyPlanRuns` and `Planner.EquiPlanRuns` put the conditions on the query alone.
* **The JSON tape** (`Json`, `JsonBuilder`): containers whose headers are widened in place, and the readers.

Where the code does not do what it is evidently meant to, the model follows the code, gives a concrete
input on which it goes wrong, and proves for all inputs of the family named when it goes right, in both
directions:

* A filter above another, through any projects, sorts, negations and unions, is lost by predicate pushdown
  (`Pushdown.UpperFilterLost` on a subquery, `Pushdown.NestedFilters`).
* Residual join conjuncts keep their column numbers when keys are inserted in front
  (`NormalizeJoins.NormalFormRun` says what is computed, `NormalizePlans.ResidualMisread` gives the input,
  `NormalizePlans.NormalExact` says when it is the join).
* Lowering counts every column = column conjunct as a hash key (`Lowering.KeyMiscounted`, `Physical.HashExact`,
  `Physical.ColumnKeysExact`).
* An offset that ends inside a row's frequency emits the rest of the copies free of charge
  (`Limit.LimitOvershoots`, `Limit.LimitExact`).
* A scan of the past whose upper bound is a whole primary key does not see that key's older history
  (`TableScan.PastKeyMissed`, `TableScan.FullKeyScanExact`).
* Decimals with a mantissa of 29 digits are written with a scale that does not go with their digits, unless
  they end in zero (`Decimals.WideMisordered`, `Decimals.WideExact`, and `Decimals.WideWhole` without decimals).
* The size of tag 0x13 is one too large, and twelve-byte mantissas hold 95 bits (`JsonBuilder.MiscountedLost`,
  `JsonBuilder.WideMantissaLost`, `Json.RoundTrip`).
* The end of the key range of the last possible table id wraps to zero (`Catalog.DropComplete`).

`dafny verify dfyconfig.toml` checks everything.

## Model

| member | source | states |
|---|---|---|
| `Varint.UnsignedRoundTrip` | src/data/src/encoding_core.rs:265-347 | reading a written `u64` followed by any bytes returns it and exactly those bytes, in both orders |
| `Varint.UnsignedOrder` | src/data/src/encoding_core.rs:265-298 | comparing two codes followed by any bytes is comparing the numbers (reversed for Desc), and the bytes that follow only on a tie: prefix-free, injective and order preserving at once |
| `Varint.SignedRoundTrip` | src/data/src/encoding_core.rs:350-458 | the same round trip for every `i64`, `i64::MIN` under Desc included |
| `Varint.SignedOrder` | src/data/src/encoding_core.rs:350-407 | the same order law for `i64` |
| `Varint.MinAboveAll` | src/data/src/encoding_core.rs:350-362 | the special code of `i64::MIN` under Desc sorts after every other descending code |
| `ByteChunks.WriteSortableBytes` | src/data/src/encoding_core.rs:461-499 | the chunking loop appends exactly the blocks of the string to the buffer |
| `ByteChunks.WriteLastChunk` | src/data/src/encoding_core.rs:478-499 | the last block is padded and closed by its length |
| `ByteChunks.ReadSortableBytes` | src/data/src/encoding_core.rs:502-539 | the reading loop returns what the specification reads, and the unread bytes |
| `ByteChunks.BytesRoundTrip` | src/data/src/encoding_core.rs:461-539 | any byte string, embedded 0x00 and 0xFF included, followed by any bytes is read back with exactly those bytes left |
| `ByteChunks.BytesOrder` | src/data/src/encoding_core.rs:461-499 | comparing codes is comparing strings lexicographically, reversed for Desc |
| `Decimals.Normalize` | src/data/src/encoding_core.rs:107-135 | the four scaling loops end with the mantissa in [10^27, 10^28), a scale of at most 55 and the same magnitude |
| `Decimals.WriteSortableDecimal` | src/data/src/encoding_core.rs:89-172 | the writer produces the specified code |
| `Decimals.WordsOrder` | src/data/src/encoding_core.rs:140-171 | the three words of a mantissa, the last two optional, compare as the mantissa |
| `Decimals.DecimalOrder` | src/data/src/encoding_core.rs:89-172 | byte order is numeric order, reversed for Desc, and codes are equal exactly when the numbers are, whatever their scales |
| `Decimals.DecimalRoundTrip` | src/data/src/encoding_core.rs:174-261 | reading a code followed by any bytes gives a decimal of equal value, valid again, and exactly those bytes |
| `Decimals.TenthOfWide` | src/data/src/encoding_core.rs:130-135 | an exact tenth of a 29-digit mantissa, in 96 bits, is the mantissa itself with one more decimal place unless the mantissa ends in zero; only without that place does the lowered scale keep the magnitude |
| `Decimals.WideExact` | src/data/src/encoding_core.rs:130-171 | with decimal places, a 29-digit mantissa ending in zero is written as the equal decimal of 28 digits, and any other as no decimal of 28 digits is |
| `Decimals.WideMisordered` | src/data/src/encoding_core.rs:130-171 | two decimals whose codes sort the wrong way round |
| `Decimals.WideWhole` | src/data/src/encoding_core.rs:130-171 | without decimal places the scale byte underflows; wrapped, the code is in order with those of all decimals of 28 digits |
| `Datums.CanonValue` | src/data/src/datum.rs:108-130 | two decimals have the same canonical form exactly when they are the same number |
| `Datums.CodeCmpIsCmp` | src/data/src/datum.rs:132-190 | for values of one type or null, the order of codes is `Datum::cmp` |
| `Datums.DatumOrder` | src/data/src/encoding_datum.rs:8-79 | comparing two datums' codes followed by any bytes is comparing the datums, then the bytes |
| `Datums.DatumRoundTrip` | src/data/src/encoding_datum.rs:81-145 | a datum's code followed by any bytes reads back as an equal datum, identical unless a decimal, leaving those bytes |
| `Datums.TupleOrder` | src/data/src/encoding_datum.rs:8-79 | concatenated codes compare column by column, each column in its own direction |
| `Datums.TupleReversed` | src/data/src/encoding_datum.rs:8-79 | turning every direction round turns the order round, and nulls come first in an ascending column |
| `Datums.CmpIsEqual` | src/data/src/datum.rs:108-190 | values of one type are equal under `sql_eq` exactly when they compare equal |
| `Datums.TupleCanonical` | src/data/src/encoding_datum.rs:8-79 | codes of two tuples are equal exactly when the tuples are equal under null-safe equality |
| `Datums.TupleRoundTrip` | src/data/src/encoding_datum.rs:81-145 | a tuple of any length and mix of orders decodes uniquely, leaving what follows |
| `TableKeys.BaseOrder` | src/storage/src/table.rs:379-404 | row identities are prefix-free: they decide a comparison unless they are equal |
| `TableKeys.SameRow` | src/storage/src/table.rs:379-404 | two tuples share an identity exactly when their primary keys are equal SQL values |
| `TableKeys.PrefixInTable` | src/storage/src/table.rs:142-171 | every key of a table lies in its id range |
| `TableKeys.TablesDisjoint` | src/storage/src/table.rs:142-171 | the ranges of different tables are disjoint |
| `TableKeys.DecodeHeader` | src/storage/src/table.rs:214-266 | a header record decodes to its timestamp, frequency and tuple |
| `TableKeys.DecodeHistory` | src/storage/src/table.rs:214-266 | so does a history record, whose inverted timestamp is never taken for a header |
| `Mvcc.Store.WriteTuple` | src/storage/src/table.rs:309-347 | a write adds its delta to the row's versions, moves the old header into the history unless its timestamp is the same, and touches no other record |
| `Mvcc.WriteRestores` | src/storage/src/table.rs:309-347 | the records after the puts are exactly the records of the new versions; keys outside the table are unchanged |
| `Mvcc.HeaderReads` | src/storage/src/table.rs:321-328 | the frequency and timestamp a write reads from the header are those of the newest version |
| `DeltaLog.FoldAsOf` | src/storage/src/table.rs:309-347 | the versions kept for a row show, at any time, the sum of the deltas before it and the last tuple written before it |
| `DeltaLog.VersionsAreFolds` | src/storage/src/table.rs:309-347 | after any log the versions of each row are the fold of that row's writes |
| `DeltaLog.ValidNext` | src/storage/src/table.rs:309-347 | every write of a valid log finds the store in a state it can extend |
| `DeltaLog.Replay` | src/storage/src/table.rs:309-347 | running the writes of any valid log leaves the store holding exactly that log |
| `IndexScan.IndexIter.Advance` | src/storage/src/table.rs:202-276 | the iterator emits the next row of the scan, skipping history, future versions and zero frequencies |
| `IndexScan.Drain` | src/storage/src/table.rs:202-289 | a whole run emits exactly the scan of the records |
| `IndexScan.ScanGroup` | src/storage/src/table.rs:202-276 | of a row's records a scan shows the newest before its time, once, if its frequency is not zero |
| `RangeScan.LayoutAscending` | src/storage/src/table.rs:331-333 | headers and descending histories of ascending rows are in ascending key order |
| `RangeScan.KeysInOrder` | src/storage/src/table.rs:142-171 | the records of a range, in key order, are the rows' records one row after the other |
| `RangeScan.ScanLayout` | src/storage/src/table.rs:202-276 | scanning them shows each row as of the time |
| `TableScan.LowerBound` | src/storage/src/table.rs:386-404 | a record is at or after the lower range key exactly when its key prefix is not below the bound |
| `TableScan.UpperBound` | src/storage/src/table.rs:386-404 | a record is before the upper range key exactly when its key prefix is not above the bound, history of a whole key apart |
| `TableScan.RangeScanRows` | src/storage/src/table.rs:130-171 | a scan returns, once each and in key order, exactly the rows in bounds whose deltas before the time do not cancel, with their sum and the rest columns of the last write; always at the end of time, and before it unless the upper bound is a whole key |
| `TableScan.SeenAfter` | src/storage/src/table.rs:243-246 | a row is not seen at the time of its first write, and is from just after it on |
| `TableScan.SeenBetween` | src/storage/src/table.rs:243-246 | a second write shows from just after it on, with the sum of both, and until then changes nothing |
| `TableScan.FullKeyScanExact` | src/storage/src/table.rs:386-404 | a past scan ending on a whole key is exact if and only if the row with that key, if any, was last written before the time, or was written before it but not before 2^56, or cancels out |
| `TableScan.RowsExact` | src/storage/src/table.rs:386-404 | otherwise it shows strictly fewer rows |
| `TableScan.PastKeyMissed` | src/storage/src/table.rs:386-404 | a row written at 5 and 10 that a scan at 7 ending on its key does not return |
| `TableScan.LookupMeansLog` | src/storage/src/table.rs:101-126 | a point lookup returns the sum of the row's deltas and its last tuple, absence reading as zero |
| `Catalog.Catalog.constructor` | src/catalog/src/bootstrap.rs:6-68 | first boot leaves a consistent catalog with three databases, and the three system tables under ids 0, 2 and 4 with their columns and key layouts |
| `Catalog.Catalog.CreateDatabase` | src/catalog/src/lib.rs:140-143 | fails exactly on an existing name, otherwise adds exactly that database |
| `Catalog.Catalog.DropDatabase` | src/catalog/src/lib.rs:146-159 | fails exactly on a missing or a non-empty database, otherwise removes exactly that one |
| `Catalog.Catalog.CreateTable` | src/catalog/src/lib.rs:162-174 | fails on a missing database, a taken name or when no even id from the hash on is free, without changing anything; otherwise adds one table row and one metadata row under a fresh even id, with every column in the ascending key |
| `Catalog.Catalog.CreateView` | src/catalog/src/lib.rs:177-195 | the same for views, without metadata |
| `Catalog.Catalog.DropTable` | src/catalog/src/lib.rs:198-205 | removes exactly the named table or view, its metadata and its key range, or fails and changes nothing |
| `Catalog.Catalog.GenerateTableId` | src/catalog/src/lib.rs:307-328 | the probe returns the first even id from the hash on that is not live, and fails only when all of those are taken |
| `Catalog.Catalog.Item` | src/catalog/src/lib.rs:75-137 | a lookup returns the live row, with the metadata row of as many columns for a table |
| `Catalog.AddTable` | src/catalog/src/lib.rs:331-378 | tables and metadata rows stay in one-to-one correspondence under even ids, and every table lies in a live database |
| `Catalog.RemoveTable` | src/catalog/src/lib.rs:418-469 | so they do when a table goes |
| `Catalog.Serve` | src/catalog/src/lib.rs:140-205 | after any sequence of requests that drops no system table the catalog is consistent |
| `Catalog.CreateThenDrop` | src/catalog/src/lib.rs:162-205 | dropping a table just created restores the catalog |
| `Catalog.DropRange` | src/catalog/src/lib.rs:447-452 | the deleted range covers the two sections of the table and nothing else |
| `Catalog.DropKeepsOthers` | src/catalog/src/lib.rs:447-452 | no record of another table is deleted |
| `Catalog.DropComplete` | src/catalog/src/lib.rs:447-452 | every record of the table is deleted, in every store, if and only if the end of its range does not wrap |
| `SystemTables.WriteStep` | src/catalog/src/lib.rs:331-378 | writing a delta for a key to a system table's log is the step its map takes |
| `SystemTables.ScanShowsLive` | src/catalog/src/lib.rs:221-306 | a scan between any bounds returns the rows of the live keys within them, with their sums, and no others |
| `SystemTables.PrefixBounds` | src/catalog/src/lib.rs:221-232 | a scan from a key prefix to itself is over exactly the rows whose key starts with it |
| `SystemTables.LookupShowsKey` | src/catalog/src/lib.rs:75-137 | a point lookup in the store finds a key's sum, and nothing exactly when it was never written |
| `SystemTables.DropKeepsLog` | src/catalog/src/lib.rs:447-452 | after the range delete of a table the store still holds the log of every other table, the system tables included |
| `SystemTables.DatabasesKeyed` | src/catalog/src/bootstrap.rs:6-68 | two names of databases share a row of their system table exactly when they are equal |
| `SystemTables.TablesKeyed` | src/catalog/src/bootstrap.rs:6-68 | so do tables and views exactly when database and name are equal, whatever the other columns |
| `SystemTables.PrefixesKeyed` | src/catalog/src/bootstrap.rs:6-68 | and key layouts exactly when the table ids are |
| `SystemTables.BootLayouts` | src/catalog/src/bootstrap.rs:22-65 | the key layouts that the boot leaves are those of the three system tables, of as many columns as it lists |
| `SystemTables.CreatedKey` | src/catalog/src/lib.rs:162-174 | in a table a user created two rows are one exactly when they are equal in every column |
| `SystemTables.CreatedApart` | src/catalog/src/lib.rs:75-174 | so it is in the layout that looking the new table up returns |
| `HashJoin.BuildTable` | src/executor/src/point_in_time/hash_join.rs:90-112 | every bucket holds the right rows of its key in arrival order; rows with a null key are in none |
| `HashJoin.BucketMatches` | src/executor/src/point_in_time/hash_join.rs:116-145 | walking a left row's bucket yields exactly its nested-loop matches |
| `HashJoin.HashJoinExecutor.Advance` | src/executor/src/point_in_time/hash_join.rs:70-169 | each call emits the next row of the nested-loop join |
| `HashJoin.Run` | src/executor/src/point_in_time/hash_join.rs:70-177 | over a whole run exactly the nested-loop join: left order, right arrival order, product frequencies, one null-padded row for an outer left row without a match |
| `HashJoin.JoinedIsConcat` | src/executor/src/point_in_time/hash_join.rs:119-136 | the joined tuple equals left followed by right as SQL values |
| `AggregateState.Reset` | src/executor/src/aggregate_expression.rs:55-72 | writes the initial states into the expression's slice and nothing outside it |
| `AggregateState.ResetAll` | src/executor/src/aggregate_expression.rs:232-238 | the same with running offsets for a row of expressions |
| `AggregateState.ApplyRow` | src/executor/src/aggregate_expression.rs:75-115 | turns the slice after some rows into the slice after one more, and touches nothing else |
| `AggregateState.ApplyAll` | src/executor/src/aggregate_expression.rs:240-246 | the same with running offsets |
| `AggregateState.Finalize` | src/executor/src/aggregate_expression.rs:118-150 | the flat state finalizes to the value of the tree with private state for every leaf |
| `AggregateState.FinalizeAll` | src/executor/src/aggregate_expression.rs:248-260 | the same for a row of expressions |
| `AggregateState.FlatLen` | src/executor/src/aggregate_expression.rs:42-51 | the state length is the length of the leaves' states laid end to end |
| `AggregateState.AggregateRows` | src/executor/src/point_in_time/sorted_group.rs:69-81 | reset, any list of applies and finalize compute the aggregation of that list |
| `AggregateState.SizedSome` | src/executor/src/aggregate_expression.rs:42-51 | there are aggregate functions that keep to the state size they ask for |
| `Counting.CountState` | src/functions/src/aggregate/misc/count.rs:8-24 | the state of a count after any rows is the sum of the frequencies of those whose argument, if any, is not null |
| `Counting.CountAll` | src/functions/src/aggregate/misc/count.rs:8-24 | count(*) over any rows is the number of tuples they stand for |
| `Counting.GroupSplit` | src/executor/src/aggregate_expression.rs:75-115 | for functions additive in the frequency, a row of frequency f + g aggregates like one of f followed by one of g |
| `Counting.CountRows` | src/executor/src/point_in_time/sorted_group.rs:69-81 | a count without keys, run on the flat state, is that number |
| `Counting.CountByKey` | src/executor/src/point_in_time/hash_group.rs:53-102 | a count by key, in whatever order the map is drained, gives every key its copies, and all keys together all copies |
| `Exprs.FirstIsEarliest` | src/executor/src/aggregate_expression.rs:107-112 | a bare column of a group is its value in the earliest row that has one, and null if none has |
| `HashGroup.BytesPattern` | src/executor/src/point_in_time/hash_group.rs:56-60 | encoded keys are equal exactly when the keys are under null-safe equality |
| `HashGroup.BuildGroups` | src/executor/src/point_in_time/hash_group.rs:54-72 | after ingesting, the map holds one flat state for each key, that of the key's rows |
| `HashGroup.HashGroupExecutor.Advance` | src/executor/src/point_in_time/hash_group.rs:53-94 | each call finalizes the next key of the drained map |
| `HashGroup.RunGroup` | src/executor/src/point_in_time/hash_group.rs:53-102 | over a whole run the rows of the logical grouping under some order of draining, so one row for each distinct key, each the aggregation of its group |
| `HashGroup.DrainOfRun` | src/executor/src/point_in_time/hash_group.rs:74-79 | whatever order the encoded keys are drained in is an order of the distinct keys |
| `HashGroup.AnyOrder` | src/executor/src/point_in_time/hash_group.rs:74-77 | every order of draining gives the same bag |
| `SortExec.Ingest` | src/executor/src/point_in_time/sort.rs:112-137 | each recorded pair of positions delimits its row's keys, tuple and frequency in the buffer |
| `SortExec.SortPairs` | src/executor/src/point_in_time/sort.rs:139-146 | the pairs are rearranged so that what they delimit is sorted |
| `SortExec.DecodeEncoded` | src/executor/src/point_in_time/sort.rs:76-86 | skipping the keys reads back an equal row with its frequency |
| `SortExec.SortExecutor.Advance` | src/executor/src/point_in_time/sort.rs:70-95 | each call serves the next row of the sorted list, and ends when there is none |
| `SortExec.RunSort` | src/executor/src/point_in_time/sort.rs:70-149 | a whole run serves a permutation of the input, sorted, equal up to the representation of decimals |
| `SortExec.EncodesSome` | src/executor/src/point_in_time/sort.rs:112-137 | every environment can be given the executor's bytes to sort by |
| `SortExec.SortedByKeys` | src/executor/src/point_in_time/sort.rs:119-146 | the order is that of the sort expressions, column by column and in their directions |
| `SortExec.SortDeterministic` | src/executor/src/point_in_time/sort.rs:122-146 | the output depends only on the bag of encoded rows |
| `Limit.LimitExecutor.Advance` | src/executor/src/point_in_time/limit.rs:26-49 | each call emits the next row of what the loops specify |
| `Limit.LimitExact` | src/executor/src/point_in_time/limit.rs:26-59 | over rows of positive frequency the run is "drop the offset, take the limit" if and only if the offset ends on a row boundary or the limit does not bind |
| `Limit.LimitOvershoots` | src/executor/src/point_in_time/limit.rs:30-33 | a concrete run that emits more copies than its limit |
| `Limit.TakeTotal` | src/executor/src/point_in_time/limit.rs:40-48 | taking n copies takes min(n, all) of them |
| `Insert.PeekableIter.Next` | src/data/src/tuple_iter.rs:58-78 | returns and consumes the next row, without advancing an exhausted source again |
| `Insert.PeekableIter.Peek` | src/data/src/tuple_iter.rs:80-90 | returns the next row and consumes nothing |
| `Insert.PeekableIter.LockIn` | src/data/src/tuple_iter.rs:92-94 | consumes the peeked row |
| `Insert.InsertChunk` | src/executor/src/point_in_time/table_insert.rs:31-42 | one batch writes between one and 10000 of the next rows, in order |
| `Insert.InsertAll` | src/executor/src/point_in_time/table_insert.rs:25-46 | every row of the source is written exactly once, in order, across batches; the log grows by exactly those writes |
| `Delete.DeleteEffect` | src/parser/src/delete.rs:24-60 | the rows a DELETE inserts take from each row the copies it is entitled to and from no other row |
| `Delete.DeleteTotal` | src/parser/src/delete.rs:24-60 | in all min(n, matching total) copies |
| `Delete.TakenBounds` | src/executor/src/point_in_time/limit.rs:26-59 | a row loses between none and all of its copies, and none if it does not match |
| `Delete.DeleteValid` | src/parser/src/delete.rs:24-60 | the negated rows extend the log to a valid one: each row is written at most once, and its sum stays between zero and what it was |
| `Delete.RunDelete` | src/parser/src/delete.rs:24-60 | run against the store: it scans a snapshot, every row loses exactly the copies taken from it, rows outside the snapshot keep their frequency, and of rows of positive frequency min(n, matching copies) are gone in all |
| `Exprs.ConjunctsMeaning` | src/planner/src/utils/expr.rs:71-92 | a predicate passes exactly when all of its conjuncts do |
| `Exprs.CombineMeaning` | src/planner/src/utils/expr.rs:95-118 | combined predicates pass exactly when each does; nothing combines to true |
| `Exprs.CombineRoundTrip` | src/planner/src/utils/expr.rs:71-118 | splitting undoes combining |
| `Exprs.MinMaxExact` | src/planner/src/utils/expr.rs:139-157 | the two bounds tell exactly which column ranges contain everything an expression reads |
| `Exprs.EvalMoved` | src/planner/src/utils/expr.rs:36-43 | an expression moved along with its columns keeps its value |
| `Exprs.EvalInline` | src/planner/src/utils/expr.rs:123-134 | the substitution lemma: inlining a project's expressions is evaluating over its output |
| `Exprs.AndValue` | src/functions/src/scalar/bool/and.rs:8-21 | `and` is null exactly when a side is no boolean, and false exactly when both are and one is |
| `Exprs.AndAssociates` | src/functions/src/scalar/bool/and.rs:8-21 | it is associative |
| `Exprs.AndCommutes` | src/functions/src/scalar/bool/and.rs:8-21 | and commutative |
| `Exprs.EqualsValue` | src/functions/src/scalar/bool/eq.rs:8-21 | `=` is null exactly when a side is, and else true or false as the values compare equal or not |
| `Plans.RunWidth` | src/planner/src/utils/logical.rs:62-101 | every row of a plan has the plan's columns |
| `Plans.JoinTypes` | src/planner/src/utils/logical.rs:54-56 | a column of a join has the name and type of the column of its side |
| `PlanLaws.FilterBag` | src/executor/src/point_in_time/filter.rs:26-37 | a filter keeps every occurrence of the rows that pass, and no other |
| `PlanLaws.CopiesOfPlan` | src/planner/src/p4_pit_planning/mod.rs:30-198 | projecting and sorting keep the number of copies, negating negates it, a union adds up and a cross join multiplies |
| `PlanLaws.OuterBag` | src/executor/src/point_in_time/hash_join.rs:116-166 | a left outer join is the inner join and, with nulls and their own frequency, the left rows without a match |
| `PlanLaws.JoinOrder` | src/executor/src/point_in_time/hash_join.rs:70-169 | the left rows of a join come in their order |
| `PlanLaws.MatchOrder` | src/executor/src/point_in_time/hash_join.rs:70-169 | and what each matches in the order of the right |
| `PlanLaws.ConcatOrder` | src/executor/src/point_in_time/union_all.rs:27-45 | a union serves its branches in order |
| `PlanLaws.LimitOfPlan` | src/executor/src/point_in_time/limit.rs:26-59 | with an offset between two tuples, OFFSET and LIMIT give the copies after the offset, as many as there are up to the limit |
| `PlanLaws.GroupOfPlan` | src/executor/src/point_in_time/hash_group.rs:53-102 | grouping gives one row, counted once, for each distinct key, or one in all without keys |
| `PlanAlgebra.KeepProject` | src/planner/src/p2_optimization/predicate_pushdown.rs:50-63 | filtering a project is projecting the filtered source, with inlined predicates |
| `PlanAlgebra.KeepSort` | src/planner/src/p2_optimization/predicate_pushdown.rs:43-45 | filtering commutes with sorting |
| `PlanAlgebra.KeepUnion` | src/planner/src/p2_optimization/predicate_pushdown.rs:65-71 | filtering a union is filtering its branches |
| `PlanAlgebra.KeepNegated` | src/planner/src/p2_optimization/predicate_pushdown.rs:46-48 | filtering commutes with negating frequencies |
| `PlanAlgebra.JoinInner` | src/planner/src/p2_optimization/predicate_pushdown.rs:98-113 | an inner join filtered by predicates that split equals the join of its filtered sides under what is kept |
| `PlanAlgebra.JoinOuter` | src/planner/src/p2_optimization/predicate_pushdown.rs:114-139 | the same for a left outer join, padded rows included, with the rest wrapped around it |
| `Pushdown.Split` | src/planner/src/p2_optimization/predicate_pushdown.rs:89-149 | the loops deal predicates and conditions out to left, right, keep and wrap by the columns they read |
| `Pushdown.PartsExact` | src/planner/src/p2_optimization/predicate_pushdown.rs:89-149 | which predicate goes where, told by the columns it reads: of an inner join only what reads both sides stays |
| `Pushdown.InnerParts` | src/planner/src/p2_optimization/predicate_pushdown.rs:98-113 | together the parts of an inner join say what the predicates said |
| `Pushdown.OuterParts` | src/planner/src/p2_optimization/predicate_pushdown.rs:114-139 | for an outer join the left part decides which left rows matter; for those the other parts say the rest |
| `Pushdown.JoinArm` | src/planner/src/p2_optimization/predicate_pushdown.rs:73-165 | the join arm keeps the rows, in order, for both join types |
| `Pushdown.PushRun` | src/planner/src/p2_optimization/predicate_pushdown.rs:19-188 | with predicates gathered above it, a plan becomes one with its filtered rows and the same columns, unless a predicate meets a filter, and leaves no filter above an operator it could have moved through |
| `Pushdown.PushFromAbove` | src/planner/src/p2_optimization/predicate_pushdown.rs:19-188 | the recursion with its loops ends and builds that plan |
| `Pushdown.PushJoin` | src/planner/src/p2_optimization/predicate_pushdown.rs:73-165 | the same for the join arm |
| `Pushdown.PushUnion` | src/planner/src/p2_optimization/predicate_pushdown.rs:65-71 | the same for every branch of a union |
| `Pushdown.PredicatePushdown` | src/planner/src/p2_optimization/predicate_pushdown.rs:15-17 | in every environment the pass keeps the columns, and the rows, order and frequencies of every plan in which no predicate meets a filter; where one does, it keeps the rows if and only if nothing is lost |
| `Pushdown.NestedFilters` | src/planner/src/p2_optimization/predicate_pushdown.rs:31-71 | of filters one above the other through any projects, sorts, negations and unions the lowest survives, so the pass keeps the rows of the plan if and only if every filter would have kept all of its rows under the predicates it forgets |
| `Pushdown.SafeLosesNothing` | src/planner/src/p2_optimization/predicate_pushdown.rs:31-71 | a plan in which no predicate meets a filter is one in which nothing is lost |
| `Pushdown.UpperFilterLost` | src/planner/src/p2_optimization/predicate_pushdown.rs:31-63 | a WHERE around a subquery with its own WHERE: no rows as written, one in what the pass makes of it |
| `FoldConstants.FoldMeans` | src/planner/src/p2_optimization/fold_constants.rs:16-71 | a folded expression has the type and value of the original on every row and group, no call on constants only, and is the original when there was none |
| `FoldConstants.FoldCombined` | src/planner/src/p2_optimization/fold_constants.rs:16-58 | a conjunction of literal booleans folds to the literal of their conjunction |
| `FoldConstants.FoldExpr` | src/planner/src/p2_optimization/fold_constants.rs:16-71 | the recursion over arguments computes the folded expression |
| `FoldConstants.FoldRun` | src/planner/src/p2_optimization/fold_constants.rs:6-14 | a folded plan keeps rows and columns, and folding it again changes nothing |
| `FoldConstants.FoldPlan` | src/planner/src/p2_optimization/fold_constants.rs:6-14 | the pass, children first, computes the folded plan |
| `FoldConstants.ValuesAreLiterals` | src/planner/src/p4_pit_planning/mod.rs:111-120 | after folding, the rows of a VALUES are literals, as lowering demands |
| `CollapseProjects.ProjectTwice` | src/planner/src/p2_optimization/collapse_projects.rs:9-20 | two projects in a row are one project of inlined expressions |
| `CollapseProjects.CollapseRun` | src/planner/src/p2_optimization/collapse_projects.rs:5-22 | a collapsed plan keeps rows and columns, has no project on a project, is the plan itself if there was none, and stays ready for lowering |
| `CollapseProjects.Collapse` | src/planner/src/p2_optimization/collapse_projects.rs:5-22 | the pass, children first, computes the collapsed plan |
| `NormalizeJoins.InsertKeys` | src/planner/src/p3_common_transforms/normalize_joins.rs:76-107 | the keys end up in front of their inputs in reverse, and the conditions refer to columns by position |
| `NormalizeJoins.DropKeys` | src/planner/src/p3_common_transforms/normalize_joins.rs:128-136 | the wrapping project is left without either side's keys |
| `NormalizeJoins.NormalizeJoin` | src/planner/src/p3_common_transforms/normalize_joins.rs:19-139 | the loops build the normal form |
| `NormalizeJoins.EquiExact` | src/planner/src/p3_common_transforms/normalize_joins.rs:39-68 | recognised are exactly the equalities of something that reads the left only with something that reads the right only, written either way, and the left key is the one that reads the left |
| `NormalizeJoins.EitherWay` | src/planner/src/p3_common_transforms/normalize_joins.rs:46-61 | an equality of a left and a right column is the same key whichever is written first |
| `NormalizeJoins.EquiCondsExact` | src/planner/src/p3_common_transforms/normalize_joins.rs:39-68 | a conjunct becomes a key exactly when it is such an equality, and is residual otherwise |
| `NormalizeJoins.KeyCondsMeaning` | src/planner/src/p3_common_transforms/normalize_joins.rs:76-107 | though reversed, the key columns are equal exactly when the original equalities hold |
| `NormalizeJoins.KeyedCondition` | src/planner/src/p3_common_transforms/normalize_joins.rs:113-120 | the condition on keyed rows is the equalities and the residual read through the keyed layout |
| `NormalizeJoins.NormalFormRun` | src/planner/src/p3_common_transforms/normalize_joins.rs:19-139 | for every join, the normal form has exactly the rows of the join under that condition |
| `NormalizeJoins.NormalFormFormed` | src/planner/src/p3_common_transforms/normalize_joins.rs:122-138 | and the columns of the join |
| `NormalizePlans.NormalRun` | src/planner/src/p3_common_transforms/normalize_joins.rs:10-140 | every plan with its joins normalised has the rows of the plan with shifted residuals and its columns, and is ready for lowering if its joins are clear |
| `NormalizePlans.Normalize` | src/planner/src/p3_common_transforms/normalize_joins.rs:10-140 | the pass, children first, computes the normalised plan |
| `NormalizePlans.AlignedRun` | src/planner/src/p3_common_transforms/normalize_joins.rs:113-120 | those are the plan's rows when no residual reads a column the keys displace, in particular without equalities or with column-free residuals |
| `NormalizePlans.PlainPlan` | src/planner/src/p3_common_transforms/normalize_joins.rs:19-139 | joins of equalities between the sides and constants only, and joins without such and without column = column conjuncts, are normalised and lowered correctly |
| `NormalizePlans.InnerExact` | src/planner/src/p3_common_transforms/normalize_joins.rs:113-120 | an inner join is normalised correctly if and only if the two conditions agree on every pair of rows |
| `NormalizePlans.JoinsEqual` | src/planner/src/p3_common_transforms/normalize_joins.rs:113-120 | inner joins of the same rows are equal exactly when their conditions agree on every pair |
| `NormalizePlans.ConditionsExact` | src/planner/src/p3_common_transforms/normalize_joins.rs:113-120 | two conditions give the same join of all tables, inner or left outer, if and only if they agree on every pair of tuples |
| `NormalizePlans.NormalExact` | src/planner/src/p3_common_transforms/normalize_joins.rs:19-139 | for a condition and either join type, the normal form has the rows of the join whatever the two inputs if and only if the condition and the one with misread residuals agree on every pair of tuples |
| `NormalizePlans.ResidualMisread` | src/planner/src/p3_common_transforms/normalize_joins.rs:113-120 | a join whose row is lost because its residual reads the wrong column |
| `NormalizePlans.NormalFormReady` | src/planner/src/p4_pit_planning/mod.rs:169-195 | the normal form of a clear join can be hashed: its i-th key equates the i-th columns of both sides |
| `Physical.HashTest` | src/planner/src/p4_pit_planning/mod.rs:169-195 | for a hashable condition matching keys and a true residual say exactly what the condition says |
| `Physical.HashableAgrees` | src/planner/src/p4_pit_planning/mod.rs:169-195 | so hashing agrees with it on every pair of tuples |
| `Physical.HashRows` | src/planner/src/p4_pit_planning/mod.rs:169-195 | where hashing agrees, the hash join's rows are the logical join's, in order, up to the right key columns |
| `Physical.HashExact` | src/planner/src/p4_pit_planning/mod.rs:169-195 | lowering an inner or left outer join to a hash join is right on all tables if and only if hashing agrees with the condition on every pair of tuples |
| `Physical.ColumnKeysExact` | src/planner/src/p4_pit_planning/mod.rs:172-184 | for conditions that only equate columns, if and only if the equalities pair the leading columns of the two sides |
| `Lowering.GroupLowered` | src/planner/src/p4_pit_planning/mod.rs:55-88 | grouping key-prefixed rows with shifted references is grouping the rows by their key expressions |
| `Lowering.GroupByLowered` | src/planner/src/p4_pit_planning/mod.rs:44-88 | the executors of a GROUP BY have the same rows |
| `Lowering.LowerGroup` | src/planner/src/p4_pit_planning/mod.rs:44-88 | the loop behind the keys builds those executors |
| `Lowering.JoinLowered` | src/planner/src/p4_pit_planning/mod.rs:169-195 | where hashing agrees, the hash join on as many columns as there are column equalities, with the rest as residual, has the join's rows up to the right keys |
| `Lowering.LowerJoin` | src/planner/src/p4_pit_planning/mod.rs:169-195 | the loop that counts the equalities and gathers the rest builds that hash join |
| `Lowering.LowerRun` | src/planner/src/p4_pit_planning/mod.rs:30-198 | a plan on whose joins hashing agrees, and which drops the key columns, is lowered to executors with the same rows; any plan to as many columns |
| `Lowering.Lower` | src/planner/src/p4_pit_planning/mod.rs:30-198 | the recursion builds those executors |
| `Lowering.KeyMiscounted` | src/planner/src/p4_pit_planning/mod.rs:172-184 | an outer join on a left-only equality whose lowered plan finds a match that is none |
| `Planner.FoldedLiterals` | src/planner/src/p4_pit_planning/mod.rs:111-120 | a folded plan satisfies what lowering demands of VALUES |
| `Planner.OptimizedRun` | src/planner/src/p2_optimization/mod.rs:11-22 | the optimised query has its columns, and its rows unless a predicate of the folded query meets a filter; then if and only if nothing is lost |
| `Planner.Optimize` | src/planner/src/p2_optimization/mod.rs:11-22 | the four passes in turn compute the optimised query |
| `Planner.TransformedRun` | src/planner/src/p3_common_transforms/mod.rs:10-20 | normalising and collapsing keep the rows of aligned plans and make clear ones ready |
| `Planner.CommonTransforms` | src/planner/src/p3_common_transforms/mod.rs:10-20 | the two passes in turn compute that plan |
| `Planner.PlanRuns` | src/planner/src/p4_pit_planning/mod.rs:19-27 | the executors planned for a query return its rows, in order, with their frequencies, in every environment in which the conditions of the passes hold of the query's own folded, optimised and transformed forms |
| `TidyPlans.PushPlain` | src/planner/src/p2_optimization/predicate_pushdown.rs:73-165 | if every join, with what arrives from above, is left with equalities and constants only or without column equalities, so are the joins after pushdown |
| `TidyPlans.FoldPlain` | src/planner/src/p2_optimization/fold_constants.rs:16-71 | and after folding, which turns no conjunct into an equality or back |
| `Planner.TidyPlanRuns` | src/planner/src/p4_pit_planning/mod.rs:19-27 | the executors of a tidy query return its rows if no predicate meets a filter, and where one does if and only if nothing is lost |
| `Planner.EquiPlanRuns` | src/planner/src/p4_pit_planning/mod.rs:19-27 | they do for every folded query that joins on equalities only, with no filter above a join and none above another |
| `Planner.JoinlessPlanRuns` | src/planner/src/p4_pit_planning/mod.rs:19-27 | in particular for every folded query without joins and nested filters |
| `Planner.PlanForPointInTime` | src/planner/src/p4_pit_planning/mod.rs:19-27 | the pipeline computes that plan from the query and the scalar functions alone, and for a tidy query without nested filters it returns the query's rows in every environment with those functions |
| `FunctionCompile.BestCandidate` | src/functions/src/registry.rs:67-93 | picks the earliest definition of the lowest rank, or finds that none applies |
| `FunctionCompile.ResolveFunction` | src/functions/src/registry.rs:63-155 | resolves to that definition, directly at rank zero and with casts otherwise, or reports which of the two errors it is |
| `FunctionCompile.BestUnique` | src/functions/src/registry.rs:91-93 | there is only one such definition |
| `FunctionCompile.DirectIfFits` | src/functions/src/registry.rs:93-145 | if some definition takes the arguments as they are, no casts are inserted |
| `FunctionCompile.CastedFits` | src/functions/src/registry.rs:96-126 | after cast insertion the same name resolves at rank zero |
| `FunctionCompile.CompoundLower` | src/planner/src/utils/expr.rs:48-67 | expanding a compound function goes down in the order of function names |
| `FunctionCompile.BuiltinCasts` | src/functions/src/scalar/casts/to_decimal.rs:155-199 | with the registered overloads of to_bigint, to_decimal and to_jsonpath every implicit cast resolves at once to a scalar function of the wanted type |
| `FunctionCompile.BuiltinLayered` | src/functions/src/scalar/json/json_extract_unquote.rs:10-23 | with these and `->>` as the only compound function the registry is layered, so compilation against it ends |
| `FunctionCompile.ArrowCompiles` | src/functions/src/scalar/json/json_extract_unquote.rs:10-23 | `json ->> text` compiles to json_unquote(json_extract(json, to_jsonpath(text))), the cast put in by resolving the expansion |
| `FunctionCompile.Compile` | src/planner/src/p1_validation/compile_functions_and_refs.rs:25-153 | compilation ends on every expression; its outcome, error included, is exactly what resolution prescribes, arguments first and expansions compiled in turn; each call of the result fits a registered signature without a cast, and a cast has the type it asks for |
| `FunctionCompile.ResolveColumn` | src/planner/src/p1_validation/compile_functions_and_refs.rs:107-143 | a column is found exactly when one field and no other has its name |
| `Overloads.CastType` | src/functions/src/registry.rs:126-145 | whatever a cast compiles to has the type asked for |
| `Overloads.CastExact` | src/data/src/datatype.rs:26-40 | with the built-in cast functions a cast resolves exactly between the types that have one, directly and to the type asked for |
| `Overloads.DecimalKept` | src/functions/src/scalar/casts/to_decimal.rs:177-184 | called as a function, to_decimal keeps the type of a decimal; as a cast it takes the one asked for |
| `Overloads.TextToDecimal` | src/functions/src/scalar/casts/to_decimal.rs:186-191 | a text becomes the widest decimal unless another type is asked for |
| `Overloads.NarrowestWins` | src/functions/src/registry.rs:67-126 | an arithmetic operator takes the narrowest overload that holds both operands, and directly if neither has to be widened |
| `Overloads.IntegerWithBigInt` | src/functions/src/scalar/maths/add.rs:60-75 | so an integer and a big integer add up as big integers |
| `Overloads.NullsTakeFirst` | src/functions/src/registry.rs:67-93 | nulls fit every overload, and of those the first registered is taken |
| `Overloads.NameFound` | src/planner/src/p1_validation/compile_functions_and_refs.rs:107-143 | a qualified name is found whenever one field has that qualifier and alias, whatever the others, and an unqualified one whenever one has the alias |
| `Overloads.SameNameTwice` | src/planner/src/p1_validation/compile_functions_and_refs.rs:107-143 | a name in two tables is found by its table and ambiguous without |
| `Json.MantissaExact` | src/data/src/json.rs:526-577 | a mantissa is read back exactly when it is in [-2^95, 2^95) |
| `Json.SizeOfTape` | src/data/src/json.rs:112-150 | the size of a built node is its length, but for tag 0x13, where it is one more |
| `Json.NextTape` | src/data/src/json.rs:275-315 | the iterator splits off exactly the first node, unless it is one of tag 0x13: then it takes a byte too many, or runs off the end |
| `Json.Minimal` | src/data/src/json.rs:166-332 | nothing that reads as a tree is shorter than what the builder writes for it |
| `Json.RoundTrip` | src/data/src/json.rs:166-332 | a tree is read back from its tape if and only if its mantissas are in range and no number of tag 0x13 is inside a container |
| `JsonBuilder.Builder.PushInt` | src/data/src/json.rs:509-523 | appends the narrowest code of the integer |
| `JsonBuilder.Builder.PushDecimal` | src/data/src/json.rs:526-577 | appends the tape of the number |
| `JsonBuilder.Builder.PushString` | src/data/src/json.rs:580-599 | appends the string behind the narrowest length |
| `JsonBuilder.Builder.CloseContainer` | src/data/src/json.rs:610-636 | widens the reserved header in place to fit the body already written, at 255 and 65535 bytes |
| `JsonBuilder.Builder.PushArray` | src/data/src/json.rs:602-636 | appends the tape of the array, whatever is nested in it |
| `JsonBuilder.Builder.PushObject` | src/data/src/json.rs:639-673 | appends the tape of the object |
| `JsonBuilder.Builder.PushTree` | src/data/src/json.rs:495-673 | appends the tape of any tree |
| `JsonBuilder.BuildAndRead` | src/data/src/json.rs:112-332 | building and reading: size equals length exactly when the root is not of tag 0x13, and the tree comes back exactly when it survives |
| `JsonBuilder.JsonIter.Advance` | src/data/src/json.rs:305-314 | moves along the slice by the size of its first node |
| `JsonBuilder.IterArray` | src/data/src/json.rs:215-230 | walking an array with the iterator reads its items |
| `JsonBuilder.MiscountedLost` | src/data/src/json.rs:133-133 | an array that is not read back because 1.000 swallows what follows it |
| `JsonBuilder.WideMantissaLost` | src/data/src/json.rs:571-575 | a number of 96 bits that is not read back |

## Left out

- RocksDB, write batches and snapshots: the store is a map from byte strings to byte strings, ordered by `Bytes.Cmp`, and a batch is its writes in order.
- The log section, its merge operator and the compaction filter: no code writes to it.
- `rust_decimal`: a decimal is a sign, a mantissa and a scale; of its division only that a tenth is exact, with as few decimal places as it needs, is used.
- Dates and timestamps are the integers behind them, text and JSON datums are byte strings, a JSON path is its text.
- The clock: timestamps are arguments.
- SQL and JSON text parsing, the server, CSV and file scans, EXPLAIN, and the bodies of scalar and aggregate functions other than `and`, `=` and `count`.
- `SortedGroupExecutor` with a key: the planner only builds it without one; that case is `AggregateState.AggregateRows`.
- `TableInsert` as a plan operator and the `distinct` flag of projects: the rewrites only pass through the one, and the other is gone before them.
- Column types after rewriting: columns are followed by name, number and value; folding also keeps types.
- Decimals.Normalize: mantissas from 10^28 to 2^96, which also go through the loop that divides, are treated in `Decimals.WideExact` and `Decimals.WideWhole`; the division is taken to return no more decimal places than it needs.
- Decimals.WriteSortableDecimal: the same range of mantissas; `Decimals.WriteWide` is what is written for the others.
- Decimals.DecimalOrder: the same range of mantissas, beyond which `Decimals.WideMisordered` shows the law to fail and `Decimals.WideExact` says when it carries over.
- Decimals.DecimalRoundTrip: the same range of mantissas.
- Mvcc.Store.WriteTuple: timestamps do not decrease within a row and stay below 2^64 - 2^56, and the sums of a row's deltas fit an `i64`.
- Catalog.Serve: each system table is a map from keys to a last row and a sum; `SystemTables.WriteStep`, `SystemTables.ScanShowsLive` and `SystemTables.LookupShowsKey` tie such a map to the table's stored log. The JSON columns of the system tables are kept as values, and dropping a system table is excluded because it deletes the catalog's own records.
- Catalog.Catalog.GenerateTableId: the hash of the name is an argument, and running past the last `u32` is reported as a failure.
- Delete.RunDelete: a LIMIT with an offset is not covered, `Limit.LimitExact` is where offsets are treated; no row has the frequency `i64::MIN`, whose negation overflows.
- Limit.LimitExecutor.Advance: that the child is advanced once more after its end, when the offset exceeds its rows, is not visible in the rows.
- SortExec.RunSort: the sort itself is an insertion sort in place of the library's, and the limit of four gigabytes on the buffer, beyond which the code panics, is not modelled.
- Pushdown.PredicatePushdown: one direction only where a predicate meets a nested filter below a join, a group or a limit, because whether the rows it fails to remove show depends on whether they match, aggregate or are cut off there; through projects, sorts, negations and unions the exact condition is `Pushdown.NestedFilters`.
- NormalizePlans.AlignedRun: the condition is on columns and sufficient; the exact one, on tuples, is `NormalizePlans.NormalExact`, and for one pair of inputs of an inner join `NormalizePlans.InnerExact`.
- Lowering.LowerRun: for a whole plan one direction, because a join whose hashing disagrees can be given tables on which that does not show; for a join over all tables the exact condition is `Physical.HashExact`.
- FunctionCompile.Compile: that compound functions go down in level and implicit casts fit is a precondition, shown of the built-in registry by `FunctionCompile.BuiltinLayered`; the many overloads that are neither casts nor compound are not listed, since nothing is asked of them.
- Planner.TidyPlanRuns: that a query is tidy is asked of its folded form; it is the query itself if nothing in it is left to fold.
- Json.RoundTrip: strings and containers of four gigabytes and more, for which the builder panics, are outside the model.
