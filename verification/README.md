# A Dafny model of Milvus's caching slot, column helpers, filter checks, catalog keys and task admission

This project models, as pure functions and short methods with their properties proved, the following parts of the Milvus vector database:

- **The tiered-cache slot** (`CacheSlot`, `cache_slot.dfy`). It is a fixed array of cells built once from a translator. Cells are pinned in batches:
  - every requested cell id is range-checked first;
  - each cell is pinned, and the cells that need a load are collected;
  - those cells are loaded in one batch (reserve resources from the eviction list, fetch from the translator, populate);
  - the caller gets an accessor holding one pin per cell.

  The module also covers the three cell-id mapping modes, manual eviction, warm-up, the accessor's lookups and `PinWrapper::transform`.
- **The column interface's concrete helpers** (`ChunkedColumn`): the data-type classification, the offset range check before the chunk lookup, and the default bulk readers.
- **Parts of the unary range filter**:
  - `UnaryExpr`: the integer-overflow short-circuit, the JSON path split, the JSON index eligibility, the text-match slop check, and the row-by-row JSON comparison with a literal;
  - `ArrayEqualIndex`: array equality served by the element index.
- **The root coordinator's catalog** (`KvCatalog`):
  - the key layout in the key-value store;
  - the legacy in-place partition lists;
  - the guards and merges of the alter operations, returned as the writes they would make.
- **The proxy's index parameter handling** (`TaskIndex`): the AUTOINDEX wrapper, BM25 defaults, dimension filling, extra-parameter parsing, the index/type parameter split, the alter-index argument check, and the field name `describeIndex` shows for the dynamic field. The last one un-escapes RFC 6901 reference tokens.
- **The data coordinator's upgrade fix-up of channel records** (`MetaUtil`).
- **The query coordinator's task executor admission** (`TaskExecutor`), and the version precedence it uses (`Semver`, Semantic Versioning 2.0.0 section 11).

Shared modules:
- `Common`: Option/Result, error codes, data types and the int64 range.
- `SeqUtil`: first-occurrence de-duplication.
- `GoStrings`: Go's `%d` formatting and `strconv.ParseInt`, `strings.Split`, `strings.TrimPrefix` and `strings.ReplaceAll`.

I/O, clocks and calls into code outside the modelled files are parameters:
- the translator's fetch and the reservation outcome (`LoadEnv`);
- the JSON decoder of index parameters;
- the configurable-key test of the alter check;
- the execution cap;
- a column's own chunk lookup.

## Model

| member | source | states |
|---|---|---|
| CacheSlot.PinCell | internal/core/src/cachinglayer/CacheSlot.h:204-211 | a pin asks its caller to load exactly when the cell is unloaded or failed, and then marks it Loading; a loaded cell is left alone |
| CacheSlot.ManualEvictCell | internal/core/src/cachinglayer/CacheSlot.h:141-145 | only a loaded, unpinned cell is evicted (payload dropped, state Unloaded), and the result says whether it was |
| CacheSlot.NewSlot | internal/core/src/cachinglayer/CacheSlot.h:55-70 | the slot starts with one unloaded, unpinned cell per translator cell, each with its translator size, and a valid, quiescent state |
| CacheSlot.InvolvedCells | internal/core/src/cachinglayer/CacheSlot.h:113-136 | the involved cells are distinct; they are the mapped cell of every requested id and nothing else; an empty request involves none |
| CacheSlot.IdenticalInvolvesRequested | internal/core/src/cachinglayer/CacheSlot.h:117-121 | in IDENTICAL mode the involved cells are exactly the requested ids, with duplicates collapsed |
| CacheSlot.AlwaysZeroInvolvesCellZero | internal/core/src/cachinglayer/CacheSlot.h:123-127 | in ALWAYS_ZERO mode a non-empty request involves cell 0 alone |
| CacheSlot.NeedLoad | internal/core/src/cachinglayer/CacheSlot.h:204-210 | the need-load cells are exactly the requested cells that are unloaded or failed |
| CacheSlot.NeedLoadNoDup | internal/core/src/cachinglayer/CacheSlot.h:191-208 | distinct requested cells give distinct need-load cells, as the hash set holds them |
| CacheSlot.RunLoad | internal/core/src/cachinglayer/CacheSlot.h:233-301 | a refused reservation fails every cell with InsufficientResource and releases nothing; a throwing fetch fails every cell and releases exactly what was reserved; a good fetch loads every cell; other cells are untouched |
| CacheSlot.ReleaseUndoesPins | internal/core/src/cachinglayer/CacheSlot.h:394-417 | dropping an accessor takes away exactly the pins that granting it added |
| CacheSlot.CheckRange | internal/core/src/cachinglayer/CacheSlot.h:195-203 | the range check passes exactly when every id is below the cell count; a negative id fails, as it does after the unsigned conversion |
| CacheSlot.PinEach | internal/core/src/cachinglayer/CacheSlot.h:204-211 | the pin loop leaves every need-load cell Loading and collects exactly the need-load cells |
| CacheSlot.SumSizes | internal/core/src/cachinglayer/CacheSlot.h:209 | the resources needed are the summed sizes of the need-load cells |
| CacheSlot.PinInternal | internal/core/src/cachinglayer/CacheSlot.h:187-219 | the loop-by-loop method computes the same result, slot and call trace as the step-by-step reference definition |
| CacheSlot.OutOfRangeHasNoEffect | internal/core/src/cachinglayer/CacheSlot.h:195-203 | an out-of-range id fails with OutOfRange before any cell is pinned, any resource reserved or the translator called |
| CacheSlot.LoadRunsIffNeeded | internal/core/src/cachinglayer/CacheSlot.h:212-214 | the load runs exactly when some requested cell needs loading, for the summed size of exactly those cells; the trace lists the need-load cells in request order, an order the source leaves unspecified (its list is built from a hash set) |
| CacheSlot.SuccessPinsEveryCell | internal/core/src/cachinglayer/CacheSlot.h:204-218 | on success every requested cell is loaded and holds one more pin, and every other cell is unchanged |
| CacheSlot.FailureTakesNoPin | internal/core/src/cachinglayer/CacheSlot.h:216-218 | a failed request fails with OutOfRange for an id out of range, with InsufficientResource for a refused reservation, and otherwise only because the fetch threw, with that error; it takes no pin and leaves no cell mid-load |
| CacheSlot.PinKeepsSlotValid | internal/core/src/cachinglayer/CacheSlot.h:187-219 | pinning keeps every cell well formed and the slot quiescent |
| CacheSlot.PinKeepsCellValid | internal/core/src/cachinglayer/CacheSlot.h:204-218 | after a pin request each cell is well formed and not mid-load |
| CacheSlot.RunLoadCell | internal/core/src/cachinglayer/CacheSlot.h:272-295 | a load leaves each need-load cell loaded or failed with its pins kept, and every other cell unchanged |
| CacheSlot.PinCells | internal/core/src/cachinglayer/CacheSlot.h:106-138 | an empty request pins, loads and calls nothing; on success the accessor covers the cell of every requested id |
| CacheSlot.PinAllCells | internal/core/src/cachinglayer/CacheSlot.h:95-104 | pinning every cell in id order never fails the range check |
| CacheSlot.PinAllCellsLoadsEveryCell | internal/core/src/cachinglayer/CacheSlot.h:95-104 | after a successful pin of all cells, every cell is loaded and holds one more pin |
| CacheSlot.AccessorSeesLoadedCells | internal/core/src/cachinglayer/CacheSlot.h:401-411 | after a successful pin, the accessor finds a loaded payload for every requested id |
| CacheSlot.ReleaseAccessor | internal/core/src/cachinglayer/CacheSlot.h:412-417 | dropping an accessor gives each of its cells back one pin; every other part of every cell, and of the slot, is unchanged |
| CacheSlot.PinThenReleaseRestoresPins | internal/core/src/cachinglayer/CacheSlot.h:187-219 | granting an accessor and dropping it restores every cell's pin count and leaves the slot quiescent |
| CacheSlot.ManualEvict | internal/core/src/cachinglayer/CacheSlot.h:141-145 | one cell is evicted exactly when it is loaded and unpinned, and its size goes back to the eviction list; otherwise the slot is unchanged |
| CacheSlot.ManualEvictAll | internal/core/src/cachinglayer/CacheSlot.h:147-158 | every cell is visited without a short cut; the result is whether any cell was evictable; afterwards none is evictable, pinned or unloaded cells are untouched, and the eviction list gets back the summed size of the evicted cells |
| CacheSlot.SuccessChargesNeeded | internal/core/src/cachinglayer/CacheSlot.h:204-218 | a successful pin request charges the eviction list with the summed size of exactly the cells it loaded |
| CacheSlot.PinOneCell | internal/core/src/cachinglayer/CacheSlot.h:204-218 | pinning one cell that needs a load grants an accessor for that cell and leaves it loaded with one pin and its size |
| CacheSlot.PinOneCellCharges | internal/core/src/cachinglayer/CacheSlot.h:209-214 | pinning one cell that needs a load charges the eviction list exactly that cell's size |
| CacheSlot.LoadThenEvictRestoresLedger | internal/core/src/cachinglayer/CacheSlot.h:141-145 | loading one cell, dropping its accessor and evicting it gives the eviction list back exactly what the load charged |
| CacheSlot.Warmup | internal/core/src/cachinglayer/CacheSlot.h:79-93 | a disabled policy does nothing; otherwise the pin counts come back as they were and the slot stays quiescent |
| CacheSlot.WarmupLoadsEveryCell | internal/core/src/cachinglayer/CacheSlot.h:79-93 | a successful warm-up in IDENTICAL mode leaves every cell loaded |
| CacheSlot.PinOfLoadedCellsLoadsNothing | internal/core/src/cachinglayer/CacheSlot.h:212-214 | pinning cells that are all loaded already reserves nothing and calls nothing |
| CacheSlot.WarmupOfLoadedSlotIsNoOp | internal/core/src/cachinglayer/CacheSlot.h:79-93 | warming up a fully loaded slot changes nothing and calls nothing |
| CacheSlot.Transform | internal/core/src/cachinglayer/CacheSlot.h:476-481 | a transformed wrapper carries the same pin guard, so the pins outlive the original |
| CacheSlot.TransformIdentity | internal/core/src/cachinglayer/CacheSlot.h:476-481 | transforming by the identity gives back the same wrapper, guard included |
| CacheSlot.TransformComposes | internal/core/src/cachinglayer/CacheSlot.h:476-481 | two transforms in a row are one transform by the composed function, under the same guard |
| ChunkedColumn.LayoutOf | internal/core/src/mmap/ChunkedColumnInterface.h:167-196 | each data type gets exactly one layout, and each layout is characterised by its classifier |
| ChunkedColumn.ToChunkIdAndOffset | internal/core/src/mmap/ChunkedColumnInterface.h:199-214 | a missing buffer fails the assertion; any out-of-range offset among the first `count` fails with OutOfRange; otherwise the column's own lookup answers |
| ChunkedColumn.DefaultBulkRead | internal/core/src/mmap/ChunkedColumnInterface.h:129-166 | the interface's default bulk readers reject every call with Unsupported |
| ChunkedColumn.ManualEvictCache | internal/core/src/mmap/ChunkedColumnInterface.h:29-32 | the default eviction leaves the column as it is |
| UnaryExpr.OverflowBatch | internal/core/src/exec/expression/UnaryExpr.cpp:1630-1662 | an overflowing batch answers every row the same: a literal below the range makes `>`/`>=`/`!=` true; above it makes `<`/`<=`/`!=` true; validity is each row's own; other operators fail with OpTypeInvalid |
| UnaryExpr.PreCheckOverflow | internal/core/src/exec/expression/UnaryExpr.cpp:1607-1667 | the short-circuit fires exactly for a non-bool integer column and an out-of-range literal, over `min(batch size, rows left)` rows or the offset input's size; the cursor advances only without offset input |
| UnaryExpr.Int64ColumnNeverShortCircuits | internal/core/src/exec/expression/UnaryExpr.cpp:1609-1612 | an int64 literal never overflows an int64 column |
| UnaryExpr.OverflowBatchesCoverSegment | internal/core/src/exec/expression/UnaryExpr.cpp:1613-1621 | `k` short-circuited batches from position 0 cover `min(k * batch size, row count)` rows |
| UnaryExpr.SplitAtFirstSlashDigit | internal/core/src/exec/expression/UnaryExpr.cpp:952-964 | the two parts concatenate to the input; the second is empty exactly when no `/<digit>` occurs, and otherwise starts at the first one |
| UnaryExpr.CanUseIndexForJson | internal/core/src/exec/expression/UnaryExpr.cpp:1886-1904 | an index is used only if it exists; for string values, never for Match, PostfixMatch or InnerMatch |
| UnaryExpr.TextMatchSlop | internal/core/src/exec/expression/UnaryExpr.cpp:1906-1942 | a phrase match takes the first extra value (0 if none) and rejects one outside `[0, UINT32_MAX]` with InvalidParameter; a text match uses 0; other operators fail with OpTypeInvalid |
| UnaryExpr.ExecMatch | internal/core/src/exec/expression/UnaryExpr.cpp:1490-1499 | a match cannot run as an iterative filter; a text match queries the tokens; a phrase match queries within the first extra value (0 if none) and fails with InvalidParameter only for a value outside `[0, UINT32_MAX]` |
| UnaryExpr.JsonDispatch | internal/core/src/exec/expression/UnaryExpr.cpp:198-259 | an answering n-gram index goes first; otherwise the JSON-path index is used exactly when `CanUseIndexForJson` allows it outside iterative filters (never for string pattern matches), probed as double for integer literals, failing with DataTypeInvalid for an array literal; every other case scans the rows |
| UnaryExpr.ReadAs | internal/core/src/exec/expression/UnaryExpr.cpp:689-702 | a value read as the literal's type is a number exactly when the literal is, and a string exactly when the literal is; missing keys, arrays and other kinds are not read |
| UnaryExpr.EvalRow | internal/core/src/exec/expression/UnaryExpr.cpp:689-945 | a null row is false and invalid; a row the incoming bitmap excludes keeps its bits; an unreadable value satisfies only NotEqual; an array literal is compared only by Equal/NotEqual, and a missing array fails both |
| UnaryExpr.NotEqualIsComplementOfEqual | internal/core/src/exec/expression/UnaryExpr.cpp:689-717 | for a scalar literal, NotEqual is the negation of Equal on every valid, unskipped row |
| UnaryExpr.RandomAccessMatchesSequential | internal/core/src/exec/expression/UnaryExpr.cpp:719-950 | reading rows through offsets gives the same bits as reading the gathered rows in order |
| UnaryExpr.ArrayBranchReadsWrongRow | internal/core/src/exec/expression/UnaryExpr.cpp:835 | under random access, the array-literal branch as written answers for the wrong row |
| ArrayEqualIndex.RowsContaining | internal/core/src/exec/expression/UnaryExpr.cpp:605-623 | the index's in-filter for an element is exactly the rows whose array contains it |
| ArrayEqualIndex.Candidates | internal/core/src/exec/expression/UnaryExpr.cpp:604-632 | every candidate contains the first element, and every row containing all the elements stays a candidate, whatever the early stop |
| ArrayEqualIndex.ExecArrayEqualForIndexAsWritten | internal/core/src/exec/expression/UnaryExpr.cpp:545-641 | an empty literal falls back to the scan; Equal is exact; a NotEqual bit is set only for a candidate row that differs from the literal |
| ArrayEqualIndex.NotEqualMissesNonCandidates | internal/core/src/exec/expression/UnaryExpr.cpp:633-638 | the row `[2]` differs from the literal `[1]` but, as written, its NotEqual bit stays false |
| ArrayEqualIndex.ExecArrayEqualForIndex | internal/core/src/exec/expression/UnaryExpr.cpp:545-641 | with non-candidates answered, every bit is exactly `(row == literal) != reverse` |
| KvCatalog.BuildCollectionKey | internal/metastore/kv/rootcoord/kv_catalog.go:52-57 | records without a database live under the pre-database collection prefix; others live under their database |
| KvCatalog.SegmentsOfCollectionKey | internal/metastore/kv/rootcoord/kv_catalog.go:52-57 | a collection key has three path segments at the pre-database location and five under a database |
| KvCatalog.FieldKeyNamesItsCollection | internal/metastore/kv/rootcoord/kv_catalog.go:432-456 | the third segment of a field key, which the batch listing parses, is the collection id the key was built with |
| KvCatalog.CollectionKeyInjective | internal/metastore/kv/rootcoord/kv_catalog.go:52-57 | two collection keys are equal exactly when their database and collection ids are |
| KvCatalog.PartitionKeyInjective | internal/metastore/kv/rootcoord/kv_catalog.go:59-65 | two partition keys are equal exactly when their collection and partition ids are |
| KvCatalog.PartitionScanAsWrittenTakesInOtherCollections | internal/metastore/kv/rootcoord/kv_catalog.go:370-372 | the bare prefix scanned for collection 1 also matches a partition key of collection 12 |
| KvCatalog.PartitionScanSelectsOnlyItsCollection | internal/metastore/kv/rootcoord/kv_catalog.go:59-65 | a partition key lies under a collection's prefix plus a slash exactly when it belongs to that collection |
| KvCatalog.DropPartition | internal/metastore/kv/rootcoord/kv_catalog.go:786-805 | a missing record or absent id changes nothing; otherwise the first entry with the id leaves all three lists together, the rest in order |
| KvCatalog.DropPartitionRemovesOneOccurrence | internal/metastore/kv/rootcoord/kv_catalog.go:786-805 | dropping a present id removes exactly one copy of it from the id list |
| KvCatalog.CreatePartition | internal/metastore/kv/rootcoord/kv_catalog.go:297-334 | a 2.1.0-or-later record gets a write at the partition key; a legacy record rejects an existing id or name and otherwise gains the partition at the end of its lists, rewritten at the pre-database key |
| KvCatalog.CreateThenDropRestores | internal/metastore/kv/rootcoord/kv_catalog.go:297-334 | dropping a partition just created in a legacy record gives back the record as it was |
| KvCatalog.DropPartitionInCatalog | internal/metastore/kv/rootcoord/kv_catalog.go:807-830 | a collection already gone is nothing to do; a record with empty partition lists loses the partition key; a legacy record is rewritten at the pre-database key with the partition dropped from its lists |
| KvCatalog.CreateThenDropInCatalogUndoes | internal/metastore/kv/rootcoord/kv_catalog.go:297-334 | dropping a created partition removes exactly the key a 2.1.0-or-later create wrote, or writes the legacy record back as it was at the same key |
| KvCatalog.LoadCollection | internal/metastore/kv/rootcoord/kv_catalog.go:251-281 | a record is found exactly when one of its record keys is stored; either default id prefers the default database and falls back to the pre-database record |
| KvCatalog.DefaultIdsLoadAlike | internal/metastore/kv/rootcoord/kv_catalog.go:1806-1811 | the default database id and the pre-database id load the same record |
| KvCatalog.LegacyRecordOnlyInDefaultDB | internal/metastore/kv/rootcoord/kv_catalog.go:263-281 | a pre-database record is found through either default id and not through another database |
| KvCatalog.LoadCollectionReadsOnlyRecordKeys | internal/metastore/kv/rootcoord/kv_catalog.go:251-281 | stores that agree on a request's record keys load the same record |
| KvCatalog.AppendPartitionAndFieldsInfo | internal/metastore/kv/rootcoord/kv_catalog.go:518-551 | a record with inline partitions and inline fields is used as it is and scans nothing; any other record takes its partitions, fields, struct-array fields and functions from the scans, and fails when a scan fails |
| KvCatalog.BatchAppendPartitionAndFieldsInfo | internal/metastore/kv/rootcoord/kv_catalog.go:553-595 | an inline record is used as it is; otherwise a failed scan fails the load, each of partitions, fields and functions comes from its map when the map has an entry and stays the record's own otherwise, and struct-array fields always stay the record's own |
| KvCatalog.BatchAppendAgreesWithAppend | internal/metastore/kv/rootcoord/kv_catalog.go:518-595 | with entries in every map, the batch path agrees with the one-record path on partitions, fields and functions, and on struct-array fields only for an inline record or equal lists |
| KvCatalog.AlterModifyCollection | internal/metastore/kv/rootcoord/kv_catalog.go:678-735 | a changed tenant or collection id is forbidden; a changed database must use AlterCollectionDB; otherwise the saved key map holds the merged collection at its key, and holds nothing else unless fields are modified |
| KvCatalog.AlterModifyStoresMerge | internal/metastore/kv/rootcoord/kv_catalog.go:685-700 | the stored collection keeps its identity and untouched attributes, and takes every modifiable attribute from the request |
| KvCatalog.AlterModifyToItselfRewritesIt | internal/metastore/kv/rootcoord/kv_catalog.go:678-707 | altering a collection to itself rewrites it unchanged at its own key |
| KvCatalog.AlterModifyWritesModifyKeys | internal/metastore/kv/rootcoord/kv_catalog.go:702-730 | the keys of a field-modifying alter are exactly the collection key, one field key per field and one struct-array key per struct-array field |
| KvCatalog.AlterModifyKeysAreDistinct | internal/metastore/kv/rootcoord/kv_catalog.go:707-730 | with distinct field ids, the saved key map has one entry for the collection, each field and each struct-array field |
| KvCatalog.AlterModifyLastFieldWins | internal/metastore/kv/rootcoord/kv_catalog.go:707-717 | a field holds its own value in the saved map unless a later field of the request has the same id: for a duplicated id the last write wins |
| KvCatalog.SavesKeepsLastWrite | internal/metastore/kv/rootcoord/kv_catalog.go:707-730 | a key in the saved map holds the value of the last write to that key |
| KvCatalog.SavesOfDistinctKeys | internal/metastore/kv/rootcoord/kv_catalog.go:707-730 | writes to distinct keys give a map with one entry per write |
| KvCatalog.AlterCollectionDB | internal/metastore/kv/rootcoord/kv_catalog.go:746-760 | a changed tenant or collection id is forbidden; otherwise the request is written at its database's key and the old key is removed |
| KvCatalog.AlterCollectionDBKeepsNewRecord | internal/metastore/kv/rootcoord/kv_catalog.go:746-760 | the removal spares the written key exactly when the database really changes |
| KvCatalog.AlterModifyPartition | internal/metastore/kv/rootcoord/kv_catalog.go:762-777 | a changed collection or partition id is forbidden; otherwise the request's name, time and state are written at the stored partition's key |
| MetaUtil.ReviseList | internal/datacoord/meta_util.go:29-68 | legacy segment infos are folded into the id list and cleared; the resulting ids are the first occurrences, without duplicates, of the same elements |
| MetaUtil.ReviseVChannelInfo | internal/datacoord/meta_util.go:28-69 | a nil record stays nil; each of the three lists is revised; the channel's other fields are kept |
| MetaUtil.ReviseIdempotent | internal/datacoord/meta_util.go:28-69 | revising an already revised record changes nothing |
| SeqUtil.FirstOccurrencesOrder | internal/datacoord/meta_util.go:29-39 | the de-duplicated list has each element once, in order of first occurrence |
| SeqUtil.RemoveDuplicates | internal/core/src/exec/expression/UnaryExpr.cpp:566-572 | the loop keeps exactly the first occurrence of every element, in order |
| GoStrings.FormatIntRoundTrip | internal/metastore/kv/rootcoord/kv_catalog.go:445 | parsing a formatted int64 id gives the id back |
| GoStrings.SplitConcat | internal/metastore/kv/rootcoord/kv_catalog.go:445 | splitting a concatenation at a separator splits each side and joins the pieces at the seam |
| TaskIndex.Lookup | internal/proxy/task_index.go:815 | the lookup fails exactly when no pair has the key, and otherwise returns the value of the first pair with that key |
| TaskIndex.LookupDistinct | internal/proxy/task_index.go:815 | on distinct keys, looking up any pair's key finds that pair's value |
| TaskIndex.WrapUserIndexParams | internal/proxy/task_index.go:121-132 | two pairs with distinct keys: the index type is AUTOINDEX and the metric type is the given one |
| TaskIndex.ParseFunctionParamsToIndex | internal/proxy/task_index.go:134-168 | nothing for non-function outputs and other functions; an Unknown function is an error; for BM25 the three parameters and the metric are defaulted where absent, and a metric other than BM25 is rejected |
| TaskIndex.ParseFunctionParamsIdempotent | internal/proxy/task_index.go:143-161 | filling in the function parameters a second time changes nothing |
| TaskIndex.FillDimension | internal/proxy/task_index.go:468-488 | non-vector fields are untouched; a schema without a dimension fails; a differing index dimension fails; a missing one is filled from the schema |
| TaskIndex.FillDimensionAgreesWithSchema | internal/proxy/task_index.go:468-488 | after a fill the index dimension equals the schema's, and filling again changes nothing |
| TaskIndex.TypeParamDimWins | internal/proxy/task_index.go:468-488 | when the type parameters name the dimension, a lookup over the type parameters followed by the index parameters finds the type parameters' value |
| TaskIndex.ParseExtraParams | internal/proxy/task_index.go:176-193 | only duplicated keys and undecodable `params` fail; success implies the keys were distinct |
| TaskIndex.ParseExtraParamsAccepts | internal/proxy/task_index.go:176-193 | distinct keys with decodable `params` entries are accepted |
| TaskIndex.ParseExtraParamsStoresEachPair | internal/proxy/task_index.go:190-192 | without a `params` entry, the parsed map holds exactly the request's pairs |
| TaskIndex.ParseExtraParamsKeys | internal/proxy/task_index.go:176-193 | the parsed map holds exactly the keys some entry writes: a pair's own key or a key of the decoded `params` object |
| TaskIndex.ParseExtraParamsLastWriteWins | internal/proxy/task_index.go:182-192 | each key holds the value of the last entry that writes it, whether a plain pair or the merged `params` object |
| TaskIndex.RepeatedExtraKeyIsRejected | internal/proxy/task_index.go:178-180 | a key repeated anywhere rejects the request |
| TaskIndex.KeyValueMap | internal/proxy/task_index.go:418-422 | the map has exactly the list's keys, each with its value when the keys are distinct |
| TaskIndex.SplitIndexAndTypeParams | internal/proxy/task_index.go:418-438 | dim and max_length leave the index parameters, which keep everything else with their values; index and type keys are disjoint; every type key ends up on one side, an emitted type parameter with the field's value |
| TaskIndex.SchemaDimStaysATypeParam | internal/proxy/task_index.go:424-438 | the schema's dimension and maximum length always stay type parameters, with their schema values |
| TaskIndex.DescribedParams | internal/proxy/task_index.go:813-819 | the user's own parameters when recorded, else the AUTOINDEX wrapper of the stored metric type, else none |
| TaskIndex.DescribedFieldName | internal/proxy/task_index.go:820-838 | the field's own name except for the dynamic field with a non-empty JSON path |
| TaskIndex.UnescapeEscapeRoundTrip | internal/proxy/task_index.go:834-836 | replacing `~1` then `~0` in an RFC 6901 escaped token gives back the member name |
| TaskIndex.DynamicFieldNameRoundTrip | internal/proxy/task_index.go:820-837 | a dynamic-field index on a member is described under that member's name, whatever `~` and `/` it contains and whatever deeper path follows |
| TaskIndex.CheckAlterIndexArgs | internal/proxy/task_index.go:645-662 | delete keys with extra parameters fail; otherwise the check passes exactly when every key named is configurable |
| TaskIndex.AlterIndex | internal/proxy/task_index.go:645-715 | argument errors come first, then a failed collection lookup, an empty index name, a failed or positive loaded check, each with its error; a request that passes them all is forwarded as given, with only parameters or only delete keys, every key configurable |
| Semver.Compare | internal/querycoordv2/task/executor.go:496 | a comparison is -1, 0 or 1, and 0 exactly for equal versions |
| Semver.CompareAntisymmetric | internal/querycoordv2/task/executor.go:496 | swapping the operands negates the comparison |
| Semver.LessTransitive | internal/querycoordv2/task/executor.go:496 | precedence is transitive |
| TaskExecutor.Dispatch | internal/querycoordv2/task/executor.go:137-149 | each action kind and type starts its one operation; a channel Update or StatsUpdate starts nothing |
| TaskExecutor.Execute | internal/querycoordv2/task/executor.go:118-152 | an index already executing or one past the cap is refused and the state is unchanged; otherwise it is admitted with the counter incremented; the counter stays equal to the set's size and within the cap |
| TaskExecutor.RemoveTask | internal/querycoordv2/task/executor.go:158-173 | the index leaves the set, the counter drops by one, and a task that ended without error leaves a signal pending |
| TaskExecutor.TakeSignal | internal/querycoordv2/task/executor.go:154-156 | receiving reports whether a signal was pending and empties the one slot |
| TaskExecutor.ExecuteThenRemoveRestores | internal/querycoordv2/task/executor.go:118-173 | admitting a step and removing it gives back the set and counter as they were |
| TaskExecutor.ShouldIncludeFlushedSegmentInfo | internal/querycoordv2/task/executor.go:491-497 | an unknown node gets false; otherwise true exactly when the node's version precedes 2.3.4, pre-releases of 2.3.4 included |

## Left out

- Concurrency is not modelled. This covers futures and `SemiInlineGet`, waiting on another loader's cell, and concurrent `set_cell`. Every load finishes inside the call that began it, so `PinInternal` requires a quiescent slot.
- Timeouts are not modelled: the reservation outcome is a parameter.
- Metrics, logging and the eviction list's LRU order are not modelled.
- The translator, the eviction list and `ListNode` (`pin()`, `manual_evict()`, `mark_loaded`) are not part of this model. Their effect on one cell is modelled from their use in `CacheSlot.h`.
- A column's `GetChunkIDsByOffsets` is a parameter. The pure-virtual accessors of the column interface are not modelled.
- `CacheSlot.PinInternal`: pins are counted as taken only when the whole request succeeds. This is the net effect of the collected pins being dropped on failure.
- The filter framework's batch driving is not modelled: `ProcessIndexChunks`, `ProcessDataChunks` and the bitmap input plumbing. Only the sub-batch functions and the checks named above are.
- Pattern matching (prefix, postfix, inner, regex) is a parameter of the JSON comparison. JSON doubles are exact reals, so rounding is not modelled.
- `CompareTwoJsonArray` is taken to be element-wise equality.
- The JSON index path (`ExecRangeVisitorImplJsonForIndex`) is not modelled beyond `SplitAtFirstSlashDigit`, `CanUseIndexForJson` and the choice of route in `JsonDispatch`. Whether an n-gram index answers is a parameter.
- The key-value store and protobuf marshalling are not modelled: alter and create operations return the writes they would make.
- The key prefix constants (`root-coord/...`) and `NonDBID`/`DefaultDBID` are defined in files that are not part of this model. Their upstream values are used.
- The RBAC, credential, alias-listing and database operations of the catalog are not modelled.
- `KvCatalog.LoadCollection`: the record decoding and `fixDefaultDBIDConsistency` (a rewrite of the record's database id) are not modelled; a stored record is a decoded `CollectionInfo`.
- `KvCatalog.AppendPartitionAndFieldsInfo`: the four scans (`listPartitionsAfter210`, `listFieldsAfter210`, `listStructArrayFieldsAfter210`, `listFunctions`) are one parameter, their lists or the first error; which scan failed, and the decoding of each item, are not modelled. Lists are modelled by ids.
- `KvCatalog.BatchAppendPartitionAndFieldsInfo`: modelled for one record; the batch scans, which the source runs when first needed and again for each later record while the partition map is still empty, are one parameter, their maps or the first error. Every run reads at the same timestamp, so reruns give the same maps.
- `funcutil.JSONToMap`, `indexparams.IsConfigableIndexParam` and `typeutil.IsVectorType` are parameters.
- `funcutil.GetAttrByKeyFromRepeatedKV` is not part of this model. `TaskIndex.Lookup` takes it to return the value of the first pair with the key.
- Not modelled from `parseIndexParams`:
  - the auto-index configuration;
  - `checkTrain`;
  - the JSON cast-type handling;
  - the mmap checks.
- Go map iteration order is not modelled: parameters are maps. This is why `TaskIndex.ParseExtraParams` states which pairs are stored, not in what order.
- `GetTaskExecutionCap` derives the cap from CPU count and configuration with a float ceiling; the cap is a parameter here. The RPC bodies of the load, release, subscribe and distribution operations are not modelled.
- `TaskExecutor.Execute`: the atomic counter is an unbounded integer.
- `CacheSlot.ManualEvict` requires an in-range cell id, because the source indexes the cell array without a check.
- `CacheSlot.ManualEvict`: that an eviction gives the cell's size back to the eviction list is the documented behaviour of `ListNode::manual_evict`, which is not part of this model.
- `CacheSlot.RunLoad`: the translator's fetch is taken to return exactly the requested cells. A fetch that returns other cells, or leaves out a requested cell (which the source leaves Loading), is not modelled.
- The blang/semver library is not part of this model. `Semver` follows section 11 of Semantic Versioning 2.0.0 and ignores build metadata.
- `UnaryExpr.PreCheckOverflow`: the offset input's contents are not modelled, only its size.

## Findings

| source | as written | input that shows it | evidently intended | confidence | as-written member | corrected member |
|---|---|---|---|---|---|---|
| internal/core/src/exec/expression/UnaryExpr.cpp:633-638 | NotEqual on an array literal sets bits only for candidate rows; a row without some literal element stays false | rows `[[2]]`, literal `[1]`, NotEqual: the row differs, but its bit is false | a non-candidate row differs from the literal, so NotEqual should be true for it | medium, not executed: the caller that combines this bitmap is not part of this model | ArrayEqualIndex.ExecArrayEqualForIndexAsWritten, ArrayEqualIndex.NotEqualMissesNonCandidates | ArrayEqualIndex.ExecArrayEqualForIndex |
| internal/core/src/exec/expression/UnaryExpr.cpp:835 | the array-literal branch of Equal/NotEqual reads `data[i]` where every other branch reads `data[offset]` | random access with rows `[missing, []]`, offsets `[1]`, literal `[]`, Equal: answers false for row 1, which holds `[]` | read `data[offset]`, as the scalar branches do (also at line 863) | high, not executed | UnaryExpr.JsonCompareAsWritten, UnaryExpr.ArrayBranchReadsWrongRow | UnaryExpr.JsonCompare |
| internal/metastore/kv/rootcoord/kv_catalog.go:370-372 | a collection's partitions are listed by scanning `root-coord/partitions/<id>` with no trailing slash | collection 1's scan also matches `root-coord/partitions/12/5`, a partition of collection 12 | scan the prefix followed by `/` | low, not executed: the store's prefix semantics are outside this model | KvCatalog.PartitionScanAsWrittenTakesInOtherCollections | KvCatalog.PartitionScanSelectsOnlyItsCollection |
