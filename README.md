# StarRocks: histogram cache loading, hash-join costing and the struct column

A Dafny model of three pieces of StarRocks:

- **Histogram statistics cache loader** (frontend, Java). It fills the optimizer's column-histogram cache. A single-key load queries one column's statistics row and decodes its JSON payload. A batch load issues one query for all keys and decodes every returned row. A reload is a fresh load. Decoding resolves the column in the catalog (database, then OLAP table, then column). It then turns the payload's `"buckets"` array into a bucket list and its `"top-n"` array into a value-to-frequency map. Dates and datetimes are decoded through their parsers, other values as doubles. Modules `HistogramCodec` (histogram_codec.dfy) and `HistogramStatsLoader` (histogram_loader.dfy).
- **Hash-join cost model** (frontend, Java). It derives the execution mode (none, broadcast, shuffle) from the children's physical properties. It prices CPU as build cost plus probe cost and memory as the right side's size, multiplied by the number of live backends for a broadcast. The per-row probe cost is a cache penalty. It grows with the logarithm of the hash table's size over 100000 entries, is reduced for shuffles by log2 of twice the parallelism, and is clamped to [1, 12] for broadcasts and [1, 3] otherwise. Module `HashJoinCost` (hash_join_cost.dfy).
- **Struct column** (backend, C++). A column of struct values, stored as one field column per struct member plus the member names. Every row operation forwards to all field columns. The invariant is that all fields hold the same number of rows and there is one name per field. Module `StructColumns` (struct_column.dfy), class `StructColumn`.

Shared `Option` and `Result` types live in wrappers.dfy.

Foreign code is passed in as parameters: the statistics query (`Fetch`), the value parsers (`Codec`), `Math.log` (`ln`), and a field column's rendering, byte size and checksum. The contracts hold for whatever these do, with one exception: the shuffle penalty divides by `ln(2.0)`, so ShufflePenalty, AvgProbeCost, CpuCost, CpuCostBounds and their callers require `ln(2.0) != 0.0`. Lemmas that need `ln` to behave like a logarithm say so with `IsLogarithm`. Java exceptions are values of the `Exception` datatype. `Surface` models the loader's catch clauses: unchecked exceptions pass unchanged, checked ones are wrapped in a `CompletionException`. Debug-only checks (`DCHECK`) on a struct column operation's arguments, such as an index below the size or a datum with one item per field, become preconditions. Two debug checks are modelled as results instead: check_or_die's structural checks give `CheckOrDie`'s boolean verdict, and field_column's `DCHECK(false)` for an unknown name gives `None`.

## Model

Source paths are relative to the repository root.

| member | source | states |
|---|---|---|
| HistogramCodec.DecodeValue | fe/fe-core/src/main/java/com/starrocks/sql/optimizer/statistics/ColumnHistogramStatsCacheLoader.java:134-145 | a DATE value goes through the date parser, a DATETIME value through the datetime parser, anything else through the double parser; the value is exactly the parser's result; a rejected text fails with a date-time-parse or number-format error |
| HistogramCodec.DecodeBucket | fe/fe-core/src/main/java/com/starrocks/sql/optimizer/statistics/ColumnHistogramStatsCacheLoader.java:130-149 | a non-array entry fails with an illegal-state error; for an array entry, the bucket decodes exactly when elements 0 and 1 decode by type and elements 2 and 3 parse as longs, and then carries those four values; otherwise the error is that of the first failing element in the order 0, 1, 2, 3, a missing element failing with index-out-of-bounds |
| HistogramCodec.DecodeTopNEntry | fe/fe-core/src/main/java/com/starrocks/sql/optimizer/statistics/ColumnHistogramStatsCacheLoader.java:161-173 | a non-array entry fails with an illegal-state error; for an array entry, the pair decodes exactly when element 0 decodes by type and element 1 parses as a long, and is then those two values; otherwise the error is that of element 0 if it fails, else that of element 1 |
| HistogramCodec.DecodeBucketExample | fe/fe-core/src/main/java/com/starrocks/sql/optimizer/statistics/ColumnHistogramStatsCacheLoader.java:130-149 | the entry ["1.5", "7", 10, 2] of a non-date column decodes to the bucket with bounds 1.5 and 7, count 10 and 2 upper repeats |
| HistogramCodec.ShortBucketEntry | fe/fe-core/src/main/java/com/starrocks/sql/optimizer/statistics/ColumnHistogramStatsCacheLoader.java:147-149 | an entry with only three elements, all decodable, fails with index-out-of-bounds on the fourth |
| HistogramCodec.AsString | fe/fe-core/src/main/java/com/starrocks/sql/optimizer/statistics/ColumnHistogramStatsCacheLoader.java:130-149 | getAsString of a string or number is its text; of null or an object it fails with unsupported-operation; of an array it is the single element's string, and an array of any other size fails with illegal-state |
| HistogramCodec.TextAt | fe/fe-core/src/main/java/com/starrocks/sql/optimizer/statistics/ColumnHistogramStatsCacheLoader.java:130-149 | element k's string when k is inside the array; index-out-of-bounds otherwise |
| HistogramCodec.DecodeAll | fe/fe-core/src/main/java/com/starrocks/sql/optimizer/statistics/ColumnHistogramStatsCacheLoader.java:129-151 | decoding a whole array succeeds with one result per entry, in order, each the entry's own decoding; a failure is the error of the first entry that fails |
| HistogramCodec.DecodeAllFailsAtPrefix | fe/fe-core/src/main/java/com/starrocks/sql/optimizer/statistics/ColumnHistogramStatsCacheLoader.java:129-151 | once a prefix of the entries fails, the whole array fails with that same error: later entries are never looked at |
| HistogramCodec.DecodeAllStep | fe/fe-core/src/main/java/com/starrocks/sql/optimizer/statistics/ColumnHistogramStatsCacheLoader.java:147-150 | one more entry either fails the whole array with its own error or appends its result to the decoded prefix |
| HistogramCodec.PutAllKeys | fe/fe-core/src/main/java/com/starrocks/sql/optimizer/statistics/ColumnHistogramStatsCacheLoader.java:159-174 | the map built by putting every pair holds exactly the pairs' keys and has no more entries than pairs |
| HistogramCodec.PutAllSnoc | fe/fe-core/src/main/java/com/starrocks/sql/optimizer/statistics/ColumnHistogramStatsCacheLoader.java:173 | putting one more pair updates the map at that pair's key and nowhere else |
| HistogramCodec.PutAllKeysOfDecoded | fe/fe-core/src/main/java/com/starrocks/sql/optimizer/statistics/ColumnHistogramStatsCacheLoader.java:159-174 | the map of the decoded pairs has as keys exactly the keys the decoder gives the entries |
| HistogramCodec.PutAllLastWins | fe/fe-core/src/main/java/com/starrocks/sql/optimizer/statistics/ColumnHistogramStatsCacheLoader.java:173 | the value kept under a key is that of the last pair carrying the key |
| HistogramCodec.MemberArray | fe/fe-core/src/main/java/com/starrocks/sql/optimizer/statistics/ColumnHistogramStatsCacheLoader.java:125-126 | reaching the "buckets" or "top-n" array succeeds exactly when the payload parsed, is an object and has that member as an array; unparsable text, a non-object, a missing member and a non-array member each fail with their own error |
| HistogramCodec.BucketsOf | fe/fe-core/src/main/java/com/starrocks/sql/optimizer/statistics/ColumnHistogramStatsCacheLoader.java:124-153 | the bucket list has one bucket per "buckets" entry, in order, each that entry's decoding; it succeeds exactly when every entry decodes |
| HistogramCodec.BucketsOfArray | fe/fe-core/src/main/java/com/starrocks/sql/optimizer/statistics/ColumnHistogramStatsCacheLoader.java:124-153 | the bucket list fails with the "buckets" array's own error when that array cannot be reached, and is otherwise the decoding of its entries: the buckets, or the first failing entry's error |
| HistogramCodec.TopNOf | fe/fe-core/src/main/java/com/starrocks/sql/optimizer/statistics/ColumnHistogramStatsCacheLoader.java:155-176 | a decoded top-N map has at most as many keys as the "top-n" array has entries |
| HistogramCodec.TopNOfArray | fe/fe-core/src/main/java/com/starrocks/sql/optimizer/statistics/ColumnHistogramStatsCacheLoader.java:155-176 | the top-N map fails with the "top-n" array's own error when that array cannot be reached, and is otherwise the map of the decoded pairs, or the first failing entry's error |
| HistogramCodec.TopNPairsLineUp | fe/fe-core/src/main/java/com/starrocks/sql/optimizer/statistics/ColumnHistogramStatsCacheLoader.java:160-173 | the decoded pairs line up one to one with the "top-n" entries |
| HistogramCodec.TopNKeys | fe/fe-core/src/main/java/com/starrocks/sql/optimizer/statistics/ColumnHistogramStatsCacheLoader.java:155-176 | a decoded top-N map's keys are exactly the decoded values of the "top-n" entries, every one of which decodes |
| HistogramCodec.TopNOfAllDecode | fe/fe-core/src/main/java/com/starrocks/sql/optimizer/statistics/ColumnHistogramStatsCacheLoader.java:155-176 | a "top-n" array whose entries all decode always yields a map: with TopNKeys, the map exists exactly when every entry decodes |
| HistogramCodec.TopNLastEntryWins | fe/fe-core/src/main/java/com/starrocks/sql/optimizer/statistics/ColumnHistogramStatsCacheLoader.java:173 | when two entries decode to the same value, the frequency of the later one is kept |
| HistogramCodec.ConvertBuckets | fe/fe-core/src/main/java/com/starrocks/sql/optimizer/statistics/ColumnHistogramStatsCacheLoader.java:124-153 | the loop over the "buckets" array returns exactly BucketsOf: the same buckets or the same first error |
| HistogramCodec.DecodeIntoMap | fe/fe-core/src/main/java/com/starrocks/sql/optimizer/statistics/ColumnHistogramStatsCacheLoader.java:159-174 | the loop that decodes the entries in order and puts each pair returns the map of all decoded pairs, or the error of the first entry that fails |
| HistogramCodec.ConvertTopN | fe/fe-core/src/main/java/com/starrocks/sql/optimizer/statistics/ColumnHistogramStatsCacheLoader.java:155-176 | the loop over the "top-n" array returns exactly TopNOf: the same map or the same first error |
| HistogramStatsLoader.Surface | fe/fe-core/src/main/java/com/starrocks/sql/optimizer/statistics/ColumnHistogramStatsCacheLoader.java:58-62 | what escapes a load is always unchecked: unchecked exceptions unchanged, any other wrapped as a CompletionException whose cause is the original |
| HistogramStatsLoader.ColumnTypeOf | fe/fe-core/src/main/java/com/starrocks/sql/optimizer/statistics/ColumnHistogramStatsCacheLoader.java:106-117 | a missing database reports ERR_BAD_DB_ERROR with the database id; a missing or non-OLAP table reports ERR_BAD_TABLE_ERROR with the table id; a missing column reports ERR_BAD_FIELD_ERROR with the column name; otherwise the column's type |
| HistogramStatsLoader.Convert2Histogram | fe/fe-core/src/main/java/com/starrocks/sql/optimizer/statistics/ColumnHistogramStatsCacheLoader.java:105-122 | the catalog error comes first; then a bucket error; then a top-N error; it succeeds exactly when the column resolves and both arrays decode, with the decoded buckets and top-N map |
| HistogramStatsLoader.CatalogCheckedBeforeDecoding | fe/fe-core/src/main/java/com/starrocks/sql/optimizer/statistics/ColumnHistogramStatsCacheLoader.java:105-118 | a row whose column does not resolve fails with the same analysis error whatever its payload and parsers |
| HistogramStatsLoader.Present | fe/fe-core/src/main/java/com/starrocks/sql/optimizer/statistics/ColumnHistogramStatsCacheLoader.java:53-62 | a row that converts gives Some of its histogram; a row that fails gives the conversion's error, surfaced as the catch clauses do, so always unchecked |
| HistogramStatsLoader.Load | fe/fe-core/src/main/java/com/starrocks/sql/optimizer/statistics/ColumnHistogramStatsCacheLoader.java:46-64 | the query for the key's table and single column is made; its failure surfaces through the catch clauses; no row gives an empty result; otherwise the first row's histogram or its decoding error, surfaced; every error is unchecked |
| HistogramStatsLoader.LoadQueriesOneColumn | fe/fe-core/src/main/java/com/starrocks/sql/optimizer/statistics/ColumnHistogramStatsCacheLoader.java:50-51 | the load depends on the statistics query only at the key's table and the one-element list of its column |
| HistogramStatsLoader.LoadIgnoresLaterRows | fe/fe-core/src/main/java/com/starrocks/sql/optimizer/statistics/ColumnHistogramStatsCacheLoader.java:53-54 | two query results with the same first row load the same: rows after the first are ignored |
| HistogramStatsLoader.Reload | fe/fe-core/src/main/java/com/starrocks/sql/optimizer/statistics/ColumnHistogramStatsCacheLoader.java:94-99 | a reload is a fresh load of the key; the old value plays no part |
| HistogramStatsLoader.LastTableId | fe/fe-core/src/main/java/com/starrocks/sql/optimizer/statistics/ColumnHistogramStatsCacheLoader.java:72-77 | the batch query's table is -1 for no keys and otherwise the last key's table |
| HistogramStatsLoader.ColumnsOf | fe/fe-core/src/main/java/com/starrocks/sql/optimizer/statistics/ColumnHistogramStatsCacheLoader.java:73-77 | the batch query's columns are the keys' columns, one per key, in key order |
| HistogramStatsLoader.LoadAllResult | fe/fe-core/src/main/java/com/starrocks/sql/optimizer/statistics/ColumnHistogramStatsCacheLoader.java:67-92 | a failing query fails the batch with its exception, surfaced; otherwise the batch succeeds exactly when every returned row converts, and fails with the surfaced exception of the first row that does not; every error is unchecked |
| HistogramStatsLoader.RowEntriesOutcome | fe/fe-core/src/main/java/com/starrocks/sql/optimizer/statistics/ColumnHistogramStatsCacheLoader.java:80-82 | decoding the returned rows succeeds exactly when every row converts, and otherwise fails with the error of the first row that does not |
| HistogramStatsLoader.LoadAllKeys | fe/fe-core/src/main/java/com/starrocks/sql/optimizer/statistics/ColumnHistogramStatsCacheLoader.java:78-85 | a successful batch result holds exactly the (table, column) keys of the returned rows, each with a histogram; a requested column that was not returned is absent; the value under a row's key is that row's own decoded histogram unless a later row has the same key |
| HistogramStatsLoader.RowEntriesKeys | fe/fe-core/src/main/java/com/starrocks/sql/optimizer/statistics/ColumnHistogramStatsCacheLoader.java:80-82 | putting the decoded rows gives a map whose keys are exactly the rows' keys, each with a histogram |
| HistogramStatsLoader.RowEntriesLastWins | fe/fe-core/src/main/java/com/starrocks/sql/optimizer/statistics/ColumnHistogramStatsCacheLoader.java:80-82 | a row whose key no later row repeats leaves its own decoded histogram under that key |
| HistogramCodec.PutAllValueFromSomePair | fe/fe-core/src/main/java/com/starrocks/sql/optimizer/statistics/ColumnHistogramStatsCacheLoader.java:81-82 | every value in the map built from the pairs is the value of one of the pairs carrying its key; the batch load uses it for the rows it puts |
| HistogramStatsLoader.LoadAllQueriesOnce | fe/fe-core/src/main/java/com/starrocks/sql/optimizer/statistics/ColumnHistogramStatsCacheLoader.java:78 | the batch load depends on the statistics query only at the last key's table and all keys' columns |
| HistogramStatsLoader.LoadAll | fe/fe-core/src/main/java/com/starrocks/sql/optimizer/statistics/ColumnHistogramStatsCacheLoader.java:67-92 | the two loops (collect table and columns, then decode and put every row) return exactly LoadAllResult |
| HashJoinCost.DeriveJoinExecMode | fe/fe-core/src/main/java/com/starrocks/sql/optimizer/cost/HashJoinCostModel.java:134-142 | no input properties gives EMPTY; otherwise BROADCAST exactly when the right child's property is a broadcast, SHUFFLE exactly when it is not |
| HashJoinCost.ParallelFactor | fe/fe-core/src/main/java/com/starrocks/sql/optimizer/cost/HashJoinCostModel.java:71-72 | the parallel factor is the larger of the live backends and the degree of parallelism |
| HashJoinCost.KeyContribution | fe/fe-core/src/main/java/com/starrocks/sql/optimizer/cost/HashJoinCostModel.java:109-113 | a predicate adds the right child's average size of its left column when that column has statistics, else that of its right column, else nothing |
| HashJoinCost.KeySize | fe/fe-core/src/main/java/com/starrocks/sql/optimizer/cost/HashJoinCostModel.java:105-114 | the key size is non-negative when the column sizes are, and 0 when no predicate column has statistics on the right side |
| HashJoinCost.SumKeySize | fe/fe-core/src/main/java/com/starrocks/sql/optimizer/cost/HashJoinCostModel.java:105-114 | the accumulation loop computes KeySize: per predicate the left column's size if known, else the right column's, else nothing |
| HashJoinCost.BroadcastPenalty | fe/fe-core/src/main/java/com/starrocks/sql/optimizer/cost/HashJoinCostModel.java:120-123 | the broadcast penalty lies in [1, 12]: 1 while ln(mapSize / 100000) is at most 1, 12 once it reaches 12, that logarithm in between |
| HashJoinCost.ShufflePenalty | fe/fe-core/src/main/java/com/starrocks/sql/optimizer/cost/HashJoinCostModel.java:124-129 | the non-broadcast penalty lies in [1, 3]: the same logarithm less log2 of twice the parallel factor, clamped |
| HashJoinCost.MapSize | fe/fe-core/src/main/java/com/starrocks/sql/optimizer/cost/HashJoinCostModel.java:118 | the hash table holds all right rows when the key size is at least 1, and the key size times the right rows when it is smaller |
| HashJoinCost.AvgProbeCost | fe/fe-core/src/main/java/com/starrocks/sql/optimizer/cost/HashJoinCostModel.java:103-132 | a broadcast join's probe cost is BroadcastPenalty of the hash table size and any other join's is ShufflePenalty of that size and the parallel factor; so it is at least 1, at most 12 for a broadcast join and at most 3 otherwise |
| HashJoinCost.CpuCost | fe/fe-core/src/main/java/com/starrocks/sql/optimizer/cost/HashJoinCostModel.java:65-87 | EMPTY: right output plus left output; BROADCAST: right output plus left output times the probe cost; SHUFFLE: right output over the parallel factor plus left output times the probe cost |
| HashJoinCost.CpuCostBounds | fe/fe-core/src/main/java/com/starrocks/sql/optimizer/cost/HashJoinCostModel.java:65-87 | with a non-negative left output, the CPU cost lies between build plus left output and build plus 12 (broadcast) or 3 (shuffle) times the left output |
| HashJoinCost.MemCost | fe/fe-core/src/main/java/com/starrocks/sql/optimizer/cost/HashJoinCostModel.java:89-101 | a broadcast join holds the right output once per live backend (at least one); any other join holds it once |
| HashJoinCost.BroadcastMemoryDominates | fe/fe-core/src/main/java/com/starrocks/sql/optimizer/cost/HashJoinCostModel.java:89-101 | with a non-negative right output, memory cost is never below the right output, equals it for non-broadcast joins, and broadcasting the same join never costs less memory |
| HashJoinCost.MemCostExample | fe/fe-core/src/main/java/com/starrocks/sql/optimizer/cost/HashJoinCostModel.java:93-98 | a right output of 50 on four live backends costs 200 broadcast and 50 shuffled |
| HashJoinCost.MapSizeBounds | fe/fe-core/src/main/java/com/starrocks/sql/optimizer/cost/HashJoinCostModel.java:118 | the hash table never has more entries than the right child has rows, and exactly that many when the key size is at least 1 |
| HashJoinCost.MapSizeMonotone | fe/fe-core/src/main/java/com/starrocks/sql/optimizer/cost/HashJoinCostModel.java:118 | with a non-negative key size, more right rows never give a smaller hash table |
| HashJoinCost.SmallTableNoPenalty | fe/fe-core/src/main/java/com/starrocks/sql/optimizer/cost/HashJoinCostModel.java:115-129 | a hash table of at most 100000 entries pays no penalty (probe cost 1) in either mode, given a parallel factor of at least 1 |
| HashJoinCost.HugeBroadcastTableSaturates | fe/fe-core/src/main/java/com/starrocks/sql/optimizer/cost/HashJoinCostModel.java:120-123 | 10^12 right rows with a key of size at least 1 saturate the broadcast penalty at 12 |
| HashJoinCost.PenaltyMonotoneInRows | fe/fe-core/src/main/java/com/starrocks/sql/optimizer/cost/HashJoinCostModel.java:118-129 | more right rows never lower the probe cost, in any mode |
| HashJoinCost.ShufflePenaltyAtMostBroadcast | fe/fe-core/src/main/java/com/starrocks/sql/optimizer/cost/HashJoinCostModel.java:120-129 | for the same hash table, the shuffle penalty never exceeds the broadcast penalty |
| StructColumns.Resized | be/src/column/struct_column.cpp:64-69 | a resized field has exactly n rows: its old rows up to n, then its padding value |
| StructColumns.RowAt | be/src/column/struct_column.cpp:366-373 | row idx across the fields has one item per field, item i being field i's row idx |
| StructColumns.RowAtAfterAppend | be/src/column/struct_column.cpp:108-114 | after adding one row to every field, the new row reads back as the appended items and older rows are unchanged |
| StructColumns.RowAtAfterAppendRange | be/src/column/struct_column.cpp:122-129 | after appending a range, row n + j reads back as the source's row offset + j |
| StructColumns.SumSizesBoundsEach | be/src/column/struct_column.cpp:37-45 | no field's byte size exceeds the fields' total |
| StructColumns.JoinSnoc | be/src/column/struct_column.cpp:351-360 | one more item adds ", " only when items came before it |
| StructColumns.JoinLength | be/src/column/struct_column.cpp:351-360 | n > 0 joined parts carry exactly n - 1 two-character separators |
| StructColumns.Entries | be/src/column/struct_column.cpp:336-345 | entry i is field i's name, ": ", and field column i's own debug_item of the row |
| StructColumns.ItemText | be/src/column/struct_column.cpp:332-349 | a rendered row starts with '{' and ends with '}' |
| StructColumns.Items | be/src/column/struct_column.cpp:351-360 | one rendered item per row, item j being row j's rendering |
| StructColumns.ItemTextExample | be/src/column/struct_column.cpp:332-349 | a row with fields a = 1 and b = x renders as "{a: 1, b: x}" |
| StructColumns.XorFoldSingle | be/src/column/struct_column.cpp:307-314 | the XOR of one field's checksum is that checksum |
| StructColumns.XorChecksumDiscardsFields | be/src/column/struct_column.cpp:307-314 | a one-field column whose field checksum is 1 has a non-zero XOR of field checksums, where xor_checksum returns 0 |
| StructColumns.StructColumn.Size | be/src/column/struct_column.cpp:25-27 | the size is field 0's row count, and under the invariant every field's |
| StructColumns.StructColumn.CheckOrDie | be/src/column/struct_column.cpp:400-406 | the check passes exactly when there is a field and as many names as fields; every valid column passes |
| StructColumns.StructColumn.Get | be/src/column/struct_column.cpp:366-373 | needs idx below the size; returns a struct datum with one item per field, item i being field i's row idx |
| StructColumns.StructColumn.AppendDatum | be/src/column/struct_column.cpp:108-114 | needs a struct datum with one item per field; item i is appended to field i, the size grows by 1, the new row reads back as the datum, older rows are unchanged |
| StructColumns.StructColumn.Append | be/src/column/struct_column.cpp:122-129 | field i gains the source's field i rows [offset, offset + count), also when the source is this column; the size grows by count and the new rows read back as the source's rows |
| StructColumns.StructColumn.AppendNulls | be/src/column/struct_column.cpp:165-179 | returns true exactly when every field is nullable; then every field gains count nulls; otherwise nothing changes |
| StructColumns.StructColumn.AppendDefaults | be/src/column/struct_column.cpp:207-211 | every field gains count copies of its own default value |
| StructColumns.StructColumn.AppendDefault | be/src/column/struct_column.cpp:201-205 | every field gains one copy of its own default value |
| StructColumns.StructColumn.RemoveFirstNValues | be/src/column/struct_column.cpp:116-120 | every field loses its first count rows; the size drops by count and row j is the old row j + count |
| StructColumns.StructColumn.Resize | be/src/column/struct_column.cpp:64-69 | every field is resized to n rows; rows below both sizes are unchanged |
| StructColumns.StructColumn.CloneEmpty | be/src/column/struct_column.cpp:266-277 | a new valid column with the same names and field kinds and no rows |
| StructColumns.StructColumn.AppendValueMultipleTimes | be/src/column/struct_column.cpp:189-199 | every field i gains count copies of the datum's item i |
| StructColumns.StructColumn.SwapColumn | be/src/column/struct_column.cpp:384-390 | the two columns exchange their field columns; names stay |
| StructColumns.StructColumn.Assign | be/src/column/struct_column.cpp:99-106 | leaves exactly n rows, every one equal to the old row idx; names and field kinds unchanged |
| StructColumns.StructColumn.FieldColumn | be/src/column/struct_column.cpp:429-437 | the field at the first position whose name matches; none exactly when no name matches |
| StructColumns.StructColumn.ByteSize | be/src/column/struct_column.cpp:37-45 | the sum of the fields' byte sizes plus the names' byte size, so at least each field's size and the names' size |
| StructColumns.StructColumn.HasLargeColumn | be/src/column/struct_column.cpp:91-97 | true exactly when some field is a large column |
| StructColumns.ItemTextStep | be/src/column/struct_column.cpp:336-345 | writing one more entry, then ", " unless it is the last, extends the text of the entries so far |
| StructColumns.StructColumn.DebugItem | be/src/column/struct_column.cpp:332-349 | the row rendered as "{" + the entries separated by ", " + "}", with no separator after the last field |
| StructColumns.StructColumn.DebugString | be/src/column/struct_column.cpp:351-360 | the rendered rows joined by ", ", so for n > 0 rows exactly the rows' text plus n - 1 two-character separators long |
| StructColumns.StructColumn.XorChecksum | be/src/column/struct_column.cpp:307-314 | as written: the result is always 0 |
| StructColumns.StructColumn.XorChecksumOfFields | be/src/column/struct_column.cpp:307-314 | corrected: the XOR of the fields' checksums over the range |

## Left out

- The asynchronous machinery (CompletableFuture, the executor, the Caffeine cache) is not modelled; each load is the value its future completes with.
- JSON text parsing is not modelled: a payload arrives as a parsed `Json` tree, or `None` for text the parser rejects.
- The date and datetime parsers, getLongFromDateTime, Double.parseDouble and Long.parseLong are parameters (`Codec`), because they are library code.
- The statistics query (StatisticExecutor.queryHistogram) is a parameter (`Fetch`), because it runs SQL against the backends.
- The catalog is maps from ids and names; Table.getColumn is not part of this model, so column lookup is exact map membership.
- Java doubles are modelled as reals: no NaN, infinities or rounding, and map keys compare as reals.
- HashJoinCost.DeriveJoinExecMode: requires the input properties not to be a one-element list, where `inputProperties.get(1)` would throw IndexOutOfBoundsException; AvgProbeCost, CpuCost and MemCost inherit this precondition. A hash join's input properties cover both children or are empty, so the exception path is not modelled.
- The casts of each equi-join predicate's children to ColumnRefOperator in getAvgProbeCost are assumed to succeed: a predicate is a pair of column references, and the ClassCastException of a non-column child is not modelled.
- HashJoinCost.CpuCost: requires a non-zero parallel factor for shuffles, where Java divides to an infinity or NaN.
- HashJoinCost.ShufflePenalty: the parallel factor times 2 is not wrapped at 32 bits, and a non-positive factor yields whatever `ln` gives rather than Java's NaN or negative infinity.
- `Math.log` is the parameter `ln`, because the model has no transcendental functions.
- The ExpressionContext, ConnectContext and the children's `getOutputSize` are not modelled; their results are fields of `CostModel` and `Runtime`. The left child's statistics are used only through its output size.
- The field columns' own classes are not part of this model: a field is its rows plus whether it is nullable and large, what append_default adds and what resize pads with.
- A field column's debug_item, byte size and checksum are parameters that receive the field column, because the field columns' own classes are not part of this model.
- StructColumns.StructColumn.Append: requires offset + count at most the source's size, because what a field column reads beyond its rows is not part of this model.
- StructColumns.StructColumn.RemoveFirstNValues: requires count at most the size, because what a field column does beyond its size is not part of this model.
- StructColumns.StructColumn.SwapColumn: requires two distinct columns; swapping a column with itself is not modelled.
- StructColumns.StructColumn.FieldColumn: returns the field's value, not a shared pointer, so later changes through the returned field are not modelled.
- StructColumns.StructColumn.CheckOrDie: the field columns' and the names column's own checks are not modelled.
- StructColumns.StructColumn.ByteSize: `size_t` wrap-around is not modelled. The per-row overload byte_size(idx) is ByteSize with a per-row size function.
- StructColumns.StructColumn.DebugItem: a field column's debug_item is the parameter `render`, applied to the field column and the row index.
- The other struct column operations are not modelled: serialization, hashing, fill_default, update_rows, append_selective, the column form of append_value_multiple_times, filter_range, reserve, capacity, upgrade_if_overflow, downgrade, memory accounting, reset_column and put_mysql_row_buffer.
- be/src/exec/workgroup/work_group_fwd.h holds forward declarations and a type alias and has no behaviour to model.

## Findings

| source | as written | input that shows it | evidently intended | confidence | as-written member | corrected member |
|---|---|---|---|---|---|---|
| be/src/column/struct_column.cpp:307-314 | each field's xor_checksum(from, to) is computed and discarded; the local checksum stays 0 and is returned | a struct column with one field whose checksum over [from, to) is 1 returns 0 | the XOR of the fields' checksums | not executed; high | StructColumns.StructColumn.XorChecksum, StructColumns.XorChecksumDiscardsFields | StructColumns.StructColumn.XorChecksumOfFields |
