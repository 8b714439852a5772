/**
 * The value each load of the column histogram cache completes with
 * (asyncLoad, asyncLoadAll, asyncReload and convert2Histogram of
 * ColumnHistogramStatsCacheLoader).
 *
 * The statistics query is a parameter `fetch`; the catalog is a value. The
 * asynchronous wrapping is not modelled: each operation returns the value
 * its future completes with, or the exception it completes with.
 */
module HistogramStatsLoader {
  import opened Wrappers
  import opened HistogramCodec

  /** A cache key: a table and one of its columns. */
  datatype CacheKey = CacheKey(tableId: int, column: string)

  /** One row returned by the statistics query; `histogram` is the parsed payload. */
  datatype StatsRow = StatsRow(dbId: int, tableId: int, columnName: string, histogram: Option<Json>)

  /** A table as far as the loader asks: whether it is an OLAP table, and its columns' types. */
  datatype Table = Table(isOlap: bool, columns: map<string, ColumnType>)

  datatype Database = Database(tables: map<int, Table>)

  /** The catalog: databases by id. */
  datatype Catalog = Catalog(dbs: map<int, Database>)

  /** The statistics query: a table id and column names to the rows it returns, or what it throws. */
  type Fetch = (int, seq<string>) -> Outcome<seq<StatsRow>>

  /** What the loader's catch clauses let through: unchecked exceptions unchanged, others wrapped. */
  function Surface(e: Exception): (r: Exception)
    ensures IsRuntime(r)
    ensures IsRuntime(e) ==> r == e
    ensures !IsRuntime(e) ==> r.CompletionException? && r.cause == e
  {
    if IsRuntime(e) then e else CompletionException(e)
  }

  /** The key under which a row is reported. */
  function KeyOf(row: StatsRow): CacheKey {
    CacheKey(row.tableId, row.columnName)
  }

  /**
   * The type of the row's column, checked in the source's order: the
   * database, then the table (which must be an OLAP table), then the column.
   */
  function ColumnTypeOf(row: StatsRow, catalog: Catalog): (r: Outcome<ColumnType>)
    ensures row.dbId !in catalog.dbs ==> r == Err(AnalysisException(ErrBadDbError(row.dbId)))
    ensures row.dbId in catalog.dbs ==>
      var tables := catalog.dbs[row.dbId].tables;
      && (row.tableId !in tables || !tables[row.tableId].isOlap ==>
            r == Err(AnalysisException(ErrBadTableError(row.tableId))))
      && (row.tableId in tables && tables[row.tableId].isOlap ==>
            var columns := tables[row.tableId].columns;
            && (row.columnName !in columns ==> r == Err(AnalysisException(ErrBadFieldError(row.columnName))))
            && (row.columnName in columns ==> r == Ok(columns[row.columnName])))
  {
    if row.dbId !in catalog.dbs then Err(AnalysisException(ErrBadDbError(row.dbId)))
    else
      var db := catalog.dbs[row.dbId];
      if row.tableId !in db.tables || !db.tables[row.tableId].isOlap then
        Err(AnalysisException(ErrBadTableError(row.tableId)))
      else
        var table := db.tables[row.tableId];
        if row.columnName !in table.columns then Err(AnalysisException(ErrBadFieldError(row.columnName)))
        else Ok(table.columns[row.columnName])
  }

  /**
   * convert2Histogram: resolves the column, then decodes the buckets and
   * then the top-N map of the payload with the column's type.
   */
  function Convert2Histogram(row: StatsRow, catalog: Catalog, codec: Codec): (r: Outcome<Histogram>)
    ensures ColumnTypeOf(row, catalog).Err? ==> r == Err(ColumnTypeOf(row, catalog).error)
    ensures ColumnTypeOf(row, catalog).Ok? ==>
      var t := ColumnTypeOf(row, catalog).value;
      && (BucketsOf(row.histogram, t, codec).Err? ==> r == Err(BucketsOf(row.histogram, t, codec).error))
      && (BucketsOf(row.histogram, t, codec).Ok? && TopNOf(row.histogram, t, codec).Err? ==>
            r == Err(TopNOf(row.histogram, t, codec).error))
      && (r.Ok? <==> BucketsOf(row.histogram, t, codec).Ok? && TopNOf(row.histogram, t, codec).Ok?)
      && (r.Ok? ==> r.value.buckets == BucketsOf(row.histogram, t, codec).value
                    && r.value.topN == TopNOf(row.histogram, t, codec).value)
  {
    var t :- ColumnTypeOf(row, catalog);
    var buckets :- BucketsOf(row.histogram, t, codec);
    var topN :- TopNOf(row.histogram, t, codec);
    Ok(Histogram(buckets, topN))
  }

  /** A row whose column does not resolve fails the same way whatever its payload: nothing is decoded. */
  lemma CatalogCheckedBeforeDecoding(row: StatsRow, payload: Option<Json>, catalog: Catalog, codec: Codec, codec': Codec)
    requires ColumnTypeOf(row, catalog).Err?
    ensures Convert2Histogram(row, catalog, codec) == Convert2Histogram(row.(histogram := payload), catalog, codec')
    ensures Convert2Histogram(row, catalog, codec).error.AnalysisException?
  {
  }

  /** The outcome of decoding one returned row, as the single-key load reports it. */
  function Present(row: StatsRow, catalog: Catalog, codec: Codec): (r: Outcome<Option<Histogram>>)
    ensures r.Ok? <==> Convert2Histogram(row, catalog, codec).Ok?
    ensures r.Ok? ==> r.value == Some(Convert2Histogram(row, catalog, codec).value)
    ensures r.Err? ==> IsRuntime(r.error) && r.error == Surface(Convert2Histogram(row, catalog, codec).error)
  {
    match Convert2Histogram(row, catalog, codec)
    case Ok(h) => Ok(Some(h))
    case Err(e) => Err(Surface(e))
  }

  /**
   * asyncLoad: queries the key's one column; no row means no histogram,
   * otherwise the first row alone is decoded.
   */
  function Load(key: CacheKey, fetch: Fetch, catalog: Catalog, codec: Codec): (r: Outcome<Option<Histogram>>)
    ensures fetch(key.tableId, [key.column]).Err? ==> r == Err(Surface(fetch(key.tableId, [key.column]).error))
    ensures fetch(key.tableId, [key.column]).Ok? ==>
      var rows := fetch(key.tableId, [key.column]).value;
      && (|rows| == 0 ==> r == Ok(None))
      && (|rows| > 0 ==> r == Present(rows[0], catalog, codec))
    ensures r.Err? ==> IsRuntime(r.error)
  {
    match fetch(key.tableId, [key.column])
    case Err(e) => Err(Surface(e))
    case Ok(rows) => if |rows| == 0 then Ok(None) else Present(rows[0], catalog, codec)
  }

  /** A load asks the statistics query about the key's table and column only. */
  lemma LoadQueriesOneColumn(key: CacheKey, fetch: Fetch, fetch': Fetch, catalog: Catalog, codec: Codec)
    requires fetch(key.tableId, [key.column]) == fetch'(key.tableId, [key.column])
    ensures Load(key, fetch, catalog, codec) == Load(key, fetch', catalog, codec)
  {
  }

  /** Rows after the first one are ignored. */
  lemma LoadIgnoresLaterRows(key: CacheKey, fetch: Fetch, fetch': Fetch, catalog: Catalog, codec: Codec)
    requires fetch(key.tableId, [key.column]).Ok? && fetch'(key.tableId, [key.column]).Ok?
    requires var rows := fetch(key.tableId, [key.column]).value;
      var rows' := fetch'(key.tableId, [key.column]).value;
      |rows| > 0 && |rows'| > 0 && rows[0] == rows'[0]
    ensures Load(key, fetch, catalog, codec) == Load(key, fetch', catalog, codec)
  {
  }

  /** asyncReload: the old value is ignored and the key is loaded afresh. */
  function Reload(key: CacheKey, oldValue: Option<Histogram>, fetch: Fetch, catalog: Catalog, codec: Codec)
    : (r: Outcome<Option<Histogram>>)
    ensures r == Load(key, fetch, catalog, codec)
  {
    Load(key, fetch, catalog, codec)
  }

  /** The table a batch load queries: that of the last key, or -1 for no keys. */
  function LastTableId(keys: seq<CacheKey>): (id: int)
    ensures |keys| == 0 ==> id == -1
    ensures |keys| > 0 ==> id == keys[|keys| - 1].tableId
  {
    if |keys| == 0 then -1 else keys[|keys| - 1].tableId
  }

  /** The columns a batch load queries: every key's column, in key order. */
  function ColumnsOf(keys: seq<CacheKey>): (columns: seq<string>)
    ensures |columns| == |keys|
    ensures forall i :: 0 <= i < |keys| ==> columns[i] == keys[i].column
  {
    if |keys| == 0 then [] else ColumnsOf(keys[..|keys| - 1]) + [keys[|keys| - 1].column]
  }

  /** One returned row as a batch-result entry. */
  function RowEntry(row: StatsRow, catalog: Catalog, codec: Codec): Outcome<(CacheKey, Option<Histogram>)> {
    var h :- Convert2Histogram(row, catalog, codec);
    Ok((KeyOf(row), Some(h)))
  }

  function RowDecoder(catalog: Catalog, codec: Codec): StatsRow -> Outcome<(CacheKey, Option<Histogram>)> {
    row => RowEntry(row, catalog, codec)
  }

  /** The entries of a batch result, one per returned row, in row order. */
  function RowEntries(rows: seq<StatsRow>, catalog: Catalog, codec: Codec): Outcome<seq<(CacheKey, Option<Histogram>)>> {
    DecodeAll(rows, RowDecoder(catalog, codec))
  }

  /** Row i is the first returned row whose conversion fails. */
  predicate FirstFailingRow(rows: seq<StatsRow>, catalog: Catalog, codec: Codec, i: nat)
    requires i < |rows|
  {
    && Convert2Histogram(rows[i], catalog, codec).Err?
    && forall j :: 0 <= j < i ==> Convert2Histogram(rows[j], catalog, codec).Ok?
  }

  /**
   * Decoding the returned rows succeeds exactly when every row converts;
   * otherwise it fails with the error of the first row that does not.
   */
  lemma RowEntriesOutcome(rows: seq<StatsRow>, catalog: Catalog, codec: Codec)
    ensures RowEntries(rows, catalog, codec).Ok? <==>
      forall i :: 0 <= i < |rows| ==> Convert2Histogram(rows[i], catalog, codec).Ok?
    ensures RowEntries(rows, catalog, codec).Err? ==>
      exists i :: 0 <= i < |rows| && FirstFailingRow(rows, catalog, codec, i)
        && RowEntries(rows, catalog, codec).error == Convert2Histogram(rows[i], catalog, codec).error
  {
    var f := RowDecoder(catalog, codec);
    var d := DecodeAll(rows, f);
    if d.Ok? {
      forall i | 0 <= i < |rows| ensures Convert2Histogram(rows[i], catalog, codec).Ok? {
        assert f(rows[i]) == Ok(d.value[i]);
      }
    } else {
      var i :| 0 <= i < |rows| && f(rows[i]) == Err(d.error) && forall j :: 0 <= j < i ==> f(rows[j]).Ok?;
      forall j | 0 <= j < i ensures Convert2Histogram(rows[j], catalog, codec).Ok? {
        assert f(rows[j]).Ok?;
      }
      assert FirstFailingRow(rows, catalog, codec, i);
    }
  }

  /** asyncLoadAll: one query for all keys' columns, then every returned row decoded into the result. */
  function LoadAllResult(keys: seq<CacheKey>, fetch: Fetch, catalog: Catalog, codec: Codec)
    : (r: Outcome<map<CacheKey, Option<Histogram>>>)
    ensures r.Err? ==> IsRuntime(r.error)
    ensures fetch(LastTableId(keys), ColumnsOf(keys)).Err? ==>
      r == Err(Surface(fetch(LastTableId(keys), ColumnsOf(keys)).error))
    ensures fetch(LastTableId(keys), ColumnsOf(keys)).Ok? ==>
      var rows := fetch(LastTableId(keys), ColumnsOf(keys)).value;
      r.Ok? <==> forall i :: 0 <= i < |rows| ==> Convert2Histogram(rows[i], catalog, codec).Ok?
    ensures fetch(LastTableId(keys), ColumnsOf(keys)).Ok? && r.Err? ==>
      var rows := fetch(LastTableId(keys), ColumnsOf(keys)).value;
      exists i :: 0 <= i < |rows| && FirstFailingRow(rows, catalog, codec, i)
        && r.error == Surface(Convert2Histogram(rows[i], catalog, codec).error)
  {
    match fetch(LastTableId(keys), ColumnsOf(keys))
    case Err(e) => Err(Surface(e))
    case Ok(rows) =>
      RowEntriesOutcome(rows, catalog, codec);
      match RowEntries(rows, catalog, codec)
      case Err(e) => Err(Surface(e))
      case Ok(entries) => Ok(PutAll(entries))
  }

  /**
   * A batch result holds exactly the keys of the returned rows, each with a
   * histogram; a requested column that was not returned is absent. The value
   * under a row's key is that row's own histogram unless a later row has the
   * same key.
   */
  lemma LoadAllKeys(keys: seq<CacheKey>, fetch: Fetch, catalog: Catalog, codec: Codec)
    requires LoadAllResult(keys, fetch, catalog, codec).Ok?
    ensures fetch(LastTableId(keys), ColumnsOf(keys)).Ok?
    ensures var rows := fetch(LastTableId(keys), ColumnsOf(keys)).value;
      var m := LoadAllResult(keys, fetch, catalog, codec).value;
      && m.Keys == (set i | 0 <= i < |rows| :: KeyOf(rows[i]))
      && (forall k :: k in m ==> m[k].Some?)
      && forall i :: 0 <= i < |rows| && (forall j :: i < j < |rows| ==> KeyOf(rows[j]) != KeyOf(rows[i])) ==>
           Convert2Histogram(rows[i], catalog, codec).Ok?
           && m[KeyOf(rows[i])] == Some(Convert2Histogram(rows[i], catalog, codec).value)
  {
    var rows := fetch(LastTableId(keys), ColumnsOf(keys)).value;
    assert LoadAllResult(keys, fetch, catalog, codec).value == PutAll(RowEntries(rows, catalog, codec).value);
    RowEntriesKeys(rows, catalog, codec);
    forall i | 0 <= i < |rows| && (forall j :: i < j < |rows| ==> KeyOf(rows[j]) != KeyOf(rows[i]))
      ensures Convert2Histogram(rows[i], catalog, codec).Ok?
      ensures PutAll(RowEntries(rows, catalog, codec).value)[KeyOf(rows[i])]
              == Some(Convert2Histogram(rows[i], catalog, codec).value)
    {
      RowEntriesLastWins(rows, catalog, codec, i);
    }
  }

  /** The map of decoded rows holds exactly the rows' keys, each with a histogram. */
  lemma RowEntriesKeys(rows: seq<StatsRow>, catalog: Catalog, codec: Codec)
    requires RowEntries(rows, catalog, codec).Ok?
    ensures var m := PutAll(RowEntries(rows, catalog, codec).value);
      && m.Keys == (set i | 0 <= i < |rows| :: KeyOf(rows[i]))
      && forall k :: k in m ==> m[k].Some?
  {
    var f := RowDecoder(catalog, codec);
    var entries := DecodeAll(rows, f).value;
    forall i | 0 <= i < |rows| && f(rows[i]).Ok?
      ensures f(rows[i]).value.0 == KeyOf(rows[i]) && f(rows[i]).value.1.Some?
    {
    }
    PutAllKeysOfDecoded(rows, f, KeyOf);
    forall k | k in PutAll(entries) ensures PutAll(entries)[k].Some? {
      PutAllValueFromSomePair(entries, k);
      var i :| 0 <= i < |entries| && entries[i] == (k, PutAll(entries)[k]);
      assert f(rows[i]) == Ok(entries[i]);
    }
  }

  /** The entry of a row whose key no later row repeats is that row's histogram. */
  lemma RowEntriesLastWins(rows: seq<StatsRow>, catalog: Catalog, codec: Codec, i: nat)
    requires RowEntries(rows, catalog, codec).Ok?
    requires i < |rows| && forall j :: i < j < |rows| ==> KeyOf(rows[j]) != KeyOf(rows[i])
    ensures Convert2Histogram(rows[i], catalog, codec).Ok?
    ensures var m := PutAll(RowEntries(rows, catalog, codec).value);
      KeyOf(rows[i]) in m && m[KeyOf(rows[i])] == Some(Convert2Histogram(rows[i], catalog, codec).value)
  {
    var f := RowDecoder(catalog, codec);
    var entries := DecodeAll(rows, f).value;
    assert f(rows[i]) == Ok(entries[i]);
    forall j | i < j < |entries| ensures entries[j].0 != entries[i].0 {
      assert f(rows[j]) == Ok(entries[j]);
    }
    PutAllLastWins(entries, i);
  }

  /** A batch load asks the statistics query about the last key's table and every key's column only. */
  lemma LoadAllQueriesOnce(keys: seq<CacheKey>, fetch: Fetch, fetch': Fetch, catalog: Catalog, codec: Codec)
    requires fetch(LastTableId(keys), ColumnsOf(keys)) == fetch'(LastTableId(keys), ColumnsOf(keys))
    ensures LoadAllResult(keys, fetch, catalog, codec) == LoadAllResult(keys, fetch', catalog, codec)
  {
  }

  /** asyncLoadAll's two loops: collect table id and columns, then decode and put every row. */
  method LoadAll(keys: seq<CacheKey>, fetch: Fetch, catalog: Catalog, codec: Codec)
    returns (r: Outcome<map<CacheKey, Option<Histogram>>>)
    ensures r == LoadAllResult(keys, fetch, catalog, codec)
  {
    var tableId := -1;
    var columns: seq<string> := [];
    for i := 0 to |keys|
      invariant tableId == LastTableId(keys[..i])
      invariant columns == ColumnsOf(keys[..i])
    {
      assert keys[..i + 1][..i] == keys[..i];
      tableId := keys[i].tableId;
      columns := columns + [keys[i].column];
    }
    assert keys[..|keys|] == keys;
    var fetched := fetch(tableId, columns);
    if fetched.Err? {
      return Err(Surface(fetched.error));
    }
    var rows := fetched.value;
    ghost var f := RowDecoder(catalog, codec);
    ghost var entries: seq<(CacheKey, Option<Histogram>)> := [];
    var result: map<CacheKey, Option<Histogram>> := map[];
    var i := 0;
    while i < |rows|
      invariant 0 <= i <= |rows|
      invariant DecodeAll(rows[..i], f) == Ok(entries)
      invariant result == PutAll(entries)
    {
      var histogram := Convert2Histogram(rows[i], catalog, codec);
      assert f(rows[i]) == if histogram.Err? then Err(histogram.error) else Ok((KeyOf(rows[i]), Some(histogram.value)));
      DecodeAllStep(rows, f, i, entries);
      if histogram.Err? {
        return Err(Surface(histogram.error));
      }
      PutAllSnoc(entries, (KeyOf(rows[i]), Some(histogram.value)));
      entries := entries + [(KeyOf(rows[i]), Some(histogram.value))];
      result := result[KeyOf(rows[i]) := Some(histogram.value)];
      i := i + 1;
    }
    assert rows[..i] == rows;
    r := Ok(result);
  }
}
