/**
 * Decoding of a column's histogram payload into buckets and a top-N map
 * (convertBuckets and convertTopN of ColumnHistogramStatsCacheLoader).
 *
 * The payload arrives already parsed: `Json` stands for the tree the JSON
 * parser builds, and `None` for a text it rejects. The date, datetime,
 * floating-point and 64-bit integer parsers are foreign code; a `Codec`
 * carries them as functions, and the model is exact for whatever they do.
 */
module HistogramCodec {
  import opened Wrappers

  /** A parsed JSON value. A number keeps the text it was written with. */
  datatype Json =
    | JNull
    | JBool(b: bool)
    | JNumber(text: string)
    | JString(s: string)
    | JArray(elems: seq<Json>)
    | JObject(members: map<string, Json>)

  /** What the catalog says about a column's type, as far as decoding cares. */
  datatype ColumnType = DateType | DatetimeType | OtherType

  /** The unchecked exceptions that decoding and the statistics query can raise. */
  datatype RuntimeKind =
    | JsonSyntax            // the payload text is not JSON
    | IllegalState          // an object or array was expected, or a string from an array not of size one
    | ClassCast             // a "buckets" or "top-n" member that is not an array
    | NullPointer           // a missing "buckets" or "top-n" member
    | IndexOutOfBounds      // an entry with too few elements
    | UnsupportedOperation  // a string was asked of null or of an object
    | DateTimeParse         // a value that does not match yyyyMMdd or yyyyMMddHHmmss
    | NumberFormat          // a value that the floating-point or long parser rejects
    | OtherRuntime          // any other unchecked fault of the statistics query

  /** The catalog error codes, each with the identifier it reports. */
  datatype ErrorCode =
    | ErrBadDbError(dbId: int)
    | ErrBadTableError(tableId: int)
    | ErrBadFieldError(column: string)

  datatype Exception =
    | RuntimeException(kind: RuntimeKind)
    | AnalysisException(code: ErrorCode)   // checked
    | CheckedException                     // any other checked exception of the statistics query
    | CompletionException(cause: Exception)

  /** Whether an exception is unchecked (CompletionException is one too). */
  predicate IsRuntime(e: Exception) {
    e.RuntimeException? || e.CompletionException?
  }

  type Outcome<T> = Result<T, Exception>

  /** The foreign value parsers, each returning None where it would throw. */
  datatype Codec = Codec(
    date: string -> Option<real>,      // yyyyMMdd at start of day, then to the optimizer's numeric form
    datetime: string -> Option<real>,  // yyyyMMddHHmmss, then to the optimizer's numeric form
    number: string -> Option<real>,    // Double.parseDouble
    long: string -> Option<int>)       // Long.parseLong

  /** One equi-height bucket. */
  datatype Bucket = Bucket(lower: real, upper: real, count: int, upperRepeats: int)

  /** A decoded histogram: buckets in payload order and the heavy hitters with their frequencies. */
  datatype Histogram = Histogram(buckets: seq<Bucket>, topN: map<real, int>)

  function Fail<T>(kind: RuntimeKind): Outcome<T> {
    Err(RuntimeException(kind))
  }

  function OrFail<T>(o: Option<T>, kind: RuntimeKind): Outcome<T> {
    match o
    case Some(v) => Ok(v)
    case None => Fail(kind)
  }

  /** getAsString of a JSON element. */
  function AsString(j: Json): (r: Outcome<string>)
    ensures j.JString? ==> r == Ok(j.s)
    ensures j.JNumber? ==> r == Ok(j.text)
    ensures j.JNull? || j.JObject? ==> r == Fail(UnsupportedOperation)
    ensures j.JArray? && |j.elems| != 1 ==> r == Fail(IllegalState)
    ensures j.JArray? && |j.elems| == 1 ==> r == AsString(j.elems[0])
  {
    match j
    case JString(s) => Ok(s)
    case JNumber(t) => Ok(t)
    case JBool(b) => Ok(if b then "true" else "false")
    case JArray(es) => if |es| == 1 then AsString(es[0]) else Fail(IllegalState)
    case JNull => Fail(UnsupportedOperation)
    case JObject(_) => Fail(UnsupportedOperation)
  }

  /** get(k).getAsString() of a JSON array. */
  function TextAt(es: seq<Json>, k: nat): (r: Outcome<string>)
    ensures |es| <= k ==> r == Fail(IndexOutOfBounds)
    ensures k < |es| ==> r == AsString(es[k])
  {
    if k < |es| then AsString(es[k]) else Fail(IndexOutOfBounds)
  }

  /** The decoder the column type selects; bucket bounds and top-N keys share it. */
  function DecodeValue(t: ColumnType, text: string, codec: Codec): (r: Outcome<real>)
    ensures r.Err? ==> r.error == RuntimeException(if t.OtherType? then NumberFormat else DateTimeParse)
    ensures t.DateType? ==> (r.Ok? <==> codec.date(text).Some?) && (r.Ok? ==> r.value == codec.date(text).value)
    ensures t.DatetimeType? ==> (r.Ok? <==> codec.datetime(text).Some?) && (r.Ok? ==> r.value == codec.datetime(text).value)
    ensures t.OtherType? ==> (r.Ok? <==> codec.number(text).Some?) && (r.Ok? ==> r.value == codec.number(text).value)
  {
    match t
    case DateType => OrFail(codec.date(text), DateTimeParse)
    case DatetimeType => OrFail(codec.datetime(text), DateTimeParse)
    case OtherType => OrFail(codec.number(text), NumberFormat)
  }

  /** Element k of an entry, decoded as a value of the column's type. */
  function ValueAt(es: seq<Json>, k: nat, t: ColumnType, codec: Codec): Outcome<real> {
    var text :- TextAt(es, k);
    DecodeValue(t, text, codec)
  }

  /** Element k of an entry, parsed as a long. */
  function LongAt(es: seq<Json>, k: nat, codec: Codec): Outcome<int> {
    var text :- TextAt(es, k);
    OrFail(codec.long(text), NumberFormat)
  }

  /** One bucket from a [low, high, count, upper-repeats] entry, decoded left to right. */
  function DecodeBucket(entry: Json, t: ColumnType, codec: Codec): (r: Outcome<Bucket>)
    ensures !entry.JArray? ==> r == Fail(IllegalState)
    ensures entry.JArray? && |entry.elems| < 4 ==> r.Err?
    ensures r.Ok? ==>
      && entry.JArray? && 4 <= |entry.elems|
      && ValueAt(entry.elems, 0, t, codec) == Ok(r.value.lower)
      && ValueAt(entry.elems, 1, t, codec) == Ok(r.value.upper)
      && LongAt(entry.elems, 2, codec) == Ok(r.value.count)
      && LongAt(entry.elems, 3, codec) == Ok(r.value.upperRepeats)
    ensures entry.JArray? ==>
      var es := entry.elems;
      r.Ok? <==> ValueAt(es, 0, t, codec).Ok? && ValueAt(es, 1, t, codec).Ok? && LongAt(es, 2, codec).Ok? && LongAt(es, 3, codec).Ok?
    ensures entry.JArray? && r.Err? ==>
      var es := entry.elems;
      r.error == if ValueAt(es, 0, t, codec).Err? then ValueAt(es, 0, t, codec).error
                 else if ValueAt(es, 1, t, codec).Err? then ValueAt(es, 1, t, codec).error
                 else if LongAt(es, 2, codec).Err? then LongAt(es, 2, codec).error
                 else LongAt(es, 3, codec).error
  {
    if !entry.JArray? then Fail(IllegalState)
    else
      var es := entry.elems;
      var low :- ValueAt(es, 0, t, codec);
      var high :- ValueAt(es, 1, t, codec);
      var count :- LongAt(es, 2, codec);
      var repeats :- LongAt(es, 3, codec);
      Ok(Bucket(low, high, count, repeats))
  }

  /** One heavy hitter from a [value, frequency] entry. */
  function DecodeTopNEntry(entry: Json, t: ColumnType, codec: Codec): (r: Outcome<(real, int)>)
    ensures !entry.JArray? ==> r == Fail(IllegalState)
    ensures entry.JArray? && |entry.elems| < 2 ==> r.Err?
    ensures r.Ok? ==>
      && entry.JArray? && 2 <= |entry.elems|
      && ValueAt(entry.elems, 0, t, codec) == Ok(r.value.0)
      && LongAt(entry.elems, 1, codec) == Ok(r.value.1)
    ensures entry.JArray? ==>
      var es := entry.elems;
      r.Ok? <==> ValueAt(es, 0, t, codec).Ok? && LongAt(es, 1, codec).Ok?
    ensures entry.JArray? && r.Err? ==>
      var es := entry.elems;
      r.error == if ValueAt(es, 0, t, codec).Err? then ValueAt(es, 0, t, codec).error else LongAt(es, 1, codec).error
  {
    if !entry.JArray? then Fail(IllegalState)
    else
      var es := entry.elems;
      var key :- ValueAt(es, 0, t, codec);
      var frequency :- LongAt(es, 1, codec);
      Ok((key, frequency))
  }

  /** A well-formed bucket entry decodes to its four values. */
  lemma DecodeBucketExample(codec: Codec)
    requires codec.number("1.5") == Some(1.5) && codec.number("7") == Some(7.0)
    requires codec.long("10") == Some(10) && codec.long("2") == Some(2)
    ensures DecodeBucket(JArray([JString("1.5"), JString("7"), JNumber("10"), JNumber("2")]), OtherType, codec)
            == Ok(Bucket(1.5, 7.0, 10, 2))
  {
    var es := [JString("1.5"), JString("7"), JNumber("10"), JNumber("2")];
    assert TextAt(es, 0) == Ok("1.5") && TextAt(es, 1) == Ok("7");
    assert TextAt(es, 2) == Ok("10") && TextAt(es, 3) == Ok("2");
  }

  /** An entry with only three elements that all decode fails on the missing fourth one. */
  lemma ShortBucketEntry(codec: Codec)
    requires codec.number("1.5") == Some(1.5) && codec.number("7") == Some(7.0) && codec.long("10") == Some(10)
    ensures DecodeBucket(JArray([JString("1.5"), JString("7"), JNumber("10")]), OtherType, codec)
            == Fail(IndexOutOfBounds)
  {
    var es := [JString("1.5"), JString("7"), JNumber("10")];
    assert TextAt(es, 0) == Ok("1.5") && TextAt(es, 1) == Ok("7") && TextAt(es, 2) == Ok("10");
  }

  function BucketDecoder(t: ColumnType, codec: Codec): Json -> Outcome<Bucket> {
    entry => DecodeBucket(entry, t, codec)
  }

  function TopNDecoder(t: ColumnType, codec: Codec): Json -> Outcome<(real, int)> {
    entry => DecodeTopNEntry(entry, t, codec)
  }

  /**
   * Decodes the elements of s in order and stops at the first failure: either
   * every element decodes and the results line up with s, or the error is that
   * of the first element that fails.
   */
  function DecodeAll<A, B>(s: seq<A>, f: A -> Outcome<B>): (r: Outcome<seq<B>>)
    ensures r.Ok? ==> |r.value| == |s| && forall i :: 0 <= i < |s| ==> f(s[i]) == Ok(r.value[i])
    ensures r.Err? ==>
      exists i :: 0 <= i < |s| && f(s[i]) == Err(r.error) && forall j :: 0 <= j < i ==> f(s[j]).Ok?
    decreases |s|
  {
    if |s| == 0 then Ok([])
    else
      var prefix := s[..|s| - 1];
      assert forall i :: 0 <= i < |prefix| ==> prefix[i] == s[i];
      var init :- DecodeAll(prefix, f);
      var last :- f(s[|s| - 1]);
      Ok(init + [last])
  }

  /** Once a prefix fails, the whole sequence fails with the same error. */
  lemma {:induction false} DecodeAllFailsAtPrefix<A, B>(s: seq<A>, f: A -> Outcome<B>, k: nat)
    requires k <= |s| && DecodeAll(s[..k], f).Err?
    ensures DecodeAll(s, f) == DecodeAll(s[..k], f)
    decreases |s|
  {
    if k < |s| {
      var init := s[..|s| - 1];
      assert init[..k] == s[..k];
      DecodeAllFailsAtPrefix(init, f, k);
    } else {
      assert s[..k] == s;
    }
  }

  /**
   * One more element either fails the whole sequence with its own error or
   * extends the decoded prefix by its result.
   */
  lemma DecodeAllStep<A, B>(s: seq<A>, f: A -> Outcome<B>, k: nat, done: seq<B>)
    requires k < |s| && DecodeAll(s[..k], f) == Ok(done)
    ensures f(s[k]).Err? ==> DecodeAll(s, f) == Err(f(s[k]).error)
    ensures f(s[k]).Ok? ==> DecodeAll(s[..k + 1], f) == Ok(done + [f(s[k]).value])
  {
    assert s[..k + 1][..k] == s[..k];
    if f(s[k]).Err? {
      DecodeAllFailsAtPrefix(s, f, k + 1);
    }
  }

  /** Puts each pair into an initially empty map in order: a later pair with the same key overwrites. */
  function PutAll<K, V>(pairs: seq<(K, V)>): map<K, V>
    decreases |pairs|
  {
    if |pairs| == 0 then map[]
    else PutAll(pairs[..|pairs| - 1])[pairs[|pairs| - 1].0 := pairs[|pairs| - 1].1]
  }

  /** The map holds exactly the pairs' keys, so it has no more entries than there are pairs. */
  lemma {:induction false} PutAllKeys<K, V>(pairs: seq<(K, V)>)
    ensures PutAll(pairs).Keys == set i | 0 <= i < |pairs| :: pairs[i].0
    ensures |PutAll(pairs)| <= |pairs|
    decreases |pairs|
  {
    if |pairs| > 0 {
      var init := pairs[..|pairs| - 1];
      PutAllKeys(init);
      assert forall i :: 0 <= i < |init| ==> init[i] == pairs[i];
    }
  }

  /** Putting one more pair updates the map at that pair's key. */
  lemma PutAllSnoc<K, V>(pairs: seq<(K, V)>, p: (K, V))
    ensures PutAll(pairs + [p]) == PutAll(pairs)[p.0 := p.1]
  {
    assert (pairs + [p])[..|pairs|] == pairs;
  }

  /** Every value in the map is the value of one of the pairs under that key. */
  lemma {:induction false} PutAllValueFromSomePair<K, V>(pairs: seq<(K, V)>, k: K)
    requires k in PutAll(pairs)
    ensures exists i :: 0 <= i < |pairs| && pairs[i] == (k, PutAll(pairs)[k])
    decreases |pairs|
  {
    var n := |pairs| - 1;
    if pairs[n].0 != k {
      var init := pairs[..n];
      PutAllValueFromSomePair(init, k);
      var i :| 0 <= i < |init| && init[i] == (k, PutAll(init)[k]);
      assert pairs[i] == init[i];
    } else {
      assert pairs[n] == (k, PutAll(pairs)[k]);
    }
  }

  /**
   * Putting the decoded pairs of a sequence gives a map whose keys are the
   * keys the decoder assigns to the sequence's elements.
   */
  lemma PutAllKeysOfDecoded<A, K, V>(s: seq<A>, f: A -> Outcome<(K, V)>, key: A -> K)
    requires DecodeAll(s, f).Ok?
    requires forall i :: 0 <= i < |s| && f(s[i]).Ok? ==> f(s[i]).value.0 == key(s[i])
    ensures PutAll(DecodeAll(s, f).value).Keys == set i | 0 <= i < |s| :: key(s[i])
  {
    var pairs := DecodeAll(s, f).value;
    PutAllKeys(pairs);
    var fromPairs := set i | 0 <= i < |pairs| :: pairs[i].0;
    var fromKeys := set i | 0 <= i < |s| :: key(s[i]);
    forall k | k in fromKeys ensures k in fromPairs {
      var i :| 0 <= i < |s| && key(s[i]) == k;
      assert f(s[i]) == Ok(pairs[i]);
    }
    forall k | k in fromPairs ensures k in fromKeys {
      var i :| 0 <= i < |pairs| && pairs[i].0 == k;
      assert f(s[i]) == Ok(pairs[i]);
    }
  }

  /** The value left under a key is that of the last pair carrying it. */
  lemma {:induction false} PutAllLastWins<K, V>(pairs: seq<(K, V)>, i: nat)
    requires i < |pairs|
    requires forall j :: i < j < |pairs| ==> pairs[j].0 != pairs[i].0
    ensures pairs[i].0 in PutAll(pairs) && PutAll(pairs)[pairs[i].0] == pairs[i].1
    decreases |pairs|
  {
    if i < |pairs| - 1 {
      var init := pairs[..|pairs| - 1];
      PutAllLastWins(init, i);
    }
  }

  /** The "buckets" or "top-n" array of a payload, reached as the source reaches it. */
  function MemberArray(payload: Option<Json>, name: string): (r: Outcome<seq<Json>>)
    ensures r.Ok? <==>
      payload.Some? && payload.value.JObject? && name in payload.value.members && payload.value.members[name].JArray?
    ensures r.Ok? ==> r.value == payload.value.members[name].elems
    ensures payload.None? ==> r == Fail(JsonSyntax)
    ensures payload.Some? && !payload.value.JObject? ==> r == Fail(IllegalState)
    ensures payload.Some? && payload.value.JObject? && name !in payload.value.members ==> r == Fail(NullPointer)
    ensures (payload.Some? && payload.value.JObject? && name in payload.value.members &&
             !payload.value.members[name].JArray?) ==> r == Fail(ClassCast)
  {
    match payload
    case None => Fail(JsonSyntax)
    case Some(j) =>
      if !j.JObject? then Fail(IllegalState)
      else if name !in j.members then Fail(NullPointer)
      else if !j.members[name].JArray? then Fail(ClassCast)
      else Ok(j.members[name].elems)
  }

  /** The bucket list of a payload, one bucket per entry of its "buckets" array, in order. */
  function BucketsOf(payload: Option<Json>, t: ColumnType, codec: Codec): (r: Outcome<seq<Bucket>>)
    ensures r.Ok? ==> MemberArray(payload, "buckets").Ok?
    ensures r.Ok? ==>
      var es := MemberArray(payload, "buckets").value;
      |r.value| == |es| && forall i :: 0 <= i < |es| ==> DecodeBucket(es[i], t, codec) == Ok(r.value[i])
    ensures MemberArray(payload, "buckets").Ok? ==>
      var es := MemberArray(payload, "buckets").value;
      r.Ok? <==> forall i :: 0 <= i < |es| ==> DecodeBucket(es[i], t, codec).Ok?
  {
    var es :- MemberArray(payload, "buckets");
    DecodeAll(es, BucketDecoder(t, codec))
  }

  /** The top-N pairs of a payload, in order. */
  function TopNPairs(payload: Option<Json>, t: ColumnType, codec: Codec): Outcome<seq<(real, int)>> {
    var es :- MemberArray(payload, "top-n");
    DecodeAll(es, TopNDecoder(t, codec))
  }

  /** The top-N map of a payload: at most one key per entry of its "top-n" array. */
  function TopNOf(payload: Option<Json>, t: ColumnType, codec: Codec): (r: Outcome<map<real, int>>)
    ensures r.Ok? ==> MemberArray(payload, "top-n").Ok? && |r.value| <= |MemberArray(payload, "top-n").value|
  {
    var pairs :- TopNPairs(payload, t, codec);
    PutAllKeys(pairs);
    Ok(PutAll(pairs))
  }

  /** The decoded top-N pairs line up with the "top-n" entries. */
  lemma TopNPairsLineUp(payload: Option<Json>, t: ColumnType, codec: Codec)
    requires TopNPairs(payload, t, codec).Ok?
    ensures MemberArray(payload, "top-n").Ok?
    ensures var es := MemberArray(payload, "top-n").value;
      var pairs := TopNPairs(payload, t, codec).value;
      |pairs| == |es| && forall i :: 0 <= i < |es| ==> DecodeTopNEntry(es[i], t, codec) == Ok(pairs[i])
  {
    var es := MemberArray(payload, "top-n").value;
    var pairs := TopNPairs(payload, t, codec).value;
    forall i | 0 <= i < |es| ensures DecodeTopNEntry(es[i], t, codec) == Ok(pairs[i]) {
      assert TopNDecoder(t, codec)(es[i]) == Ok(pairs[i]);
    }
  }

  /** A decoded top-N map holds exactly the keys of the "top-n" entries, all of which decode. */
  lemma TopNKeys(payload: Option<Json>, t: ColumnType, codec: Codec)
    requires TopNOf(payload, t, codec).Ok?
    ensures var es := MemberArray(payload, "top-n").value;
      && (forall i :: 0 <= i < |es| ==> DecodeTopNEntry(es[i], t, codec).Ok?)
      && TopNOf(payload, t, codec).value.Keys == set i | 0 <= i < |es| :: DecodeTopNEntry(es[i], t, codec).value.0
  {
    TopNOfArray(payload, t, codec);
    var es := MemberArray(payload, "top-n").value;
    var f := TopNDecoder(t, codec);
    assert DecodeAll(es, f).Ok?;
    var key := (e: Json) => if DecodeTopNEntry(e, t, codec).Ok? then DecodeTopNEntry(e, t, codec).value.0 else 0.0;
    forall i | 0 <= i < |es| && f(es[i]).Ok?
      ensures f(es[i]).value.0 == key(es[i]) { }
    PutAllKeysOfDecoded(es, f, key);
  }

  /** A "top-n" array whose entries all decode gives a top-N map. */
  lemma TopNOfAllDecode(payload: Option<Json>, t: ColumnType, codec: Codec)
    requires MemberArray(payload, "top-n").Ok?
    requires var es := MemberArray(payload, "top-n").value;
      forall i :: 0 <= i < |es| ==> DecodeTopNEntry(es[i], t, codec).Ok?
    ensures TopNOf(payload, t, codec).Ok?
  {
    TopNOfArray(payload, t, codec);
    var es := MemberArray(payload, "top-n").value;
    var f := TopNDecoder(t, codec);
    assert forall i :: 0 <= i < |es| ==> f(es[i]).Ok?;
  }

  /**
   * A heavy hitter whose key does not occur again later in the "top-n" array
   * keeps its own frequency: later entries overwrite earlier ones.
   */
  lemma TopNLastEntryWins(payload: Option<Json>, t: ColumnType, codec: Codec, i: nat)
    requires TopNOf(payload, t, codec).Ok?
    requires i < |MemberArray(payload, "top-n").value|
    requires var es := MemberArray(payload, "top-n").value;
      forall j :: i < j < |es| ==> DecodeTopNEntry(es[j], t, codec).value.0 != DecodeTopNEntry(es[i], t, codec).value.0
    ensures var es := MemberArray(payload, "top-n").value;
      var (key, frequency) := DecodeTopNEntry(es[i], t, codec).value;
      key in TopNOf(payload, t, codec).value && TopNOf(payload, t, codec).value[key] == frequency
  {
    TopNPairsLineUp(payload, t, codec);
    PutAllLastWins(TopNPairs(payload, t, codec).value, i);
  }

  /** BucketsOf is the "buckets" array's error or the decoding of its entries. */
  lemma BucketsOfArray(payload: Option<Json>, t: ColumnType, codec: Codec)
    ensures MemberArray(payload, "buckets").Err? ==> BucketsOf(payload, t, codec) == Err(MemberArray(payload, "buckets").error)
    ensures MemberArray(payload, "buckets").Ok? ==>
      BucketsOf(payload, t, codec) == DecodeAll(MemberArray(payload, "buckets").value, BucketDecoder(t, codec))
  {
  }

  /** TopNOf is the "top-n" array's error, the first entry error, or the map of the decoded pairs. */
  lemma TopNOfArray(payload: Option<Json>, t: ColumnType, codec: Codec)
    ensures MemberArray(payload, "top-n").Err? ==> TopNOf(payload, t, codec) == Err(MemberArray(payload, "top-n").error)
    ensures MemberArray(payload, "top-n").Ok? ==>
      var d := DecodeAll(MemberArray(payload, "top-n").value, TopNDecoder(t, codec));
      TopNOf(payload, t, codec) == if d.Ok? then Ok(PutAll(d.value)) else Err(d.error)
  {
  }

  /** convertBuckets: walks the "buckets" array and appends one bucket per entry. */
  method ConvertBuckets(payload: Option<Json>, t: ColumnType, codec: Codec) returns (r: Outcome<seq<Bucket>>)
    ensures r == BucketsOf(payload, t, codec)
  {
    BucketsOfArray(payload, t, codec);
    var arr := MemberArray(payload, "buckets");
    if arr.Err? {
      return Err(arr.error);
    }
    var es := arr.value;
    var decode := BucketDecoder(t, codec);
    var buckets: seq<Bucket> := [];
    var i := 0;
    while i < |es|
      invariant 0 <= i <= |es|
      invariant DecodeAll(es[..i], decode) == Ok(buckets)
    {
      var bucket := decode(es[i]);
      DecodeAllStep(es, decode, i, buckets);
      if bucket.Err? {
        return Err(bucket.error);
      }
      buckets := buckets + [bucket.value];
      i := i + 1;
    }
    assert es[..i] == es;
    r := Ok(buckets);
  }

  /**
   * The loop of convertTopN: decodes the entries in order, puts each pair into
   * the map (a later key overwrites an earlier one) and stops at the first
   * entry that fails.
   */
  method DecodeIntoMap<A, K, V>(es: seq<A>, decode: A -> Outcome<(K, V)>) returns (r: Outcome<map<K, V>>)
    ensures var d := DecodeAll(es, decode);
      r == if d.Ok? then Ok(PutAll(d.value)) else Err(d.error)
  {
    ghost var pairs: seq<(K, V)> := [];
    var m: map<K, V> := map[];
    var i := 0;
    while i < |es|
      invariant 0 <= i <= |es|
      invariant DecodeAll(es[..i], decode) == Ok(pairs)
      invariant m == PutAll(pairs)
    {
      var entry := decode(es[i]);
      DecodeAllStep(es, decode, i, pairs);
      if entry.Err? {
        return Err(entry.error);
      }
      PutAllSnoc(pairs, entry.value);
      pairs := pairs + [entry.value];
      m := m[entry.value.0 := entry.value.1];
      i := i + 1;
    }
    assert es[..i] == es;
    r := Ok(m);
  }

  /** convertTopN: walks the "top-n" array and puts one (value, frequency) pair per entry. */
  method ConvertTopN(payload: Option<Json>, t: ColumnType, codec: Codec) returns (r: Outcome<map<real, int>>)
    ensures r == TopNOf(payload, t, codec)
  {
    TopNOfArray(payload, t, codec);
    var arr := MemberArray(payload, "top-n");
    if arr.Err? {
      return Err(arr.error);
    }
    r := DecodeIntoMap(arr.value, TopNDecoder(t, codec));
  }
}
