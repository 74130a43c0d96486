/**
 * The proxy's index tasks, as far as they are plain parameter handling: the user-facing
 * AUTOINDEX parameter list, the BM25 defaults a function-output field receives, the dimension
 * check, the parsing of the request's extra parameters, the final split into index and type
 * parameters, the field name a dynamic-field index is described under, and the argument check
 * of an alter-index request.
 *
 * Parameter maps are Go `map[string]string` values; key/value lists are protobuf
 * `KeyValuePair` lists.
 */
module TaskIndex {
  import opened Common
  import opened SeqUtil
  import opened GoStrings

  const IndexTypeKey := "index_type"
  const MetricTypeKey := "metric_type"
  const AutoIndexName := "AUTOINDEX"
  const DimKey := "dim"
  const MaxLengthKey := "max_length"
  const ParamsKey := "params"
  const JsonPathKey := "json_path"
  const BM25Metric := "BM25"
  const BM25K1Key := "bm25_k1"
  const BM25BKey := "bm25_b"
  const BM25AvgdlKey := "bm25_avgdl"

  datatype KeyValuePair = KeyValuePair(key: string, value: string)

  type Params = map<string, string>

  /** The keys of a key/value list, in order. */
  function KeysOf(kvs: seq<KeyValuePair>): (keys: seq<string>)
    ensures |keys| == |kvs| && forall i :: 0 <= i < |kvs| ==> keys[i] == kvs[i].key
  {
    seq(|kvs|, i requires 0 <= i < |kvs| => kvs[i].key)
  }

  /** `GetAttrByKeyFromRepeatedKV`: the value of the first pair with this key. */
  function Lookup(kvs: seq<KeyValuePair>, key: string): (r: Option<string>)
    ensures r.None? <==> key !in KeysOf(kvs)
    ensures key in KeysOf(kvs) ==> r == Some(kvs[FirstIndex(KeysOf(kvs), key)].value)
  {
    if |kvs| == 0 then None
    else if kvs[0].key == key then Some(kvs[0].value)
    else
      var r := Lookup(kvs[1..], key);
      assert KeysOf(kvs) == [kvs[0].key] + KeysOf(kvs[1..]);
      assert KeysOf(kvs)[1..] == KeysOf(kvs[1..]);
      r
  }

  /** On a list with distinct keys, the lookup of any pair's key finds that pair's value. */
  lemma {:induction false} LookupDistinct(kvs: seq<KeyValuePair>, i: nat)
    requires i < |kvs| && NoDup(KeysOf(kvs))
    ensures Lookup(kvs, kvs[i].key) == Some(kvs[i].value)
  {
    if i > 0 {
      assert kvs[0].key != kvs[i].key by {
        assert KeysOf(kvs)[0] == kvs[0].key && KeysOf(kvs)[i] == kvs[i].key;
      }
      assert KeysOf(kvs[1..]) == KeysOf(kvs)[1..];
      LookupDistinct(kvs[1..], i - 1);
    }
  }

  // ---------------------------------------------------------------------------
  // wrapUserIndexParams

  /** `wrapUserIndexParams`: what the user is shown for an index built by AUTOINDEX. */
  function WrapUserIndexParams(metricType: string): (r: seq<KeyValuePair>)
    ensures |r| == 2 && NoDup(KeysOf(r))
    ensures Lookup(r, IndexTypeKey) == Some(AutoIndexName)
    ensures Lookup(r, MetricTypeKey) == Some(metricType)
  {
    [KeyValuePair(IndexTypeKey, AutoIndexName), KeyValuePair(MetricTypeKey, metricType)]
  }

  // ---------------------------------------------------------------------------
  // parseFunctionParamsToIndex

  datatype FunctionType = UnknownFunction | BM25Function | TextEmbeddingFunction | RerankFunction

  /** A key keeps its value when present and gets `default` otherwise. */
  predicate Defaulted(before: Params, after: Params, key: string, default: string) {
    key in after && after[key] == (if key in before then before[key] else default)
  }

  /**
   * `parseFunctionParamsToIndex`: nothing for a field that is not a function output or whose
   * function is neither Unknown nor BM25; an error for an Unknown function; for BM25 the three
   * BM25 parameters and the BM25 metric are filled in where absent, and an explicit metric
   * other than BM25 is rejected.
   */
  function ParseFunctionParamsToIndex(isFunctionOutput: bool, ft: FunctionType, m: Params): (r: Result<Params>)
    ensures !isFunctionOutput ==> r == Ok(m)
    ensures isFunctionOutput && ft == UnknownFunction ==> r == Err(UnknownFunctionType)
    ensures isFunctionOutput && (ft == TextEmbeddingFunction || ft == RerankFunction) ==> r == Ok(m)
    ensures isFunctionOutput && ft == BM25Function ==>
      && (r.Ok? <==> MetricTypeKey !in m || m[MetricTypeKey] == BM25Metric)
      && (r.Err? ==> r.error == MetricTypeMismatch)
    ensures isFunctionOutput && ft == BM25Function && r.Ok? ==>
      && r.value.Keys == m.Keys + {BM25K1Key, BM25BKey, BM25AvgdlKey, MetricTypeKey}
      && (forall k :: k in m ==> r.value[k] == m[k])
      && Defaulted(m, r.value, BM25K1Key, "1.2")
      && Defaulted(m, r.value, BM25BKey, "0.75")
      && Defaulted(m, r.value, BM25AvgdlKey, "100")
      && r.value[MetricTypeKey] == BM25Metric
  {
    if !isFunctionOutput then Ok(m)
    else
      match ft
      case UnknownFunction => Err(UnknownFunctionType)
      case BM25Function =>
        var m1 := if BM25K1Key in m then m else m[BM25K1Key := "1.2"];
        var m2 := if BM25BKey in m1 then m1 else m1[BM25BKey := "0.75"];
        var m3 := if BM25AvgdlKey in m2 then m2 else m2[BM25AvgdlKey := "100"];
        if MetricTypeKey !in m3 then Ok(m3[MetricTypeKey := BM25Metric])
        else if m3[MetricTypeKey] != BM25Metric then Err(MetricTypeMismatch)
        else Ok(m3)
      case _ => Ok(m)
  }

  /** Filling in the function parameters a second time changes nothing. */
  lemma ParseFunctionParamsIdempotent(isFunctionOutput: bool, ft: FunctionType, m: Params)
    requires ParseFunctionParamsToIndex(isFunctionOutput, ft, m).Ok?
    ensures var once := ParseFunctionParamsToIndex(isFunctionOutput, ft, m).value;
      ParseFunctionParamsToIndex(isFunctionOutput, ft, once) == Ok(once)
  {
    var once := ParseFunctionParamsToIndex(isFunctionOutput, ft, m).value;
    if isFunctionOutput && ft == BM25Function {
      var twice := ParseFunctionParamsToIndex(isFunctionOutput, ft, once);
      assert twice.Ok?;
      assert twice.value.Keys == once.Keys;
      assert forall k :: k in once ==> twice.value[k] == once[k];
      assert twice.value == once;
    }
  }

  // ---------------------------------------------------------------------------
  // fillDimension

  /**
   * `fillDimension`: nothing for a non-vector field; otherwise the schema's dimension, looked
   * up over the field's type parameters followed by its index parameters, must exist, and an
   * index dimension must equal it; a missing index dimension is filled in from the schema.
   */
  function FillDimension(isVector: bool, typeParams: seq<KeyValuePair>, fieldIndexParams: seq<KeyValuePair>, m: Params)
    : (r: Result<Params>)
    ensures !isVector ==> r == Ok(m)
    ensures isVector && DimKey !in KeysOf(typeParams + fieldIndexParams) ==> r == Err(DimensionNotFound)
    ensures isVector && DimKey in KeysOf(typeParams + fieldIndexParams) ==>
      var schemaDim := Lookup(typeParams + fieldIndexParams, DimKey).value;
      && (r.Ok? <==> DimKey !in m || m[DimKey] == schemaDim)
      && (r.Err? ==> r.error == DimensionMismatch)
      && (r.Ok? ==> r.value == m[DimKey := schemaDim])
  {
    if !isVector then Ok(m)
    else
      match Lookup(typeParams + fieldIndexParams, DimKey)
      case None => Err(DimensionNotFound)
      case Some(schemaDim) =>
        if DimKey in m then
          if m[DimKey] != schemaDim then Err(DimensionMismatch) else Ok(m)
        else Ok(m[DimKey := schemaDim])
  }

  /** After a successful fill the index dimension agrees with the schema, and filling again changes nothing. */
  lemma FillDimensionAgreesWithSchema(isVector: bool, typeParams: seq<KeyValuePair>, fieldIndexParams: seq<KeyValuePair>, m: Params)
    requires FillDimension(isVector, typeParams, fieldIndexParams, m).Ok?
    ensures var filled := FillDimension(isVector, typeParams, fieldIndexParams, m).value;
      && (isVector ==> DimKey in filled && Some(filled[DimKey]) == Lookup(typeParams + fieldIndexParams, DimKey))
      && FillDimension(isVector, typeParams, fieldIndexParams, filled) == Ok(filled)
  {
    var filled := FillDimension(isVector, typeParams, fieldIndexParams, m).value;
    if isVector {
      assert filled == filled[DimKey := filled[DimKey]];
    }
  }

  /**
   * The schema dimension is looked up over the type parameters first: when they carry `dim`,
   * a `dim` among the field's index parameters is never consulted, whatever its value.
   */
  lemma {:induction false} TypeParamDimWins(typeParams: seq<KeyValuePair>, fieldIndexParams: seq<KeyValuePair>)
    requires DimKey in KeysOf(typeParams)
    ensures Lookup(typeParams + fieldIndexParams, DimKey) == Lookup(typeParams, DimKey)
  {
    var all := typeParams + fieldIndexParams;
    var k := FirstIndex(KeysOf(typeParams), DimKey);
    assert KeysOf(all)[..k] == KeysOf(typeParams)[..k];
    FirstIndexUnique(KeysOf(all), DimKey, k);
  }

  // ---------------------------------------------------------------------------
  // parseIndexParams: the extra parameters and the final split

  /**
   * The loop over the request's extra parameters in `parseIndexParams`. A key seen before is
   * rejected; the `params` entry is a JSON object (`decodeJson`) whose entries are merged in,
   * and any other entry is stored under its key. Later entries overwrite earlier ones.
   */
  function ParseExtraParams(extra: seq<KeyValuePair>, decodeJson: string -> Option<Params>): (r: Result<Params>)
    ensures r.Err? ==> r.error == DuplicatedIndexParam || r.error == InvalidJsonParams
    ensures r.Ok? ==> NoDup(KeysOf(extra))
    decreases |extra|
  {
    if |extra| == 0 then Ok(map[])
    else
      var init := extra[..|extra| - 1];
      var last := extra[|extra| - 1];
      assert KeysOf(extra) == KeysOf(init) + [last.key];
      match ParseExtraParams(init, decodeJson)
      case Err(e) => Err(e)
      case Ok(m) =>
        if last.key in KeysOf(init) then Err(DuplicatedIndexParam)
        else if last.key == ParamsKey then
          match decodeJson(last.value)
          case None => Err(InvalidJsonParams)
          case Some(p) => Ok(m + p)
        else Ok(m[last.key := last.value])
  }

  /** Every `params` entry holds a JSON object. */
  predicate JsonDecodes(extra: seq<KeyValuePair>, decodeJson: string -> Option<Params>) {
    forall i :: 0 <= i < |extra| && extra[i].key == ParamsKey ==> decodeJson(extra[i].value).Some?
  }

  /** Distinct keys and decodable `params` entries are accepted. */
  lemma {:induction false} ParseExtraParamsAccepts(extra: seq<KeyValuePair>, decodeJson: string -> Option<Params>)
    requires NoDup(KeysOf(extra)) && JsonDecodes(extra, decodeJson)
    ensures ParseExtraParams(extra, decodeJson).Ok?
    decreases |extra|
  {
    if |extra| > 0 {
      var init := extra[..|extra| - 1];
      assert KeysOf(extra) == KeysOf(init) + [extra[|extra| - 1].key];
      assert KeysOf(init) == KeysOf(extra)[..|extra| - 1];
      ParseExtraParamsAccepts(init, decodeJson);
    }
  }

  /** Without a `params` entry, the parsed map holds exactly the request's pairs. */
  lemma {:induction false} ParseExtraParamsStoresEachPair(extra: seq<KeyValuePair>, decodeJson: string -> Option<Params>)
    requires ParseExtraParams(extra, decodeJson).Ok? && ParamsKey !in KeysOf(extra)
    ensures var m := ParseExtraParams(extra, decodeJson).value;
      && (forall i :: 0 <= i < |extra| ==> extra[i].key in m && m[extra[i].key] == extra[i].value)
      && (forall k :: k in m ==> k in KeysOf(extra))
    decreases |extra|
  {
    if |extra| > 0 {
      var init := extra[..|extra| - 1];
      var last := extra[|extra| - 1];
      assert KeysOf(extra) == KeysOf(init) + [last.key];
      ParseExtraParamsStoresEachPair(init, decodeJson);
      var m := ParseExtraParams(extra, decodeJson).value;
      assert m == ParseExtraParams(init, decodeJson).value[last.key := last.value];
      forall i | 0 <= i < |extra| ensures extra[i].key in m && m[extra[i].key] == extra[i].value {
        if i < |extra| - 1 {
          assert extra[i] == init[i];
          assert KeysOf(extra)[i] != KeysOf(extra)[|extra| - 1];
        }
      }
    }
  }

  /** Entry `e` of the extra parameters writes key `k`: a `params` object that holds `k`, or a pair named `k`. */
  predicate WritesKey(e: KeyValuePair, decodeJson: string -> Option<Params>, k: string) {
    if e.key == ParamsKey then decodeJson(e.value).Some? && k in decodeJson(e.value).value else e.key == k
  }

  /** The value entry `e` writes at key `k`. */
  function WrittenValue(e: KeyValuePair, decodeJson: string -> Option<Params>, k: string): string
    requires WritesKey(e, decodeJson, k)
  {
    if e.key == ParamsKey then decodeJson(e.value).value[k] else e.value
  }

  /** Entry `i` is the last one that writes key `k`. */
  predicate LastWriterOf(extra: seq<KeyValuePair>, decodeJson: string -> Option<Params>, i: nat, k: string)
    requires i < |extra|
  {
    WritesKey(extra[i], decodeJson, k) && forall j :: i < j < |extra| ==> !WritesKey(extra[j], decodeJson, k)
  }

  /** One step of an accepted parse: the last entry's writes are added to the map of the others. */
  lemma ParseExtraParamsStep(extra: seq<KeyValuePair>, decodeJson: string -> Option<Params>)
    requires |extra| > 0 && ParseExtraParams(extra, decodeJson).Ok?
    ensures var n := |extra| - 1;
      && ParseExtraParams(extra[..n], decodeJson).Ok?
      && var m0, m := ParseExtraParams(extra[..n], decodeJson).value, ParseExtraParams(extra, decodeJson).value;
      && (forall k :: k in m <==> k in m0 || WritesKey(extra[n], decodeJson, k))
      && (forall k :: WritesKey(extra[n], decodeJson, k) ==> m[k] == WrittenValue(extra[n], decodeJson, k))
      && (forall k :: k in m0 && !WritesKey(extra[n], decodeJson, k) ==> m[k] == m0[k])
  {
    var n := |extra| - 1;
    var init, last := extra[..n], extra[n];
    var r0 := ParseExtraParams(init, decodeJson);
    assert r0.Ok?;
    if last.key == ParamsKey {
      assert ParseExtraParams(extra, decodeJson) == Ok(r0.value + decodeJson(last.value).value);
    } else {
      assert ParseExtraParams(extra, decodeJson) == Ok(r0.value[last.key := last.value]);
    }
  }

  /** The keys an accepted parse stores are exactly those some entry writes, `params` entry included. */
  lemma {:induction false} ParseExtraParamsKeys(extra: seq<KeyValuePair>, decodeJson: string -> Option<Params>)
    requires ParseExtraParams(extra, decodeJson).Ok?
    ensures var m := ParseExtraParams(extra, decodeJson).value;
      forall k :: k in m <==> exists i :: 0 <= i < |extra| && WritesKey(extra[i], decodeJson, k)
    decreases |extra|
  {
    if |extra| > 0 {
      var n := |extra| - 1;
      var init := extra[..n];
      ParseExtraParamsStep(extra, decodeJson);
      ParseExtraParamsKeys(init, decodeJson);
      var m0 := ParseExtraParams(init, decodeJson).value;
      var m := ParseExtraParams(extra, decodeJson).value;
      forall k ensures k in m <==> exists i :: 0 <= i < |extra| && WritesKey(extra[i], decodeJson, k) {
        if k in m0 {
          var i :| 0 <= i < |init| && WritesKey(init[i], decodeJson, k);
          assert extra[i] == init[i];
        }
        if exists i :: 0 <= i < |extra| && WritesKey(extra[i], decodeJson, k) {
          var i :| 0 <= i < |extra| && WritesKey(extra[i], decodeJson, k);
          if i < n {
            assert init[i] == extra[i];
          }
        }
      }
    }
  }

  /**
   * What an accepted parse stores, `params` entry included: each key holds the value of the last
   * entry that writes it, be that a pair or the decoded object.
   */
  lemma {:induction false} ParseExtraParamsLastWriteWins(extra: seq<KeyValuePair>, decodeJson: string -> Option<Params>)
    requires ParseExtraParams(extra, decodeJson).Ok?
    ensures var m := ParseExtraParams(extra, decodeJson).value;
      forall i, k :: 0 <= i < |extra| && LastWriterOf(extra, decodeJson, i, k) ==>
        k in m && m[k] == WrittenValue(extra[i], decodeJson, k)
    decreases |extra|
  {
    if |extra| > 0 {
      var n := |extra| - 1;
      var init := extra[..n];
      ParseExtraParamsStep(extra, decodeJson);
      ParseExtraParamsLastWriteWins(init, decodeJson);
      var m := ParseExtraParams(extra, decodeJson).value;
      forall i, k | 0 <= i < |extra| && LastWriterOf(extra, decodeJson, i, k)
        ensures k in m && m[k] == WrittenValue(extra[i], decodeJson, k)
      {
        if i < n {
          assert !WritesKey(extra[n], decodeJson, k);
          assert init[i] == extra[i];
          assert forall j :: i < j < |init| ==> init[j] == extra[j];
          assert LastWriterOf(init, decodeJson, i, k);
        }
      }
    }
  }

  /** A repeated key anywhere in the extra parameters rejects the request. */
  lemma RepeatedExtraKeyIsRejected(extra: seq<KeyValuePair>, decodeJson: string -> Option<Params>, i: nat, j: nat)
    requires i < j < |extra| && extra[i].key == extra[j].key
    ensures ParseExtraParams(extra, decodeJson).Err?
  {
    assert KeysOf(extra)[i] == KeysOf(extra)[j];
  }

  /** The index and type parameters a created index is stored with. */
  datatype SplitParams = SplitParams(indexParams: Params, typeParams: Params)

  /** The field's type parameters as a map; a later pair overwrites an earlier one. */
  function KeyValueMap(kvs: seq<KeyValuePair>): (m: Params)
    ensures forall k :: k in m <==> k in KeysOf(kvs)
    ensures NoDup(KeysOf(kvs)) ==> forall i :: 0 <= i < |kvs| ==> m[kvs[i].key] == kvs[i].value
  {
    if |kvs| == 0 then map[]
    else
      var init := kvs[..|kvs| - 1];
      var last := kvs[|kvs| - 1];
      assert KeysOf(kvs) == KeysOf(init) + [last.key];
      KeyValueMap(init)[last.key := last.value]
  }

  /**
   * The tail of `parseIndexParams`: dim and max_length are dropped from the index parameters,
   * which keep everything else; a type parameter is emitted only when the remaining index
   * parameters do not hold its key.
   */
  function SplitIndexAndTypeParams(indexMap: Params, typeParams: seq<KeyValuePair>): (r: SplitParams)
    ensures DimKey !in r.indexParams && MaxLengthKey !in r.indexParams
    ensures r.indexParams.Keys !! r.typeParams.Keys
    ensures forall k :: k in indexMap && k != DimKey && k != MaxLengthKey ==> k in r.indexParams && r.indexParams[k] == indexMap[k]
    ensures forall k :: k in r.indexParams ==> k in indexMap
    ensures forall k :: k in r.typeParams ==> k in KeysOf(typeParams)
    ensures forall k :: k in r.typeParams ==> r.typeParams[k] == KeyValueMap(typeParams)[k]
    ensures forall i :: 0 <= i < |typeParams| ==> typeParams[i].key in r.indexParams || typeParams[i].key in r.typeParams
  {
    var kept := map k | k in indexMap && k != DimKey && k != MaxLengthKey :: indexMap[k];
    var typeMap := KeyValueMap(typeParams);
    SplitParams(kept, map k | k in typeMap && k !in kept :: typeMap[k])
  }

  /** The schema's dimension and maximum length always stay type parameters, with their schema values. */
  lemma SchemaDimStaysATypeParam(indexMap: Params, typeParams: seq<KeyValuePair>, i: nat)
    requires i < |typeParams| && NoDup(KeysOf(typeParams))
    requires typeParams[i].key == DimKey || typeParams[i].key == MaxLengthKey
    ensures var r := SplitIndexAndTypeParams(indexMap, typeParams);
      typeParams[i].key in r.typeParams && r.typeParams[typeParams[i].key] == typeParams[i].value
  {
    var r := SplitIndexAndTypeParams(indexMap, typeParams);
    assert typeParams[i].key in KeysOf(typeParams);
    assert typeParams[i].key !in r.indexParams;
  }

  // ---------------------------------------------------------------------------
  // describeIndex: the parameters and the field name shown

  /**
   * The parameters `describeIndex` shows: the user's own when they were recorded, otherwise the
   * AUTOINDEX wrapper around the stored metric type when there is one, otherwise none.
   */
  function DescribedParams(userParams: seq<KeyValuePair>, indexParams: seq<KeyValuePair>): (r: seq<KeyValuePair>)
    ensures |userParams| > 0 ==> r == userParams
    ensures |userParams| == 0 && MetricTypeKey !in KeysOf(indexParams) ==> r == []
    ensures |userParams| == 0 && MetricTypeKey in KeysOf(indexParams) ==>
      Lookup(r, MetricTypeKey) == Lookup(indexParams, MetricTypeKey) && Lookup(r, IndexTypeKey) == Some(AutoIndexName)
  {
    if |userParams| > 0 then userParams
    else
      match Lookup(indexParams, MetricTypeKey)
      case None => []
      case Some(metricType) => WrapUserIndexParams(metricType)
  }

  /** RFC 6901 section 3: a reference token's escape of one character. */
  function EscapeChar(ch: char): (r: string)
    ensures '/' !in r
  {
    if ch == '~' then "~0" else if ch == '/' then "~1" else [ch]
  }

  /** RFC 6901 section 3: the reference token that names a member called `name`. */
  function EscapeToken(name: string): (r: string)
    ensures '/' !in r
    ensures |r| >= |name|
  {
    if |name| == 0 then "" else EscapeChar(name[0]) + EscapeToken(name[1..])
  }

  /** RFC 6901 section 4, in the order it prescribes: `~1` becomes `/` first, then `~0` becomes `~`. */
  function UnescapeToken(token: string): string {
    ReplaceAll(ReplaceAll(token, "~1", "/"), "~0", "~")
  }

  /** The member name of a dynamic-field JSON path: one leading `/` dropped, up to the next `/`, unescaped. */
  function FieldNameOfJsonPath(path: string): string {
    var trimmed := TrimPrefix(path, "/");
    var segment := match IndexOf(trimmed, '/') case None => trimmed case Some(i) => trimmed[..i];
    UnescapeToken(segment)
  }

  /**
   * The field name `describeIndex` shows: the field's own name, except for the dynamic field
   * with a non-empty stored JSON path, which is described by the member that path names.
   */
  function DescribedFieldName(fieldName: string, isDynamic: bool, indexParams: seq<KeyValuePair>): (r: string)
    ensures !isDynamic ==> r == fieldName
    ensures isDynamic && (Lookup(indexParams, JsonPathKey).None? || Lookup(indexParams, JsonPathKey) == Some("")) ==> r == fieldName
  {
    if !isDynamic then fieldName
    else
      match Lookup(indexParams, JsonPathKey)
      case None => fieldName
      case Some(path) => if path == "" then fieldName else FieldNameOfJsonPath(path)
  }

  /** The escape with `~` written as `~0` and `/` left as it is: what remains after the first replacement. */
  function HalfEscaped(name: string): string {
    if |name| == 0 then ""
    else (if name[0] == '~' then "~0" else [name[0]]) + HalfEscaped(name[1..])
  }

  lemma {:induction false} UnescapeSlashes(name: string)
    ensures ReplaceAll(EscapeToken(name), "~1", "/") == HalfEscaped(name)
    decreases |name|
  {
    if |name| > 0 {
      var rest := EscapeToken(name[1..]);
      UnescapeSlashes(name[1..]);
      var ch := name[0];
      if ch == '~' {
        var e := "~0" + rest;
        assert e == ['~', '0'] + rest;
        assert e[1..] == ['0'] + rest;
        assert e[..2] == "~0";
        ReplaceAllSkip('0', rest, "~1", "/");
      } else if ch == '/' {
        ReplaceAllMatch(rest, "~1", "/");
      } else {
        ReplaceAllSkip(ch, rest, "~1", "/");
      }
    }
  }

  lemma {:induction false} UnescapeTildes(name: string)
    ensures ReplaceAll(HalfEscaped(name), "~0", "~") == name
    decreases |name|
  {
    if |name| > 0 {
      var ch, rest := name[0], name[1..];
      var half := HalfEscaped(rest);
      UnescapeTildes(rest);
      assert name == [ch] + rest;
      if ch == '~' {
        assert HalfEscaped(name) == "~0" + half;
        ReplaceAllMatch(half, "~0", "~");
      } else {
        assert HalfEscaped(name) == [ch] + half;
        ReplaceAllSkip(ch, half, "~0", "~");
      }
    }
  }

  /** Unescaping an escaped reference token gives back the member name. */
  lemma UnescapeEscapeRoundTrip(name: string)
    ensures UnescapeToken(EscapeToken(name)) == name
  {
    UnescapeSlashes(name);
    UnescapeTildes(name);
  }

  /** The JSON path is a slash-free token at the top, perhaps followed by a deeper path: the token is the segment unescaped. */
  lemma FirstSegmentOfPath(token: string, deeper: Option<string>)
    requires '/' !in token
    ensures FieldNameOfJsonPath("/" + token + (if deeper.Some? then "/" + deeper.value else "")) == UnescapeToken(token)
  {
    var path := "/" + token + (if deeper.Some? then "/" + deeper.value else "");
    assert HasPrefix(path, "/");
    var trimmed := TrimPrefix(path, "/");
    assert trimmed == token + (if deeper.Some? then "/" + deeper.value else "");
    if deeper.Some? {
      assert trimmed[|token|] == '/';
      assert NotBefore(trimmed, '/', |token|) by {
        forall k | 0 <= k < |token| ensures trimmed[k] != '/' {
          assert trimmed[k] == token[k];
        }
      }
      assert IndexOf(trimmed, '/') == Some(|token|);
      assert trimmed[..|token|] == token;
    } else {
      assert trimmed == token;
    }
  }

  /**
   * A dynamic-field index on the member `name` (at the top of the path, or with a deeper path
   * after it) is described under `name` itself, whatever `~` and `/` it contains.
   */
  lemma DynamicFieldNameRoundTrip(fieldName: string, name: string, deeper: Option<string>, otherParams: seq<KeyValuePair>)
    requires JsonPathKey !in KeysOf(otherParams)
    ensures var path := "/" + EscapeToken(name) + (if deeper.Some? then "/" + deeper.value else "");
      DescribedFieldName(fieldName, true, [KeyValuePair(JsonPathKey, path)] + otherParams) == name
  {
    var token := EscapeToken(name);
    var path := "/" + token + (if deeper.Some? then "/" + deeper.value else "");
    var kvs := [KeyValuePair(JsonPathKey, path)] + otherParams;
    assert kvs[0].key == JsonPathKey;
    assert Lookup(kvs, JsonPathKey) == Some(path);
    assert path != "";
    FirstSegmentOfPath(token, deeper);
    UnescapeEscapeRoundTrip(name);
  }

  // ---------------------------------------------------------------------------
  // alterIndex

  /**
   * The argument check of `alterIndexTask.PreExecute`: delete keys and extra parameters are
   * mutually exclusive, and every key named must be a configurable index property.
   */
  function CheckAlterIndexArgs(deleteKeys: seq<string>, extra: seq<KeyValuePair>, configurable: string -> bool): (r: Result<()>)
    ensures |deleteKeys| > 0 && |extra| > 0 ==> r == Err(DeleteKeysWithExtraParams)
    ensures r.Ok? <==>
      (|deleteKeys| == 0 || |extra| == 0)
      && (forall i :: 0 <= i < |extra| ==> configurable(extra[i].key))
      && (forall i :: 0 <= i < |deleteKeys| ==> configurable(deleteKeys[i]))
    ensures r.Err? ==> r.error == DeleteKeysWithExtraParams || r.error == NotConfigurableIndexParam
  {
    if |deleteKeys| > 0 && |extra| > 0 then Err(DeleteKeysWithExtraParams)
    else if |extra| > 0 then
      if forall i :: 0 <= i < |extra| ==> configurable(extra[i].key) then Ok(()) else Err(NotConfigurableIndexParam)
    else if forall i :: 0 <= i < |deleteKeys| ==> configurable(deleteKeys[i]) then Ok(())
    else Err(NotConfigurableIndexParam)
  }

  /** The alter request the proxy forwards to the coordinator. */
  datatype AlterIndexRequest = AlterIndexRequest(collectionId: int, indexName: string, params: seq<KeyValuePair>, deleteKeys: seq<string>)

  /**
   * `alterIndexTask.PreExecute` followed by the request `Execute` forwards. The checks run in
   * order: the arguments, the collection lookup (`collectionId`, from the meta cache), a non-empty
   * index name, and whether the collection is loaded (`loaded`, from the coordinator).
   */
  function AlterIndex(indexName: string, deleteKeys: seq<string>, extra: seq<KeyValuePair>, configurable: string -> bool,
                      collectionId: Result<int>, loaded: Result<bool>): (r: Result<AlterIndexRequest>)
    ensures CheckAlterIndexArgs(deleteKeys, extra, configurable).Err? ==> r == Err(CheckAlterIndexArgs(deleteKeys, extra, configurable).error)
    ensures r.Ok? ==> collectionId.Ok? && |indexName| > 0 && loaded == Ok(false)
    ensures r.Ok? ==> r.value == AlterIndexRequest(collectionId.value, indexName, extra, deleteKeys)
    ensures r.Ok? ==> r.value.params == [] || r.value.deleteKeys == []
    ensures r.Ok? ==> forall i :: 0 <= i < |r.value.params| ==> configurable(r.value.params[i].key)
    ensures r.Ok? ==> forall i :: 0 <= i < |r.value.deleteKeys| ==> configurable(r.value.deleteKeys[i])
    ensures CheckAlterIndexArgs(deleteKeys, extra, configurable).Ok? && collectionId.Err? ==> r == Err(collectionId.error)
    ensures CheckAlterIndexArgs(deleteKeys, extra, configurable).Ok? && collectionId.Ok? && |indexName| == 0 ==>
      r == Err(EmptyIndexName)
    ensures CheckAlterIndexArgs(deleteKeys, extra, configurable).Ok? && collectionId.Ok? && |indexName| > 0 && loaded.Err? ==>
      r == Err(loaded.error)
    ensures CheckAlterIndexArgs(deleteKeys, extra, configurable).Ok? && collectionId.Ok? && |indexName| > 0 && loaded == Ok(true) ==>
      r == Err(CollectionLoaded)
    ensures CheckAlterIndexArgs(deleteKeys, extra, configurable).Ok? && collectionId.Ok? && |indexName| > 0 && loaded == Ok(false) ==>
      r == Ok(AlterIndexRequest(collectionId.value, indexName, extra, deleteKeys))
  {
    match CheckAlterIndexArgs(deleteKeys, extra, configurable)
    case Err(e) => Err(e)
    case Ok(_) =>
      match collectionId
      case Err(e) => Err(e)
      case Ok(id) =>
        if |indexName| == 0 then Err(EmptyIndexName)
        else
          match loaded
          case Err(e) => Err(e)
          case Ok(isLoaded) =>
            if isLoaded then Err(CollectionLoaded)
            else Ok(AlterIndexRequest(id, indexName, extra, deleteKeys))
  }
}
