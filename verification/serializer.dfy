/**
 * `BundleSerializer` and the helpers it calls, as methods that update a
 * shared `JsonReader`.  Each method is proved to return what the matching
 * function of `ValueDecoding`, `QueryDecoding` or `ElementDecoding`
 * computes, and to leave the reader in the status that function gives.
 * The serializer's only state is the wire serializer it was built with;
 * decoding changes the reader and nothing else.
 */
module Serializer {
  import opened Wrappers
  import opened JsonTree
  import opened Numbers
  import opened Model
  import opened ReadStatus
  import opened Reader
  import opened ValueDecoding
  import opened QueryDecoding
  import opened ElementDecoding

  method DecodeTimestamp(reader: JsonReader, lib: Library, version: Json) returns (t: Timestamp)
    modifies reader
    ensures Decoded(t, reader.status) == TimestampOf(lib, old(reader.status), version)
  {
    var decoded: Result<Timestamp, string>;
    if version.JStr? {
      var time := lib.parseTime(version.str);
      if time.Success? {
        decoded := lib.timestampFromTime(time.value);
      } else {
        reader.Fail(TimestampParseFailure(time.error));
        return Epoch;
      }
    } else {
      var seconds := reader.RequireInt(Int64, "seconds", version);
      var nanos := reader.RequireInt(Int32, "nanos", version);
      decoded := lib.timestampFromSecondsAndNanos(seconds, nanos);
    }
    if decoded.Failure? {
      reader.SetStatus(Reported(decoded.error));
      return Epoch;
    }
    return decoded.value;
  }

  method DecodeSnapshotVersion(reader: JsonReader, lib: Library, version: Json) returns (v: SnapshotVersion)
    modifies reader
    ensures Decoded(v, reader.status) == SnapshotVersionOf(lib, old(reader.status), version)
  {
    var t := DecodeTimestamp(reader, lib, version);
    return SnapshotVersion(t);
  }

  method VerifyStructuredQuery(reader: JsonReader, query: Json)
    modifies reader
    ensures reader.status == Verified(old(reader.status), query)
  {
    if !query.JObj? {
      reader.Fail(StructuredQueryNotObject);
      return;
    }
    if Contains(query, "select") {
      reader.Fail(SelectUnsupported);
      return;
    }
    if !Contains(query, "from") {
      reader.Fail(MissingFrom);
      return;
    }
    if Contains(query, "offset") {
      reader.Fail(OffsetUnsupported);
      return;
    }
  }

  /** Gives the updated `parent` and `group`, which the source passes by reference. */
  method DecodeCollectionSource(reader: JsonReader, fromJson: Json, parent: ResourcePath, group: string)
    returns (newParent: ResourcePath, newGroup: string)
    requires fromJson.JArr?
    modifies reader
    ensures Decoded((newParent, newGroup), reader.status) == CollectionSourceOf(old(reader.status), fromJson, parent, group)
  {
    newParent, newGroup := parent, group;
    var from := fromJson.items;
    if |from| != 1 {
      reader.Fail(MultipleFrom);
      return;
    }
    var collectionSelector := from[0];
    var collectionId := reader.RequireString("collectionId", collectionSelector);
    var allDescendants := JsonReader.OptionalBool("allDescendants", collectionSelector);
    if allDescendants {
      newGroup := collectionId;
    } else {
      newParent := parent + [collectionId];
    }
  }

  method DecodeFieldReference(reader: JsonReader, lib: Library, field: Json) returns (path: FieldPath)
    modifies reader
    ensures Decoded(path, reader.status) == FieldReferenceOf(lib, old(reader.status), field)
  {
    if !field.JObj? {
      reader.Fail(FieldNotObject);
      return EmptyFieldPath;
    }
    var fieldPath := reader.RequireString("fieldPath", field);
    var result := lib.fieldPathFromServerFormat(fieldPath);
    if result.Failure? {
      reader.SetStatus(Reported(result.error));
      return EmptyFieldPath;
    }
    return result.value;
  }

  method DecodeFieldFilterOperator(reader: JsonReader, op: string) returns (r: Operator)
    modifies reader
    ensures Decoded(r, reader.status) == OperatorOf(old(reader.status), op)
  {
    var known := OperatorFromName(op);
    if known.Some? {
      return known.value;
    }
    reader.Fail(InvalidOperator(op));
    return Equal;
  }

  method DecodeUnaryFilter(reader: JsonReader, lib: Library, filter: Json) returns (r: Filter)
    modifies reader
    ensures Decoded(r, reader.status) == UnaryFilterOf(lib, old(reader.status), filter)
  {
    var field := reader.Require("field", filter);
    var path := DecodeFieldReference(reader, lib, field);
    var op := reader.RequireString("op", filter);
    if !reader.IsOk() {
      return InvalidFilter;
    }
    if op == "IS_NAN" {
      return CreateFieldFilter(path, Equal, DoubleValue(NaN), reader.status);
    } else if op == "IS_NULL" {
      return CreateFieldFilter(path, Equal, Null, reader.status);
    } else if op == "IS_NOT_NAN" {
      return CreateFieldFilter(path, NotEqual, DoubleValue(NaN), reader.status);
    } else if op == "IS_NOT_NULL" {
      return CreateFieldFilter(path, NotEqual, Null, reader.status);
    }
    reader.Fail(InvalidUnaryOperator(op));
    return InvalidFilter;
  }

  method DecodeOrderBy(reader: JsonReader, lib: Library, query: Json) returns (result: seq<OrderBy>)
    modifies reader
    ensures Decoded(result, reader.status) == OrderBysOf(lib, old(reader.status), query)
  {
    ghost var s0 := reader.status;
    var orderBys := reader.RequireArray("orderBy", query);
    result := [];
    var i := 0;
    while i < |orderBys|
      invariant i <= |orderBys|
      invariant OrderBysOf(lib, s0, query) == OrderBysFrom(lib, orderBys, i, result, reader.status)
    {
      var orderBy := orderBys[i];
      var field := reader.Require("field", orderBy);
      var path := DecodeFieldReference(reader, lib, field);
      var directionString := "ASCENDING";
      if Contains(orderBy, "direction") {
        directionString := reader.RequireString("direction", orderBy);
      }
      if directionString != "DESCENDING" && directionString != "ASCENDING" {
        reader.Fail(InvalidDirection(directionString));
        return [];
      }
      var direction := if directionString == "ASCENDING" then Ascending else Descending;
      result := result + [OrderBy(path, direction)];
      i := i + 1;
    }
  }

  method DecodeLimit(reader: JsonReader, query: Json) returns (limit: int)
    modifies reader
    ensures Decoded(limit, reader.status) == LimitOf(old(reader.status), query)
  {
    limit := NoLimit;
    if Contains(query, "limit") {
      if !At(query, "limit").JInt? {
        reader.Fail(LimitNotInteger);
        return limit;
      }
      limit := Narrow(Int32, At(query, "limit").i);
    }
  }

  method DecodeLimitType(reader: JsonReader, query: Json) returns (r: LimitType)
    modifies reader
    ensures Decoded(r, reader.status) == LimitTypeOf(old(reader.status), query)
  {
    var limitType := "FIRST";
    if Contains(query, "limitType") {
      limitType := reader.RequireString("limitType", query);
    }
    if limitType == "FIRST" {
      return First;
    } else if limitType == "LAST" {
      return Last;
    } else {
      reader.Fail(InvalidLimitType);
      return Unspecified;
    }
  }

  method DecodeGeoPointValue(reader: JsonReader, lib: Library, geoJson: Json) returns (r: FieldValue)
    modifies reader
    ensures Decoded(r, reader.status) == GeoPointOf(lib, old(reader.status), geoJson)
  {
    var latitude := Zero;
    if Contains(geoJson, "latitude") {
      latitude := reader.RequireDouble(lib, "latitude", geoJson);
    }
    var longitude := Zero;
    if Contains(geoJson, "longitude") {
      longitude := reader.RequireDouble(lib, "longitude", geoJson);
    }
    return GeoPointValue(latitude, longitude);
  }

  method DecodeBytesValue(reader: JsonReader, lib: Library, bytesString: string) returns (r: FieldValue)
    modifies reader
    ensures Decoded(r, reader.status) == BytesOf(lib, old(reader.status), bytesString)
  {
    var decoded := lib.base64Unescape(bytesString);
    if decoded.None? {
      reader.Fail(InvalidBase64);
      return Null;
    }
    return BlobValue(decoded.value);
  }

  class BundleSerializer {
    /** `rpc_serializer_`, fixed at construction. */
    const rpc: RpcSerializer

    constructor (rpc: RpcSerializer)
      ensures this.rpc == rpc
    {
      this.rpc := rpc;
    }

    method DecodeBundleMetadata(reader: JsonReader, lib: Library, metadata: Parsed) returns (r: BundleMetadata)
      modifies reader
      ensures Decoded(r, reader.status) == BundleMetadataOf(lib, old(reader.status), metadata)
    {
      if metadata.Discarded? {
        reader.Fail(ParseFailure(metadata.text));
        return DefaultBundleMetadata;
      }
      var root := metadata.root;
      var id := reader.RequireString("id", root);
      var version := reader.RequireInt(UInt32, "version", root);
      var createTimeJson := reader.Require("createTime", root);
      var createTime := DecodeSnapshotVersion(reader, lib, createTimeJson);
      var totalDocuments := reader.RequireInt(UInt32, "totalDocuments", root);
      var totalBytes := reader.RequireInt(UInt64, "totalBytes", root);
      return BundleMetadata(id, version, createTime, totalDocuments, totalBytes);
    }

    method DecodeNamedQuery(reader: JsonReader, lib: Library, namedQuery: Parsed) returns (r: NamedQuery)
      requires NamedQueryDecodable(lib, rpc, reader.status, namedQuery)
      modifies reader
      ensures Decoded(r, reader.status) == NamedQueryOf(lib, rpc, old(reader.status), namedQuery)
    {
      if namedQuery.Discarded? {
        reader.Fail(ParseFailure(namedQuery.text));
        return DefaultNamedQuery;
      }
      var root := namedQuery.root;
      var name := reader.RequireString("name", root);
      var queryJson := reader.Require("bundledQuery", root);
      var query := DecodeBundledQuery(reader, lib, queryJson);
      var readTimeJson := reader.Require("readTime", root);
      var readTime := DecodeSnapshotVersion(reader, lib, readTimeJson);
      return NamedQuery(name, query, readTime);
    }

    method DecodeBundledQuery(reader: JsonReader, lib: Library, query: Json) returns (r: BundledQuery)
      requires FromIsArray(reader.status, query) && ParentHasPrefix(lib, rpc, reader.status, query)
      modifies reader
      ensures Decoded(r, reader.status) == BundledQueryOf(lib, rpc, old(reader.status), query)
    {
      var structuredQuery := reader.Require("structuredQuery", query);
      VerifyStructuredQuery(reader, structuredQuery);
      if !reader.IsOk() {
        return DefaultBundledQuery;
      }
      var parentJson := reader.Require("parent", query);
      var parent := DecodeName(reader, lib, parentJson);
      var groupString;
      parent, groupString := DecodeCollectionSource(reader, At(structuredQuery, "from"), parent, "");
      var group := None;
      if groupString != "" {
        group := Some(groupString);
      }
      var filters := DecodeWhere(reader, lib, structuredQuery);
      var orderBys := DecodeOrderBy(reader, lib, structuredQuery);
      var startBound := DecodeBound(reader, lib, structuredQuery, "startAt");
      var startAt := None;
      if |startBound.position| != 0 {
        startAt := Some(startBound);
      }
      var endBound := DecodeBound(reader, lib, structuredQuery, "endAt");
      var endAt := None;
      if |endBound.position| != 0 {
        endAt := Some(endBound);
      }
      var limit := DecodeLimit(reader, structuredQuery);
      var limitType := DecodeLimitType(reader, query);
      return BundledQuery(Target(parent, group, filters, orderBys, limit, startAt, endAt), limitType);
    }

    method DecodeName(reader: JsonReader, lib: Library, documentName: Json) returns (path: ResourcePath)
      requires NameHasPrefix(lib, rpc, documentName)
      modifies reader
      ensures Decoded(path, reader.status) == NameOf(lib, rpc, old(reader.status), documentName)
    {
      if !documentName.JStr? {
        reader.Fail(NameNotString);
        return [];
      }
      var fullPath := lib.resourcePathFromString(documentName.str);
      if !rpc.isLocalResourceName(fullPath) {
        reader.Fail(NotLocalResourceName(fullPath));
        return [];
      }
      return fullPath[5..];
    }

    method DecodeWhere(reader: JsonReader, lib: Library, query: Json) returns (r: seq<Filter>)
      modifies reader
      ensures Decoded(r, reader.status) == WhereOf(lib, rpc, old(reader.status), query)
    {
      if !Contains(query, "where") {
        return [];
      }
      var where := At(query, "where");
      if !where.JObj? {
        reader.Fail(WhereNotObject);
        return [];
      }
      if Contains(where, "compositeFilter") {
        r := DecodeCompositeFilter(reader, lib, At(where, "compositeFilter"));
      } else if Contains(where, "fieldFilter") {
        var filter := DecodeFieldFilter(reader, lib, At(where, "fieldFilter"));
        r := [filter];
      } else if Contains(where, "unaryFilter") {
        var filter := DecodeUnaryFilter(reader, lib, At(where, "unaryFilter"));
        r := [filter];
      } else {
        reader.Fail(NoValidFilter);
        r := [];
      }
    }

    method DecodeFieldFilter(reader: JsonReader, lib: Library, filter: Json) returns (r: Filter)
      modifies reader
      ensures Decoded(r, reader.status) == FieldFilterOf(lib, rpc, old(reader.status), filter)
    {
      var field := reader.Require("field", filter);
      var path := DecodeFieldReference(reader, lib, field);
      var opString := reader.RequireString("op", filter);
      var op := DecodeFieldFilterOperator(reader, opString);
      var valueJson := reader.Require("value", filter);
      var value := DecodeValue(reader, lib, valueJson);
      if !reader.IsOk() {
        return InvalidFilter;
      }
      return CreateFieldFilter(path, op, value, reader.status);
    }

    method DecodeCompositeFilter(reader: JsonReader, lib: Library, filter: Json) returns (result: seq<Filter>)
      modifies reader
      ensures Decoded(result, reader.status) == CompositeFilterOf(lib, rpc, old(reader.status), filter)
    {
      var op := reader.RequireString("op", filter);
      if op != "AND" {
        reader.Fail(NotAndComposite);
        return [];
      }
      var filters := reader.RequireArray("filters", filter);
      ghost var s2 := reader.status;
      result := [];
      var i := 0;
      while i < |filters|
        invariant i <= |filters|
        invariant CompositeFrom(lib, rpc, filters, 0, [], s2) == CompositeFrom(lib, rpc, filters, i, result, reader.status)
      {
        var child := reader.Require("fieldFilter", filters[i]);
        var f := DecodeFieldFilter(reader, lib, child);
        result := result + [f];
        if !reader.IsOk() {
          return [];
        }
        i := i + 1;
      }
    }

    method DecodeBound(reader: JsonReader, lib: Library, query: Json, boundName: string) returns (r: Bound)
      modifies reader
      ensures Decoded(r, reader.status) == BoundOf(lib, rpc, old(reader.status), query, boundName)
    {
      if !Contains(query, boundName) {
        return Bound([], false);
      }
      var boundJson := reader.Require(boundName, query);
      var before := JsonReader.OptionalBool("before", boundJson);
      var values := reader.RequireArray("values", boundJson);
      ghost var s1 := reader.status;
      var positions := [];
      var i := 0;
      while i < |values|
        invariant i <= |values|
        invariant forall k :: 0 <= k < |values| ==> values[k] < boundJson
        invariant ValuesFrom(lib, rpc, boundJson, values, 0, [], s1) ==
                  ValuesFrom(lib, rpc, boundJson, values, i, positions, reader.status)
      {
        var v := DecodeValue(reader, lib, values[i]);
        positions := positions + [v];
        i := i + 1;
      }
      return Bound(positions, before);
    }

    /**
     * `DecodeValue`: the chain of `contains` tests is `TypeOf`; the branch
     * it selects is `DecodeTypedValue`.
     */
    method DecodeValue(reader: JsonReader, lib: Library, value: Json) returns (r: FieldValue)
      modifies reader
      decreases value, 4
      ensures Decoded(r, reader.status) == ValueOf(lib, rpc, old(reader.status), value)
    {
      if !value.JObj? {
        reader.Fail(ValueNotObject);
        return Null;
      }
      var t := TypeOf(value);
      if t.None? {
        reader.Fail(NoValueType);
        return Null;
      }
      TypeKeyPresent(value);
      r := DecodeTypedValue(reader, lib, t.value, value);
    }

    /** One branch of `DecodeValue`: `value` holds the key of type `t`. */
    method DecodeTypedValue(reader: JsonReader, lib: Library, t: ValueType, value: Json) returns (r: FieldValue)
      requires Contains(value, t.Key())
      modifies reader
      decreases value, 3
      ensures Decoded(r, reader.status) == TypedValueOf(lib, rpc, old(reader.status), t, At(value, t.Key()))
    {
      match t
      case NullType =>
        return Null;
      case BooleanType =>
        var b := At(value, "booleanValue");
        if !b.JBool? {
          reader.Fail(BooleanNotBoolean);
          return Null;
        }
        return BooleanValue(b.b);
      case IntegerType =>
        var i := reader.RequireInt(Int64, "integerValue", value);
        return IntegerValue(i);
      case DoubleType =>
        var d := reader.RequireDouble(lib, "doubleValue", value);
        return DoubleValue(d);
      case TimestampType =>
        var time := DecodeTimestamp(reader, lib, At(value, "timestampValue"));
        return TimestampValue(time);
      case StringType =>
        var s := reader.RequireString("stringValue", value);
        return StringValue(s);
      case BytesType =>
        var s := reader.RequireString("bytesValue", value);
        r := DecodeBytesValue(reader, lib, s);
      case ReferenceType =>
        var s := reader.RequireString("referenceValue", value);
        r := DecodeReferenceValue(reader, s);
      case GeoPointType =>
        r := DecodeGeoPointValue(reader, lib, At(value, "geoPointValue"));
      case ArrayType =>
        r := DecodeArrayValue(reader, lib, At(value, "arrayValue"));
      case MapType =>
        r := DecodeMapValue(reader, lib, At(value, "mapValue"));
    }

    method DecodeMapValue(reader: JsonReader, lib: Library, mapJson: Json) returns (r: FieldValue)
      modifies reader
      decreases mapJson, 2
      ensures Decoded(r, reader.status) == MapValueOf(lib, rpc, old(reader.status), mapJson)
    {
      if !Contains(mapJson, "fields") {
        reader.Fail(InvalidMapValue);
        return Null;
      }
      var fields := At(mapJson, "fields");
      if !fields.JObj? {
        reader.Fail(InvalidMapFields);
        return Null;
      }
      ghost var s0 := reader.status;
      var members := fields.members;
      assert forall k :: 0 <= k < |members| ==> members[k].1 < mapJson;
      var fieldValues := map[];
      var i := 0;
      while i < |members|
        invariant i <= |members|
        invariant MembersFrom(lib, rpc, mapJson, members, 0, map[], s0) ==
                  MembersFrom(lib, rpc, mapJson, members, i, fieldValues, reader.status)
      {
        var v := DecodeValue(reader, lib, members[i].1);
        fieldValues := fieldValues[members[i].0 := v];
        i := i + 1;
      }
      return MapValue(fieldValues);
    }

    method DecodeArrayValue(reader: JsonReader, lib: Library, arrayJson: Json) returns (r: FieldValue)
      modifies reader
      decreases arrayJson, 2
      ensures Decoded(r, reader.status) == ArrayValueOf(lib, rpc, old(reader.status), arrayJson)
    {
      var values := reader.RequireArray("values", arrayJson);
      ghost var s1 := reader.status;
      var fieldValues := [];
      var i := 0;
      while i < |values|
        invariant i <= |values|
        invariant ValuesFrom(lib, rpc, arrayJson, values, 0, [], s1) ==
                  ValuesFrom(lib, rpc, arrayJson, values, i, fieldValues, reader.status)
      {
        var v := DecodeValue(reader, lib, values[i]);
        fieldValues := fieldValues + [v];
        i := i + 1;
      }
      if !reader.IsOk() {
        return Null;
      }
      return ArrayValue(fieldValues);
    }

    method DecodeReferenceValue(reader: JsonReader, refString: string) returns (r: FieldValue)
      modifies reader
      ensures Decoded(r, reader.status) == ReferenceOf(rpc, old(reader.status), refString)
    {
      if !reader.IsOk() {
        return Null;
      }
      var (value, failure) := rpc.decodeReference(refString);
      if failure.Some? {
        reader.Fail(Reported(failure.value));
      }
      return value;
    }

    method DecodeDocumentMetadata(reader: JsonReader, lib: Library, documentMetadata: Parsed)
      returns (r: BundledDocumentMetadata)
      requires documentMetadata.Tree? ==> NamePrefixed(lib, rpc, documentMetadata.root)
      modifies reader
      ensures Decoded(r, reader.status) == DocumentMetadataOf(lib, rpc, old(reader.status), documentMetadata)
    {
      if documentMetadata.Discarded? {
        reader.Fail(ParseFailure(documentMetadata.text));
        return DefaultDocumentMetadata;
      }
      var root := documentMetadata.root;
      var nameJson := reader.Require("name", root);
      var path := DecodeName(reader, lib, nameJson);
      if !reader.IsOk() {
        return DefaultDocumentMetadata;
      }
      var key := MakeDocumentKey(path, reader.status);
      var readTimeJson := reader.Require("readTime", root);
      var readTime := DecodeSnapshotVersion(reader, lib, readTimeJson);
      var documentExists := JsonReader.OptionalBool("exists", root);
      var queryJsons := reader.RequireArray("queries", root);
      var queries := [];
      var i := 0;
      while i < |queryJsons|
        invariant i <= |queryJsons|
        invariant QueryNamesFrom(queryJsons, 0, []) == QueryNamesFrom(queryJsons, i, queries)
      {
        if !queryJsons[i].JStr? {
          reader.Fail(QueryNameNotString);
          return DefaultDocumentMetadata;
        }
        queries := queries + [queryJsons[i].str];
        i := i + 1;
      }
      return BundledDocumentMetadata(key, readTime, documentExists, queries);
    }

    /** `DecodeDocument`, returning the default document where `object_value()` would abort. */
    method DecodeDocument(reader: JsonReader, lib: Library, document: Parsed) returns (r: BundleDocument)
      requires document.Tree? ==> NamePrefixed(lib, rpc, document.root)
      modifies reader
      ensures Decoded(r, reader.status) == DocumentOf(lib, rpc, old(reader.status), document)
    {
      if document.Discarded? {
        reader.Fail(ParseFailure(document.text));
        return DefaultBundleDocument;
      }
      var root := document.root;
      var nameJson := reader.Require("name", root);
      var path := DecodeName(reader, lib, nameJson);
      if !reader.IsOk() {
        return DefaultBundleDocument;
      }
      var key := MakeDocumentKey(path, reader.status);
      var updateTimeJson := reader.Require("updateTime", root);
      var updateTime := DecodeSnapshotVersion(reader, lib, updateTimeJson);
      var mapValue := DecodeMapValue(reader, lib, root);
      if !mapValue.MapValue? {
        return DefaultBundleDocument;
      }
      return BundleDocument(Document(mapValue.fields, key, updateTime, Synced));
    }
  }
}
