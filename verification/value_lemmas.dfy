/**
 * Properties of value decoding: the fixed precedence of the type keys, the
 * type of what a successful decoding produces, and that decoding inverts
 * the bundle encoding of every value whose encoding does not go through an
 * outside library.
 */
module ValueLemmas {
  import opened Wrappers
  import opened JsonTree
  import opened Numbers
  import opened Model
  import opened ReadStatus
  import opened Reader
  import opened ValueDecoding

  /** `KeyBoundsType` for the types of rank 0 to 3. */
  lemma KeyBoundsRanks0To3(j: Json, u: ValueType)
    requires u.Rank() < 4
    ensures Contains(j, u.Key()) ==> TypeOf(j).Some? && TypeOf(j).value.Rank() <= u.Rank()
  {
    match u
    case NullType =>
    case BooleanType =>
    case IntegerType =>
    case DoubleType =>
    case _ =>
  }

  /** `KeyBoundsType` for the types of rank 4 to 6. */
  lemma KeyBoundsRanks4To6(j: Json, u: ValueType)
    requires 4 <= u.Rank() < 7
    ensures Contains(j, u.Key()) ==> TypeOf(j).Some? && TypeOf(j).value.Rank() <= u.Rank()
  {
    match u
    case TimestampType =>
    case StringType =>
    case BytesType =>
    case _ =>
  }

  /** `KeyBoundsType` for the types of rank 7 to 8. */
  lemma KeyBoundsRanks7To8(j: Json, u: ValueType)
    requires 7 <= u.Rank() < 9
    ensures Contains(j, u.Key()) ==> TypeOf(j).Some? && TypeOf(j).value.Rank() <= u.Rank()
  {
    match u
    case ReferenceType =>
    case GeoPointType =>
    case _ =>
  }

  /** `KeyBoundsType` for the types of rank 9 to 10. */
  lemma KeyBoundsRanks9To10(j: Json, u: ValueType)
    requires 9 <= u.Rank()
    ensures Contains(j, u.Key()) ==> TypeOf(j).Some? && TypeOf(j).value.Rank() <= u.Rank()
  {
    match u
    case ArrayType =>
    case MapType =>
    case _ =>
  }

  /** A present type key bounds the rank of the type that is found. */
  lemma KeyBoundsType(j: Json, u: ValueType)
    ensures Contains(j, u.Key()) ==> TypeOf(j).Some? && TypeOf(j).value.Rank() <= u.Rank()
  {
    if u.Rank() < 4 {
      KeyBoundsRanks0To3(j, u);
    } else if u.Rank() < 7 {
      KeyBoundsRanks4To6(j, u);
    } else if u.Rank() < 9 {
      KeyBoundsRanks7To8(j, u);
    } else {
      KeyBoundsRanks9To10(j, u);
    }
  }

  /**
   * `DecodeValue` tests the type keys in a fixed order and takes the first
   * one present: the type found has its key in the object and no type of
   * lower rank does; no type is found exactly when no type key is present.
   */
  lemma TypeOfIsFirst(j: Json)
    ensures TypeOf(j).Some? ==> Contains(j, TypeOf(j).value.Key())
    ensures TypeOf(j).Some? ==>
      forall u: ValueType :: u.Rank() < TypeOf(j).value.Rank() ==> !Contains(j, u.Key())
    ensures TypeOf(j).None? <==> forall u: ValueType :: !Contains(j, u.Key())
  {
    TypeKeyPresent(j);
    forall u: ValueType
      ensures Contains(j, u.Key()) ==> TypeOf(j).Some? && TypeOf(j).value.Rank() <= u.Rank()
    {
      KeyBoundsType(j, u);
    }
  }

  /** An object with a single type key is of that type. */
  lemma AloneType(t: ValueType, v: Json)
    ensures TypeOf(JObj([(t.Key(), v)])) == Some(t)
  {
    match t
    case NullType =>
    case BooleanType =>
    case IntegerType =>
    case DoubleType =>
    case TimestampType =>
    case StringType =>
    case BytesType =>
    case ReferenceType =>
    case GeoPointType =>
    case ArrayType =>
    case MapType =>
  }

  /**
   * Nothing but the member under the first type key is looked at: an object
   * decodes exactly as the object holding only that member.
   */
  lemma FirstKeyWins(lib: Library, rpc: RpcSerializer, s: Status, j: Json)
    requires j.JObj? && TypeOf(j).Some?
    ensures Contains(j, TypeOf(j).value.Key())
    ensures var key := TypeOf(j).value.Key();
      ValueOf(lib, rpc, s, j) == ValueOf(lib, rpc, s, JObj([(key, At(j, key))]))
  {
    var t := TypeOf(j).value;
    TypeKeyPresent(j);
    var alone := JObj([(t.Key(), At(j, t.Key()))]);
    AloneType(t, At(j, t.Key()));
    assert At(alone, t.Key()) == At(j, t.Key());
  }

  /** An object holding one type key decodes as that key's branch of `DecodeValue`. */
  lemma ValueOfAlone(lib: Library, rpc: RpcSerializer, s: Status, t: ValueType, v: Json)
    ensures ValueOf(lib, rpc, s, JObj([(t.Key(), v)])) == TypedValueOf(lib, rpc, s, t, v)
  {
    AloneType(t, v);
    assert At(JObj([(t.Key(), v)]), t.Key()) == v;
  }

  /** A successful branch produces a value of the branch's type (a reference is the wire serializer's to build). */
  lemma TypedHasType(lib: Library, rpc: RpcSerializer, s: Status, t: ValueType, v: Json)
    ensures TypedValueOf(lib, rpc, s, t, v).status.Ok? && t != ReferenceType ==>
      HasType(TypedValueOf(lib, rpc, s, t, v).value, t)
  {
    match t
    case NullType =>
    case BooleanType =>
    case IntegerType =>
    case DoubleType =>
    case TimestampType =>
    case StringType =>
    case BytesType =>
    case ReferenceType =>
    case GeoPointType =>
    case ArrayType =>
    case MapType =>
  }

  /**
   * A value that decodes without failure is of the type its first type key
   * names, unless that key is `referenceValue`.
   */
  lemma DecodedHasType(lib: Library, rpc: RpcSerializer, s: Status, j: Json)
    ensures ValueOf(lib, rpc, s, j).status.Ok? ==>
      TypeOf(j).Some? &&
      (TypeOf(j).value != ReferenceType ==> HasType(ValueOf(lib, rpc, s, j).value, TypeOf(j).value))
  {
    if j.JObj? && TypeOf(j).Some? {
      var t := TypeOf(j).value;
      TypeKeyPresent(j);
      TypedHasType(lib, rpc, s, t, At(j, t.Key()));
    }
  }

  /** An object that carries none of the eleven type keys records a failure and gives the null value. */
  lemma NoTypeKeyFails(lib: Library, rpc: RpcSerializer, s: Status, j: Json)
    requires j.JObj?
    requires forall u: ValueType :: !Contains(j, u.Key())
    ensures ValueOf(lib, rpc, s, j) == Decoded(Null, s.Fail(NoValueType))
  {
    TypeOfIsFirst(j);
  }

  /** A double the bundle format can carry: NaN is not a JSON number. */
  predicate EncodableDouble(d: Double)
  {
    !d.NaN?
  }

  function EncodeDouble(d: Double): (r: Json)
    requires EncodableDouble(d)
    ensures r.JInt? || r.JNum?
  {
    match d
    case FromInteger(i) => JInt(i)
    case FromText(text) => JNum(text)
  }

  /**
   * The values whose bundle encoding does not depend on an outside library:
   * timestamps, bytes and references are left to absl and the wire
   * serializer; 64-bit integers travel as decimal strings.
   */
  predicate Encodable(v: FieldValue)
    decreases v
  {
    match v
    case Null => true
    case BooleanValue(_) => true
    case IntegerValue(i) => Int64.InRange(i)
    case DoubleValue(d) => EncodableDouble(d)
    case StringValue(_) => true
    case GeoPointValue(latitude, longitude) => EncodableDouble(latitude) && EncodableDouble(longitude)
    case ArrayValue(values) => forall k :: 0 <= k < |values| ==> Encodable(values[k])
    case _ => false
  }

  /** The type of a value, whose key announces it in the bundle. */
  function TypeOfValue(v: FieldValue): (t: ValueType)
    ensures HasType(v, t)
  {
    match v
    case Null => NullType
    case BooleanValue(_) => BooleanType
    case IntegerValue(_) => IntegerType
    case DoubleValue(_) => DoubleType
    case TimestampValue(_) => TimestampType
    case StringValue(_) => StringType
    case BlobValue(_) => BytesType
    case ReferenceValue(_, _, _) => ReferenceType
    case GeoPointValue(_, _) => GeoPointType
    case ArrayValue(_) => ArrayType
    case MapValue(_) => MapType
  }

  /** The bundle's JSON for a value: one member, named after the value's type. */
  function Encode(v: FieldValue): Json
    requires Encodable(v)
    decreases v, 1
  {
    JObj([(TypeOfValue(v).Key(), EncodeMember(v))])
  }

  /** What goes under the type key. */
  function EncodeMember(v: FieldValue): Json
    requires Encodable(v)
    decreases v, 0
  {
    match v
    case Null => JNull
    case BooleanValue(b) => JBool(b)
    case IntegerValue(i) => JStr(DecimalString(i))
    case DoubleValue(d) => EncodeDouble(d)
    case StringValue(text) => JStr(text)
    case GeoPointValue(latitude, longitude) =>
      JObj([("latitude", EncodeDouble(latitude)), ("longitude", EncodeDouble(longitude))])
    case ArrayValue(values) => JObj([("values", JArr(EncodeAll(values)))])
  }

  function EncodeAll(values: seq<FieldValue>): (r: seq<Json>)
    requires forall k :: 0 <= k < |values| ==> Encodable(values[k])
    decreases values, 2
    ensures |r| == |values|
    ensures forall k :: 0 <= k < |values| ==> r[k] == Encode(values[k])
  {
    if values == [] then [] else [Encode(values[0])] + EncodeAll(values[1..])
  }

  /** Decoding the bundle encoding of a value gives the value back. */
  lemma {:induction false} ValueRoundTrip(lib: Library, rpc: RpcSerializer, v: FieldValue)
    requires Encodable(v)
    decreases v, 1
    ensures ValueOf(lib, rpc, Ok, Encode(v)) == Decoded(v, Ok)
  {
    ValueOfAlone(lib, rpc, Ok, TypeOfValue(v), EncodeMember(v));
    MemberRoundTrip(lib, rpc, v);
  }

  /** The branch for a value's type decodes what is under its key back to the value. */
  lemma {:induction false} MemberRoundTrip(lib: Library, rpc: RpcSerializer, v: FieldValue)
    requires Encodable(v)
    decreases v, 0
    ensures TypedValueOf(lib, rpc, Ok, TypeOfValue(v), EncodeMember(v)) == Decoded(v, Ok)
  {
    match v
    case Null =>
    case BooleanValue(_) =>
    case IntegerValue(i) => IntegerRoundTrip(lib, rpc, i);
    case DoubleValue(_) =>
    case StringValue(_) =>
    case GeoPointValue(latitude, longitude) => GeoPointRoundTrip(lib, rpc, latitude, longitude);
    case ArrayValue(values) => ArrayRoundTrip(lib, rpc, values);
  }

  /** `MemberRoundTrip` for an integer, which travels as its decimal string. */
  lemma IntegerRoundTrip(lib: Library, rpc: RpcSerializer, i: int)
    requires Int64.InRange(i)
    ensures TypedValueOf(lib, rpc, Ok, IntegerType, JStr(DecimalString(i))) == Decoded(IntegerValue(i), Ok)
  {
    DecimalRoundTrip(Int64, i);
  }

  /** `MemberRoundTrip` for a geo point: both coordinates come back. */
  lemma GeoPointRoundTrip(lib: Library, rpc: RpcSerializer, latitude: Double, longitude: Double)
    requires EncodableDouble(latitude) && EncodableDouble(longitude)
    ensures GeoPointOf(lib, Ok, EncodeMember(GeoPointValue(latitude, longitude))) ==
      Decoded(GeoPointValue(latitude, longitude), Ok)
  {
    assert "latitude" != "longitude" by {
      assert |"latitude"| != |"longitude"|;
    }
    PairLookup("latitude", EncodeDouble(latitude), "longitude", EncodeDouble(longitude));
  }

  /** `MemberRoundTrip` for an array: every element comes back, in order. */
  lemma {:induction false} ArrayRoundTrip(lib: Library, rpc: RpcSerializer, values: seq<FieldValue>)
    requires forall k :: 0 <= k < |values| ==> Encodable(values[k])
    decreases values, 3
    ensures ArrayValueOf(lib, rpc, Ok, EncodeMember(ArrayValue(values))) == Decoded(ArrayValue(values), Ok)
  {
    var items := EncodeAll(values);
    var arrayJson := JObj([("values", JArr(items))]);
    assert EncodeMember(ArrayValue(values)) == arrayJson;
    assert At(arrayJson, "values") == JArr(items);
    forall k | 0 <= k < |items|
      ensures ValueOf(lib, rpc, Ok, items[k]) == Decoded(values[k], Ok)
    {
      ValueRoundTrip(lib, rpc, values[k]);
    }
    ArrayOfDecodedItems(lib, rpc, arrayJson, items, values);
  }

  /** An array whose every item decodes cleanly decodes to the array of their values. */
  lemma ArrayOfDecodedItems(lib: Library, rpc: RpcSerializer, arrayJson: Json, items: seq<Json>,
                            values: seq<FieldValue>)
    requires arrayJson == JObj([("values", JArr(items))]) && |items| == |values|
    requires forall k :: 0 <= k < |items| ==> ValueOf(lib, rpc, Ok, items[k]) == Decoded(values[k], Ok)
    ensures ArrayValueOf(lib, rpc, Ok, arrayJson) == Decoded(ArrayValue(values), Ok)
  {
    assert At(arrayJson, "values") == JArr(items);
    assert ReadArray(Ok, "values", arrayJson) == Decoded(items, Ok);
    ValuesFromAllOk(lib, rpc, arrayJson, items, values, 0, []);
    assert [] + values[0..] == values;
  }

  /** The loop over an array's items, when each item decodes cleanly. */
  lemma {:induction false} ValuesFromAllOk(lib: Library, rpc: RpcSerializer, parent: Json, items: seq<Json>,
                                           values: seq<FieldValue>, i: nat, acc: seq<FieldValue>)
    requires i <= |items| == |values|
    requires forall k :: 0 <= k < |items| ==> items[k] < parent
    requires forall k :: 0 <= k < |items| ==> ValueOf(lib, rpc, Ok, items[k]) == Decoded(values[k], Ok)
    decreases |items| - i
    ensures ValuesFrom(lib, rpc, parent, items, i, acc, Ok) == Decoded(acc + values[i..], Ok)
  {
    if i == |items| {
      assert acc + values[i..] == acc;
    } else {
      ValuesFromOkStep(lib, rpc, parent, items, i, acc, values[i]);
      ValuesFromAllOk(lib, rpc, parent, items, values, i + 1, acc + [values[i]]);
      AppendNext(acc, values, i);
    }
  }

  /** Appending the next element, then the rest, is appending from that element on. */
  lemma AppendNext<T>(acc: seq<T>, values: seq<T>, i: nat)
    requires i < |values|
    ensures acc + [values[i]] + values[i + 1..] == acc + values[i..]
  {
  }

  /** One turn of the loop over an array's items, for an item that decodes cleanly. */
  lemma ValuesFromOkStep(lib: Library, rpc: RpcSerializer, parent: Json, items: seq<Json>, i: nat,
                         acc: seq<FieldValue>, v: FieldValue)
    requires i < |items|
    requires forall k :: 0 <= k < |items| ==> items[k] < parent
    requires ValueOf(lib, rpc, Ok, items[i]) == Decoded(v, Ok)
    ensures ValuesFrom(lib, rpc, parent, items, i, acc, Ok) == ValuesFrom(lib, rpc, parent, items, i + 1, acc + [v], Ok)
  {
  }
}
