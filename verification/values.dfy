/**
 * What decoding a tagged field value, a timestamp or a resource name
 * computes, as functions of the reader's status before the call.
 *
 * Each function returns the decoded value together with the reader's
 * status afterwards; the methods of `Serializer` are proved to compute
 * exactly these.
 */
module ValueDecoding {
  import opened Wrappers
  import opened JsonTree
  import opened Numbers
  import opened Model
  import opened ReadStatus
  import opened Reader

  /** A library result checked the way `set_status` does it: a failure replaces the status. */
  function Checked(s: Status, decoded: Result<Timestamp, string>): (r: Decoded<Timestamp>)
    ensures decoded.Success? ==> r == Decoded(decoded.value, s)
    ensures decoded.Failure? ==> r == Decoded(Epoch, Failed(Reported(decoded.error)))
  {
    match decoded
    case Success(t) => Decoded(t, s)
    case Failure(message) => Decoded(Epoch, s.Set(Reported(message)))
  }

  /**
   * `DecodeTimestamp`: an RFC 3339 string, or an object with `seconds`
   * (64-bit) and `nanos` (32-bit).  Both are range-checked by the library;
   * any failure gives the epoch.
   */
  function TimestampOf(lib: Library, s: Status, version: Json): (r: Decoded<Timestamp>)
    ensures Sticky(s, r.status)
    ensures version.JStr? && lib.parseTime(version.str).Failure? ==>
      r == Decoded(Epoch, s.Fail(TimestampParseFailure(lib.parseTime(version.str).error)))
    ensures version.JStr? && lib.parseTime(version.str).Success? ==>
      var decoded := lib.timestampFromTime(lib.parseTime(version.str).value);
      (decoded.Success? ==> r == Decoded(decoded.value, s)) &&
      (decoded.Failure? ==> r == Decoded(Epoch, Failed(Reported(decoded.error))))
    ensures !version.JStr? ==>
      var seconds := ReadInt(Ok, Int64, "seconds", version);
      var nanos := ReadInt(Ok, Int32, "nanos", version);
      var decoded := lib.timestampFromSecondsAndNanos(seconds.value, nanos.value);
      (decoded.Success? ==>
         r.value == decoded.value && (r.status.Ok? <==> s.Ok? && seconds.status.Ok? && nanos.status.Ok?)) &&
      (decoded.Failure? ==> r == Decoded(Epoch, Failed(Reported(decoded.error))))
  {
    if version.JStr? then
      match lib.parseTime(version.str)
      case Failure(err) => Decoded(Epoch, s.Fail(TimestampParseFailure(err)))
      case Success(time) => Checked(s, lib.timestampFromTime(time))
    else
      var seconds := ReadInt(s, Int64, "seconds", version);
      var nanos := ReadInt(seconds.status, Int32, "nanos", version);
      Checked(nanos.status, lib.timestampFromSecondsAndNanos(seconds.value, nanos.value))
  }

  /** `DecodeSnapshotVersion`: the timestamp, wrapped. */
  function SnapshotVersionOf(lib: Library, s: Status, version: Json): Decoded<SnapshotVersion>
  {
    var t := TimestampOf(lib, s, version);
    Decoded(SnapshotVersion(t.value), t.status)
  }

  /**
   * `DecodeGeoPointValue`: each coordinate is read only when present and
   * otherwise 0, so a geo point that is not even an object decodes to
   * (0, 0) without a failure.
   */
  function GeoPointOf(lib: Library, s: Status, geo: Json): (r: Decoded<FieldValue>)
    ensures r.value.GeoPointValue?
    ensures !Contains(geo, "latitude") ==> r.value.latitude == Zero
    ensures !Contains(geo, "longitude") ==> r.value.longitude == Zero
    ensures Contains(geo, "latitude") ==> r.value.latitude == ReadDouble(lib, Ok, "latitude", geo).value
    ensures Contains(geo, "longitude") ==> r.value.longitude == ReadDouble(lib, Ok, "longitude", geo).value
    ensures r.status.Ok? <==>
      s.Ok? &&
      (Contains(geo, "latitude") ==> ReadDouble(lib, Ok, "latitude", geo).status.Ok?) &&
      (Contains(geo, "longitude") ==> ReadDouble(lib, Ok, "longitude", geo).status.Ok?)
    ensures !geo.JObj? ==> r == Decoded(GeoPointValue(Zero, Zero), s)
    ensures FirstWins(s, r.status)
  {
    var latitude := if Contains(geo, "latitude") then ReadDouble(lib, s, "latitude", geo) else Decoded(Zero, s);
    var longitude :=
      if Contains(geo, "longitude") then ReadDouble(lib, latitude.status, "longitude", geo)
      else Decoded(Zero, latitude.status);
    Decoded(GeoPointValue(latitude.value, longitude.value), longitude.status)
  }

  /** `DecodeBytesValue`: base-64 text to a blob, or the null value and a failure. */
  function BytesOf(lib: Library, s: Status, text: string): (r: Decoded<FieldValue>)
    ensures lib.base64Unescape(text).Some? ==> r == Decoded(BlobValue(lib.base64Unescape(text).value), s)
    ensures lib.base64Unescape(text).None? ==> r == Decoded(Null, s.Fail(InvalidBase64))
    ensures FirstWins(s, r.status)
  {
    match lib.base64Unescape(text)
    case Some(bytes) => Decoded(BlobValue(bytes), s)
    case None => Decoded(Null, s.Fail(InvalidBase64))
  }

  /**
   * `DecodeReferenceValue`: the wire serializer is consulted only while the
   * reader is ok; it may record its own failure.
   */
  function ReferenceOf(rpc: RpcSerializer, s: Status, text: string): (r: Decoded<FieldValue>)
    ensures s.Failed? ==> r == Decoded(Null, s)
    ensures s.Ok? ==> r.value == rpc.decodeReference(text).0
    ensures s.Ok? ==> (r.status.Ok? <==> rpc.decodeReference(text).1.None?)
  {
    if s.Failed? then Decoded(Null, s)
    else
      var (value, failure) := rpc.decodeReference(text);
      Decoded(value, if failure.Some? then s.Fail(Reported(failure.value)) else s)
  }

  /** The value types `DecodeValue` knows, one per type key. */
  datatype ValueType =
    | NullType | BooleanType | IntegerType | DoubleType | TimestampType | StringType
    | BytesType | ReferenceType | GeoPointType | ArrayType | MapType
  {
    /** Position in the order in which `DecodeValue` tests the keys. */
    function Rank(): nat
    {
      match this
      case NullType => 0
      case BooleanType => 1
      case IntegerType => 2
      case DoubleType => 3
      case TimestampType => 4
      case StringType => 5
      case BytesType => 6
      case ReferenceType => 7
      case GeoPointType => 8
      case ArrayType => 9
      case MapType => 10
    }

    /** The member name that announces a value of this type. */
    function Key(): string
    {
      match this
      case NullType => "nullValue"
      case BooleanType => "booleanValue"
      case IntegerType => "integerValue"
      case DoubleType => "doubleValue"
      case TimestampType => "timestampValue"
      case StringType => "stringValue"
      case BytesType => "bytesValue"
      case ReferenceType => "referenceValue"
      case GeoPointType => "geoPointValue"
      case ArrayType => "arrayValue"
      case MapType => "mapValue"
    }
  }

  /** `v` is a field value of type `t`. */
  predicate HasType(v: FieldValue, t: ValueType)
  {
    match t
    case NullType => v.Null?
    case BooleanType => v.BooleanValue?
    case IntegerType => v.IntegerValue?
    case DoubleType => v.DoubleValue?
    case TimestampType => v.TimestampValue?
    case StringType => v.StringValue?
    case BytesType => v.BlobValue?
    case ReferenceType => v.ReferenceValue?
    case GeoPointType => v.GeoPointValue?
    case ArrayType => v.ArrayValue?
    case MapType => v.MapValue?
  }

  /** The type whose key `DecodeValue` finds first, testing them in a fixed order. */
  function TypeOf(j: Json): Option<ValueType>
  {
    if Contains(j, "nullValue") then Some(NullType)
    else if Contains(j, "booleanValue") then Some(BooleanType)
    else if Contains(j, "integerValue") then Some(IntegerType)
    else if Contains(j, "doubleValue") then Some(DoubleType)
    else if Contains(j, "timestampValue") then Some(TimestampType)
    else if Contains(j, "stringValue") then Some(StringType)
    else if Contains(j, "bytesValue") then Some(BytesType)
    else if Contains(j, "referenceValue") then Some(ReferenceType)
    else if Contains(j, "geoPointValue") then Some(GeoPointType)
    else if Contains(j, "arrayValue") then Some(ArrayType)
    else if Contains(j, "mapValue") then Some(MapType)
    else None
  }

  /** The type found is announced by a member the object has. */
  lemma TypeKeyPresent(j: Json)
    ensures TypeOf(j).Some? ==> Contains(j, TypeOf(j).value.Key())
  {
    match TypeOf(j)
    case None =>
    case Some(t) =>
      match t
      case NullType =>
      case BooleanType =>
      case IntegerType =>
      case DoubleType =>
      case TimestampType =>
      case StringType =>
      case BytesType =>
      case ReferenceType =>
      case GeoPointType =>
      case ArrayType =>
      case MapType =>
  }

  /**
   * `DecodeValue`: the first type key present decides the value's type,
   * and only the member under that key is decoded; an object without any
   * type key, or a JSON value that is not an object, records a failure and
   * gives the null value.  A successful decoding has the type its key
   * names, except a reference, whose value the wire serializer builds.
   */
  function ValueOf(lib: Library, rpc: RpcSerializer, s: Status, j: Json): (r: Decoded<FieldValue>)
    decreases j, 4
    ensures Sticky(s, r.status)
    ensures !j.JObj? ==> r == Decoded(Null, s.Fail(ValueNotObject))
  {
    if !j.JObj? then Decoded(Null, s.Fail(ValueNotObject))
    else
      match TypeOf(j)
      case None => Decoded(Null, s.Fail(NoValueType))
      case Some(t) =>
        TypeKeyPresent(j);
        TypedValueOf(lib, rpc, s, t, At(j, t.Key()))
  }

  /** One branch of `DecodeValue`: the member `v` found under `t`'s key, decoded as a `t`. */
  function TypedValueOf(lib: Library, rpc: RpcSerializer, s: Status, t: ValueType, v: Json): (r: Decoded<FieldValue>)
    decreases v, 3
    ensures Sticky(s, r.status)
  {
    match t
    case NullType => Decoded(Null, s)
    case BooleanType =>
      if v.JBool? then Decoded(BooleanValue(v.b), s) else Decoded(Null, s.Fail(BooleanNotBoolean))
    case IntegerType =>
      var i := IntMember(s, Int64, t.Key(), v);
      Decoded(IntegerValue(i.value), i.status)
    case DoubleType =>
      var d := DoubleMember(lib, s, t.Key(), v);
      Decoded(DoubleValue(d.value), d.status)
    case TimestampType =>
      var time := TimestampOf(lib, s, v);
      Decoded(TimestampValue(time.value), time.status)
    case StringType =>
      var str := StringMember(s, t.Key(), v);
      Decoded(StringValue(str.value), str.status)
    case BytesType =>
      var str := StringMember(s, t.Key(), v);
      BytesOf(lib, str.status, str.value)
    case ReferenceType =>
      var str := StringMember(s, t.Key(), v);
      ReferenceOf(rpc, str.status, str.value)
    case GeoPointType => GeoPointOf(lib, s, v)
    case ArrayType => ArrayValueOf(lib, rpc, s, v)
    case MapType => MapValueOf(lib, rpc, s, v)
  }

  /**
   * `DecodeArrayValue`: the elements in order; a failure anywhere (even one
   * recorded before the call) gives the null value instead of a partial
   * array.
   */
  function ArrayValueOf(lib: Library, rpc: RpcSerializer, s: Status, a: Json): (r: Decoded<FieldValue>)
    decreases a, 2
    ensures Sticky(s, r.status)
    ensures r.status.Failed? ==> r.value == Null
  {
    var values := ReadArray(s, "values", a);
    var decoded := ValuesFrom(lib, rpc, a, values.value, 0, [], values.status);
    if decoded.status.Ok? then Decoded(ArrayValue(decoded.value), decoded.status)
    else Decoded(Null, decoded.status)
  }

  /** The loop of `DecodeArrayValue` and `DecodeBound` from element `i` on, after `acc`. */
  function ValuesFrom(lib: Library, rpc: RpcSerializer, parent: Json, items: seq<Json>, i: nat,
                      acc: seq<FieldValue>, s: Status): (r: Decoded<seq<FieldValue>>)
    requires i <= |items|
    requires forall k :: 0 <= k < |items| ==> items[k] < parent
    decreases parent, 1, |items| - i
    ensures Sticky(s, r.status)
  {
    if i == |items| then Decoded(acc, s)
    else
      var v := ValueOf(lib, rpc, s, items[i]);
      ValuesFrom(lib, rpc, parent, items, i + 1, acc + [v.value], v.status)
  }

  /**
   * `DecodeMapValue`: needs an object member `fields`; each member becomes
   * an entry.  Failures inside the entries do not discard the map.
   */
  function MapValueOf(lib: Library, rpc: RpcSerializer, s: Status, m: Json): (r: Decoded<FieldValue>)
    decreases m, 2
    ensures Sticky(s, r.status)
    ensures !(Contains(m, "fields") && At(m, "fields").JObj?) ==> r.value == Null && r.status.Failed?
    ensures Contains(m, "fields") && At(m, "fields").JObj? ==> r.value.MapValue?
  {
    if !Contains(m, "fields") then Decoded(Null, s.Fail(InvalidMapValue))
    else
      var fields := At(m, "fields");
      if !fields.JObj? then Decoded(Null, s.Fail(InvalidMapFields))
      else
        var decoded := MembersFrom(lib, rpc, m, fields.members, 0, map[], s);
        Decoded(MapValue(decoded.value), decoded.status)
  }

  /** The loop of `DecodeMapValue` from member `i` on; a later entry replaces an earlier one. */
  function MembersFrom(lib: Library, rpc: RpcSerializer, parent: Json, members: seq<(string, Json)>, i: nat,
                       acc: map<string, FieldValue>, s: Status): (r: Decoded<map<string, FieldValue>>)
    requires i <= |members|
    requires forall k :: 0 <= k < |members| ==> members[k].1 < parent
    decreases parent, 1, |members| - i
    ensures Sticky(s, r.status)
  {
    if i == |members| then Decoded(acc, s)
    else
      var v := ValueOf(lib, rpc, s, members[i].1);
      MembersFrom(lib, rpc, parent, members, i + 1, acc[members[i].0 := v.value], v.status)
  }

  /** The decoded elements follow `acc`, one per remaining element. */
  lemma {:induction false} ValuesFromShape(lib: Library, rpc: RpcSerializer, parent: Json, items: seq<Json>,
                                           i: nat, acc: seq<FieldValue>, s: Status)
    requires i <= |items|
    requires forall k :: 0 <= k < |items| ==> items[k] < parent
    decreases |items| - i
    ensures |ValuesFrom(lib, rpc, parent, items, i, acc, s).value| == |acc| + (|items| - i)
    ensures ValuesFrom(lib, rpc, parent, items, i, acc, s).value[..|acc|] == acc
  {
    if i < |items| {
      var v := ValueOf(lib, rpc, s, items[i]);
      ValuesFromShape(lib, rpc, parent, items, i + 1, acc + [v.value], v.status);
      assert (acc + [v.value])[..|acc|] == acc;
    }
  }

  /**
   * The element loop ends ok exactly when it starts ok and every element
   * decodes ok on its own; each element then contributes the value it
   * decodes to on its own, in order.
   */
  lemma ValuesFromOk(lib: Library, rpc: RpcSerializer, parent: Json, items: seq<Json>, s: Status)
    requires forall k :: 0 <= k < |items| ==> items[k] < parent
    ensures ValuesFrom(lib, rpc, parent, items, 0, [], s).status.Ok? <==>
      s.Ok? && forall k :: 0 <= k < |items| ==> ValueOf(lib, rpc, Ok, items[k]).status.Ok?
    ensures var r := ValuesFrom(lib, rpc, parent, items, 0, [], s);
      r.status.Ok? ==>
        |r.value| == |items| && forall k :: 0 <= k < |items| ==> r.value[k] == ValueOf(lib, rpc, Ok, items[k]).value
  {
    var alone := seq(|items|, k requires 0 <= k < |items| => ValueOf(lib, rpc, Ok, items[k]));
    if s.Ok? {
      ValuesFromAloneOk(lib, rpc, parent, items, 0, [], alone);
      ValuesFromAloneValues(lib, rpc, parent, items, 0, [], alone);
    }
  }

  /** The status half of `ValuesFromOk` from element `i` on, with each element's own decoding given as `alone`. */
  lemma {:induction false} ValuesFromAloneOk(lib: Library, rpc: RpcSerializer, parent: Json, items: seq<Json>,
                                             i: nat, acc: seq<FieldValue>, alone: seq<Decoded<FieldValue>>)
    requires i <= |items| == |alone|
    requires forall k :: 0 <= k < |items| ==> items[k] < parent
    requires forall k {:trigger ValueOf(lib, rpc, Ok, items[k])} :: 0 <= k < |items| ==> ValueOf(lib, rpc, Ok, items[k]) == alone[k]
    decreases |items| - i
    ensures ValuesFrom(lib, rpc, parent, items, i, acc, Ok).status.Ok? <==> AllOk(alone, i)
  {
    if i < |items| {
      var v := alone[i];
      ValuesFromStep(lib, rpc, parent, items, i, acc, v);
      if v.status.Ok? {
        assert v.status == Ok;
        ValuesFromAloneOk(lib, rpc, parent, items, i + 1, acc + [v.value], alone);
      } else {
        assert ValuesFrom(lib, rpc, parent, items, i + 1, acc + [v.value], v.status).status.Failed?;
      }
      AllOkFrom(alone, i);
    }
  }

  /** The value half of `ValuesFromOk` from element `i` on, after the `i` values `acc`. */
  lemma {:induction false} ValuesFromAloneValues(lib: Library, rpc: RpcSerializer, parent: Json, items: seq<Json>,
                                                 i: nat, acc: seq<FieldValue>, alone: seq<Decoded<FieldValue>>)
    requires i == |acc| && i <= |items| == |alone|
    requires forall k :: 0 <= k < |items| ==> items[k] < parent
    requires forall k {:trigger ValueOf(lib, rpc, Ok, items[k])} :: 0 <= k < |items| ==> ValueOf(lib, rpc, Ok, items[k]) == alone[k]
    decreases |items| - i
    ensures var r := ValuesFrom(lib, rpc, parent, items, i, acc, Ok);
      r.status.Ok? ==>
        |r.value| == |items| && r.value[..i] == acc &&
        forall k :: i <= k < |items| ==> r.value[k] == alone[k].value
  {
    if i < |items| {
      var v := alone[i];
      ValuesFromStep(lib, rpc, parent, items, i, acc, v);
      if v.status.Ok? {
        assert v.status == Ok;
        ValuesFromAloneValues(lib, rpc, parent, items, i + 1, acc + [v.value], alone);
        var r := ValuesFrom(lib, rpc, parent, items, i + 1, acc + [v.value], Ok);
        if r.status.Ok? {
          PrefixOfPrefix(r.value, acc, v.value);
          forall k | i <= k < |items|
            ensures ValuesFrom(lib, rpc, parent, items, i, acc, Ok).value[k] == alone[k].value
          {
            if k > i {
              assert r.value[k] == alone[k].value;
            }
          }
        }
      }
    }
  }

  /** One turn of the element loop from a clean start, for an element that decodes to `v`. */
  lemma ValuesFromStep(lib: Library, rpc: RpcSerializer, parent: Json, items: seq<Json>,
                       i: nat, acc: seq<FieldValue>, v: Decoded<FieldValue>)
    requires i < |items|
    requires forall k :: 0 <= k < |items| ==> items[k] < parent
    requires ValueOf(lib, rpc, Ok, items[i]) == v
    ensures ValuesFrom(lib, rpc, parent, items, i, acc, Ok) == ValuesFrom(lib, rpc, parent, items, i + 1, acc + [v.value], v.status)
  {
  }

  /** A sequence that starts with `acc + [x]` starts with `acc` and then has `x`. */
  lemma PrefixOfPrefix<T>(r: seq<T>, acc: seq<T>, x: T)
    requires |r| > |acc| && r[..|acc| + 1] == acc + [x]
    ensures r[..|acc|] == acc && r[|acc|] == x
  {
    assert r[..|acc|] == r[..|acc| + 1][..|acc|];
  }

  /**
   * An array value decodes ok exactly when it has a `values` array whose
   * elements each decode ok; it then holds those elements' values in order.
   */
  lemma ArrayValueShape(lib: Library, rpc: RpcSerializer, s: Status, a: Json)
    ensures ArrayValueOf(lib, rpc, s, a).status.Ok? <==>
      s.Ok? && Contains(a, "values") && At(a, "values").JArr? &&
      forall k :: 0 <= k < |At(a, "values").items| ==> ValueOf(lib, rpc, Ok, At(a, "values").items[k]).status.Ok?
    ensures ArrayValueOf(lib, rpc, s, a).status.Ok? ==>
      var r := ArrayValueOf(lib, rpc, s, a).value;
      r.ArrayValue? && |r.values| == |At(a, "values").items| &&
      forall k :: 0 <= k < |r.values| ==> r.values[k] == ValueOf(lib, rpc, Ok, At(a, "values").items[k]).value
  {
    var values := ReadArray(s, "values", a);
    ValuesFromOk(lib, rpc, a, values.value, values.status);
  }

  /** Dropping the first member of a suffix removes just its name. */
  lemma MemberNamesStep(members: seq<(string, Json)>, i: nat)
    requires i < |members|
    ensures MemberNames(members[i..]) == {members[i].0} + MemberNames(members[i + 1..])
  {
  }

  /** Every member adds its name to the keys. */
  lemma {:induction false} MembersFromKeys(lib: Library, rpc: RpcSerializer, parent: Json,
                                           members: seq<(string, Json)>, i: nat,
                                           acc: map<string, FieldValue>, s: Status)
    requires i <= |members|
    requires forall k :: 0 <= k < |members| ==> members[k].1 < parent
    decreases |members| - i
    ensures MembersFrom(lib, rpc, parent, members, i, acc, s).value.Keys == acc.Keys + MemberNames(members[i..])
  {
    if i == |members| {
      assert members[i..] == [];
    } else {
      var v := ValueOf(lib, rpc, s, members[i].1);
      MembersFromKeys(lib, rpc, parent, members, i + 1, acc[members[i].0 := v.value], v.status);
      MemberNamesStep(members, i);
    }
  }

  /** No member after the `k`th has its name, so a map built in order keeps the `k`th. */
  predicate LastNamed(members: seq<(string, Json)>, k: nat)
    requires k < |members|
  {
    forall k' :: k < k' < |members| ==> members[k'].0 != members[k].0
  }

  /**
   * The member loop ends ok exactly when it starts ok and every remaining
   * member decodes ok on its own; each name then maps to the value of its
   * last member, and names no remaining member has keep their entry.
   */
  lemma {:induction false} MembersFromValues(lib: Library, rpc: RpcSerializer, parent: Json,
                                             members: seq<(string, Json)>, i: nat,
                                             acc: map<string, FieldValue>, s: Status)
    requires i <= |members|
    requires forall k :: 0 <= k < |members| ==> members[k].1 < parent
    decreases |members| - i
    ensures MembersFrom(lib, rpc, parent, members, i, acc, s).status.Ok? <==>
      s.Ok? && forall k :: i <= k < |members| ==> ValueOf(lib, rpc, Ok, members[k].1).status.Ok?
    ensures var r := MembersFrom(lib, rpc, parent, members, i, acc, s);
      r.status.Ok? ==>
        forall k :: i <= k < |members| && LastNamed(members, k) ==>
          members[k].0 in r.value && r.value[members[k].0] == ValueOf(lib, rpc, Ok, members[k].1).value
    ensures var r := MembersFrom(lib, rpc, parent, members, i, acc, s);
      forall name :: name in acc && name !in MemberNames(members[i..]) ==> name in r.value && r.value[name] == acc[name]
  {
    if i == |members| {
      assert members[i..] == [];
    } else {
      var v := ValueOf(lib, rpc, s, members[i].1);
      var next := acc[members[i].0 := v.value];
      MembersFromValues(lib, rpc, parent, members, i + 1, next, v.status);
      MemberNamesStep(members, i);
      var r := MembersFrom(lib, rpc, parent, members, i + 1, next, v.status);
      assert Sticky(v.status, r.status) && Sticky(s, v.status);
      if LastNamed(members, i) {
        NotInLaterNames(members, i);
      }
    }
  }

  /** The last member of its name does not name a later member. */
  lemma NotInLaterNames(members: seq<(string, Json)>, i: nat)
    requires i < |members| && LastNamed(members, i)
    ensures members[i].0 !in MemberNames(members[i + 1..])
  {
  }

  /**
   * A map value decodes ok exactly when every member of `fields` decodes ok
   * on its own; each name then maps to the value of its last member.
   */
  lemma MapValueContents(lib: Library, rpc: RpcSerializer, s: Status, m: Json)
    requires Contains(m, "fields") && At(m, "fields").JObj?
    ensures var fields := At(m, "fields").members;
      MapValueOf(lib, rpc, s, m).status.Ok? <==>
        s.Ok? && forall k :: 0 <= k < |fields| ==> ValueOf(lib, rpc, Ok, fields[k].1).status.Ok?
    ensures var fields := At(m, "fields").members;
      var r := MapValueOf(lib, rpc, s, m);
      r.status.Ok? ==>
        forall k :: 0 <= k < |fields| && LastNamed(fields, k) ==>
          fields[k].0 in r.value.fields && r.value.fields[fields[k].0] == ValueOf(lib, rpc, Ok, fields[k].1).value
  {
    var fields := At(m, "fields");
    MembersFromValues(lib, rpc, m, fields.members, 0, map[], s);
  }

  /**
   * With distinct member names, as the JSON parser's objects have, a map
   * value that decodes ok maps each name to the value its member decodes to.
   */
  lemma MapValueByName(lib: Library, rpc: RpcSerializer, s: Status, m: Json)
    requires Contains(m, "fields") && At(m, "fields").JObj? && DistinctNames(At(m, "fields").members)
    ensures var r := MapValueOf(lib, rpc, s, m);
      r.status.Ok? ==>
        r.value.fields.Keys == MemberNames(At(m, "fields").members) &&
        forall name :: name in r.value.fields ==>
          Contains(At(m, "fields"), name) &&
          r.value.fields[name] == ValueOf(lib, rpc, Ok, At(At(m, "fields"), name)).value
  {
    var fields := At(m, "fields");
    MapValueKeys(lib, rpc, s, m);
    MapValueContents(lib, rpc, s, m);
    var r := MapValueOf(lib, rpc, s, m);
    if r.status.Ok? {
      forall name | name in r.value.fields
        ensures Contains(fields, name) && r.value.fields[name] == ValueOf(lib, rpc, Ok, At(fields, name)).value
      {
        var k := IndexOf(fields.members, name).value;
        DistinctLast(fields.members, k);
      }
    }
  }

  /** A map value has exactly the names of its `fields` object as keys. */
  lemma MapValueKeys(lib: Library, rpc: RpcSerializer, s: Status, m: Json)
    requires Contains(m, "fields") && At(m, "fields").JObj?
    ensures MapValueOf(lib, rpc, s, m).value.fields.Keys == MemberNames(At(m, "fields").members)
  {
    var fields := At(m, "fields");
    MembersFromKeys(lib, rpc, m, fields.members, 0, map[], s);
    assert fields.members[0..] == fields.members;
  }

  /**
   * `PopFirst(5)` in `DecodeName` aborts on a path of fewer than five
   * segments: a name the wire serializer accepts as local must be at least
   * that long.
   */
  predicate NameHasPrefix(lib: Library, rpc: RpcSerializer, j: Json)
  {
    j.JStr? && rpc.isLocalResourceName(lib.resourcePathFromString(j.str)) ==>
      |lib.resourcePathFromString(j.str)| >= 5
  }

  /**
   * `DecodeName`: a resource name string the wire serializer accepts as
   * local, without its `projects/{p}/databases/{d}/documents` prefix.
   */
  function NameOf(lib: Library, rpc: RpcSerializer, s: Status, j: Json): (r: Decoded<ResourcePath>)
    requires NameHasPrefix(lib, rpc, j)
    ensures FirstWins(s, r.status)
    ensures r.status.Ok? <==> s.Ok? && j.JStr? && rpc.isLocalResourceName(lib.resourcePathFromString(j.str))
    ensures j.JStr? && rpc.isLocalResourceName(lib.resourcePathFromString(j.str)) ==>
      r.status == s &&
      |lib.resourcePathFromString(j.str)| == 5 + |r.value| &&
      lib.resourcePathFromString(j.str) == lib.resourcePathFromString(j.str)[..5] + r.value
    ensures !(j.JStr? && rpc.isLocalResourceName(lib.resourcePathFromString(j.str))) ==> r.value == []
  {
    if !j.JStr? then Decoded([], s.Fail(NameNotString))
    else
      var path := lib.resourcePathFromString(j.str);
      if !rpc.isLocalResourceName(path) then Decoded([], s.Fail(NotLocalResourceName(path)))
      else Decoded(path[5..], s)
  }
}
