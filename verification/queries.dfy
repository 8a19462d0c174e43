/**
 * What decoding a bundled query computes: the checks on the structured
 * query, the collection source, filters, orderings, bounds and limits, as
 * functions of the reader's status before the call.
 */
module QueryDecoding {
  import opened Wrappers
  import opened JsonTree
  import opened Numbers
  import opened Model
  import opened ReadStatus
  import opened Reader
  import opened ValueDecoding

  /**
   * The first reason, in the order `VerifyStructuredQuery` checks them, why
   * a structured query cannot be decoded.
   */
  function QueryProblem(query: Json): (r: Option<Error>)
    ensures r.None? <==> query.JObj? && !Contains(query, "select") && Contains(query, "from") &&
                         !Contains(query, "offset")
    ensures !query.JObj? ==> r == Some(StructuredQueryNotObject)
    ensures query.JObj? && Contains(query, "select") ==> r == Some(SelectUnsupported)
  {
    if !query.JObj? then Some(StructuredQueryNotObject)
    else if Contains(query, "select") then Some(SelectUnsupported)
    else if !Contains(query, "from") then Some(MissingFrom)
    else if Contains(query, "offset") then Some(OffsetUnsupported)
    else None
  }

  /** `VerifyStructuredQuery`: records the first problem, if any. */
  function Verified(s: Status, query: Json): (r: Status)
    ensures QueryProblem(query).None? ==> r == s
    ensures QueryProblem(query).Some? ==> r == s.Fail(QueryProblem(query).value)
    ensures FirstWins(s, r)
  {
    match QueryProblem(query)
    case None => s
    case Some(e) => s.Fail(e)
  }

  /**
   * `DecodeCollectionSource`: exactly one collection selector; with
   * `allDescendants` it names the collection group, otherwise it extends
   * the parent path.  Gives the new (parent, group) pair.
   */
  function CollectionSourceOf(s: Status, from: Json, parent: ResourcePath, group: string)
    : (r: Decoded<(ResourcePath, string)>)
    requires from.JArr?
    ensures FirstWins(s, r.status)
    ensures |from.items| != 1 ==> r == Decoded((parent, group), s.Fail(MultipleFrom))
    ensures |from.items| == 1 ==>
      var id := ReadString(s, "collectionId", from.items[0]);
      r.status == id.status &&
      (Reader.JsonReader.OptionalBool("allDescendants", from.items[0]) ==> r.value == (parent, id.value)) &&
      (!Reader.JsonReader.OptionalBool("allDescendants", from.items[0]) ==> r.value == (parent + [id.value], group))
  {
    if |from.items| != 1 then Decoded((parent, group), s.Fail(MultipleFrom))
    else
      var selector := from.items[0];
      var id := ReadString(s, "collectionId", selector);
      if JsonReader.OptionalBool("allDescendants", selector) then Decoded((parent, id.value), id.status)
      else Decoded((parent + [id.value], group), id.status)
  }

  /** `DecodeFieldReference`: the server-format `fieldPath` of an object. */
  function FieldReferenceOf(lib: Library, s: Status, field: Json): (r: Decoded<FieldPath>)
    ensures Sticky(s, r.status)
    ensures !field.JObj? ==> r == Decoded(EmptyFieldPath, s.Fail(FieldNotObject))
    ensures r.status.Ok? <==>
      s.Ok? && Contains(field, "fieldPath") && At(field, "fieldPath").JStr? &&
      lib.fieldPathFromServerFormat(At(field, "fieldPath").str).Success?
    ensures r.status.Ok? ==> lib.fieldPathFromServerFormat(At(field, "fieldPath").str) == Success(r.value)
  {
    if !field.JObj? then Decoded(EmptyFieldPath, s.Fail(FieldNotObject))
    else
      var text := ReadString(s, "fieldPath", field);
      match lib.fieldPathFromServerFormat(text.value)
      case Failure(message) => Decoded(EmptyFieldPath, text.status.Set(Reported(message)))
      case Success(path) => Decoded(path, text.status)
  }

  /** The wire name of each field operator. */
  function OperatorName(op: Operator): string
  {
    match op
    case LessThan => "LESS_THAN"
    case LessThanOrEqual => "LESS_THAN_OR_EQUAL"
    case Equal => "EQUAL"
    case NotEqual => "NOT_EQUAL"
    case GreaterThan => "GREATER_THAN"
    case GreaterThanOrEqual => "GREATER_THAN_OR_EQUAL"
    case ArrayContains => "ARRAY_CONTAINS"
    case In => "IN"
    case ArrayContainsAny => "ARRAY_CONTAINS_ANY"
    case NotIn => "NOT_IN"
  }

  /**
   * The recognising chain of `DecodeFieldFilterOperator`: exactly the ten
   * wire names are recognised, each as its own operator.
   */
  function OperatorFromName(name: string): (r: Option<Operator>)
    ensures r.Some? ==> OperatorName(r.value) == name
    ensures forall op :: OperatorName(op) == name ==> r == Some(op)
  {
    if name == "LESS_THAN" then Some(LessThan)
    else if name == "LESS_THAN_OR_EQUAL" then Some(LessThanOrEqual)
    else if name == "EQUAL" then Some(Equal)
    else if name == "NOT_EQUAL" then Some(NotEqual)
    else if name == "GREATER_THAN" then Some(GreaterThan)
    else if name == "GREATER_THAN_OR_EQUAL" then Some(GreaterThanOrEqual)
    else if name == "ARRAY_CONTAINS" then Some(ArrayContains)
    else if name == "IN" then Some(In)
    else if name == "ARRAY_CONTAINS_ANY" then Some(ArrayContainsAny)
    else if name == "NOT_IN" then Some(NotIn)
    else None
  }

  /** `DecodeFieldFilterOperator`: an unknown name records a failure and gives `Equal`. */
  function OperatorOf(s: Status, name: string): (r: Decoded<Operator>)
    ensures FirstWins(s, r.status)
    ensures OperatorFromName(name).Some? ==> r == Decoded(OperatorFromName(name).value, s)
    ensures OperatorFromName(name).None? ==> r == Decoded(Equal, s.Fail(InvalidOperator(name)))
  {
    match OperatorFromName(name)
    case Some(op) => Decoded(op, s)
    case None => Decoded(Equal, s.Fail(InvalidOperator(name)))
  }

  /**
   * The four unary operators of `DecodeUnaryFilter`, as the comparison and
   * the operand they stand for: `IS_[NOT_]NAN` compares with NaN,
   * `IS_[NOT_]NULL` with null, and the `NOT` forms use `NotEqual`.
   */
  function UnaryFromName(name: string): (r: Option<(Operator, FieldValue)>)
    ensures r.Some? <==> name in {"IS_NAN", "IS_NULL", "IS_NOT_NAN", "IS_NOT_NULL"}
    ensures r.Some? ==> (r.value.0 == NotEqual <==> name in {"IS_NOT_NAN", "IS_NOT_NULL"})
    ensures r.Some? ==> (r.value.0 == Equal <==> name in {"IS_NAN", "IS_NULL"})
    ensures r.Some? ==> (r.value.1 == Null <==> name in {"IS_NULL", "IS_NOT_NULL"})
    ensures r.Some? ==> (r.value.1 == DoubleValue(NaN) <==> name in {"IS_NAN", "IS_NOT_NAN"})
  {
    if name == "IS_NAN" then Some((Equal, DoubleValue(NaN)))
    else if name == "IS_NULL" then Some((Equal, Null))
    else if name == "IS_NOT_NAN" then Some((NotEqual, DoubleValue(NaN)))
    else if name == "IS_NOT_NULL" then Some((NotEqual, Null))
    else None
  }

  /**
   * `FieldFilter::Create`, which aborts on the placeholders a failed
   * decode leaves behind: it may only be reached while the reader is ok.
   */
  function CreateFieldFilter(field: FieldPath, op: Operator, value: FieldValue, ghost s: Status): (r: Filter)
    requires s.Ok?
    ensures r.field == field && r.op == op && r.value == value
  {
    FieldFilter(field, op, value)
  }

  /** `DecodeUnaryFilter`. */
  function UnaryFilterOf(lib: Library, s: Status, filter: Json): (r: Decoded<Filter>)
    ensures Sticky(s, r.status)
    ensures r.status.Failed? ==> r.value == InvalidFilter
    ensures r.status.Ok? <==>
      s.Ok? && Contains(filter, "field") && FieldReferenceOf(lib, Ok, At(filter, "field")).status.Ok? &&
      Contains(filter, "op") && At(filter, "op").JStr? && UnaryFromName(At(filter, "op").str).Some?
    ensures r.status.Ok? ==>
      FieldReferenceOf(lib, Ok, At(filter, "field")).value == r.value.field &&
      UnaryFromName(At(filter, "op").str) == Some((r.value.op, r.value.value))
  {
    var field := ReadChild(s, "field", filter);
    var path := FieldReferenceOf(lib, field.status, field.value);
    var op := ReadString(path.status, "op", filter);
    if op.status.Failed? then Decoded(InvalidFilter, op.status)
    else
      match UnaryFromName(op.value)
      case Some((comparison, operand)) =>
        Decoded(CreateFieldFilter(path.value, comparison, operand, op.status), op.status)
      case None => Decoded(InvalidFilter, op.status.Fail(InvalidUnaryOperator(op.value)))
  }

  /** `DecodeFieldFilter`. */
  function FieldFilterOf(lib: Library, rpc: RpcSerializer, s: Status, filter: Json): (r: Decoded<Filter>)
    ensures Sticky(s, r.status)
    ensures r.status.Failed? ==> r.value == InvalidFilter
    ensures r.status.Ok? <==>
      s.Ok? && Contains(filter, "field") && FieldReferenceOf(lib, Ok, At(filter, "field")).status.Ok? &&
      Contains(filter, "op") && At(filter, "op").JStr? && OperatorFromName(At(filter, "op").str).Some? &&
      Contains(filter, "value") && ValueOf(lib, rpc, Ok, At(filter, "value")).status.Ok?
    ensures r.status.Ok? ==>
      FieldReferenceOf(lib, Ok, At(filter, "field")).value == r.value.field &&
      OperatorFromName(At(filter, "op").str) == Some(r.value.op) &&
      ValueOf(lib, rpc, Ok, At(filter, "value")).value == r.value.value
  {
    var field := ReadChild(s, "field", filter);
    var path := FieldReferenceOf(lib, field.status, field.value);
    var name := ReadString(path.status, "op", filter);
    var op := OperatorOf(name.status, name.value);
    var operand := ReadChild(op.status, "value", filter);
    var value := ValueOf(lib, rpc, operand.status, operand.value);
    if value.status.Failed? then Decoded(InvalidFilter, value.status)
    else Decoded(CreateFieldFilter(path.value, op.value, value.value, value.status), value.status)
  }

  /** The loop of `DecodeCompositeFilter` from child `i` on: the first failing child empties the list. */
  function CompositeFrom(lib: Library, rpc: RpcSerializer, items: seq<Json>, i: nat, acc: seq<Filter>, s: Status)
    : (r: Decoded<seq<Filter>>)
    requires i <= |items|
    decreases |items| - i, 1
    ensures Sticky(s, r.status)
    ensures r.status.Failed? ==> r.value == (if i == |items| then acc else [])
    ensures r.status.Ok? ==> |r.value| == |acc| + (|items| - i)
  {
    if i == |items| then Decoded(acc, s)
    else CompositeChild(lib, rpc, items, i, acc, ReadChild(s, "fieldFilter", items[i]))
  }

  /** One turn of that loop, once child `i`'s `fieldFilter` has been looked up. */
  function CompositeChild(lib: Library, rpc: RpcSerializer, items: seq<Json>, i: nat, acc: seq<Filter>, child: Decoded<Json>)
    : (r: Decoded<seq<Filter>>)
    requires i < |items|
    decreases |items| - i, 0
    ensures Sticky(child.status, r.status)
    ensures r.status.Failed? ==> r.value == []
    ensures r.status.Ok? ==> |r.value| == |acc| + (|items| - i)
  {
    var filter := FieldFilterOf(lib, rpc, child.status, child.value);
    if filter.status.Failed? then Decoded([], filter.status)
    else CompositeFrom(lib, rpc, items, i + 1, acc + [filter.value], filter.status)
  }

  /** `DecodeCompositeFilter`: only `AND` is supported; any failure gives no filters. */
  function CompositeFilterOf(lib: Library, rpc: RpcSerializer, s: Status, filter: Json)
    : (r: Decoded<seq<Filter>>)
    ensures Sticky(s, r.status)
    ensures ReadString(s, "op", filter).value != "AND" ==> r.value == [] && r.status.Failed?
    ensures r.status.Failed? ==> r.value == []
    ensures r.status.Ok? <==>
      s.Ok? && Contains(filter, "op") && At(filter, "op") == JStr("AND") && Contains(filter, "filters") && At(filter, "filters").JArr? &&
      forall k :: 0 <= k < |At(filter, "filters").items| ==> ChildFilter(lib, rpc, At(filter, "filters").items[k]).status.Ok?
    ensures r.status.Ok? ==>
      |r.value| == |At(filter, "filters").items| &&
      forall k :: 0 <= k < |r.value| ==> r.value[k] == ChildFilter(lib, rpc, At(filter, "filters").items[k]).value
  {
    var op := ReadString(s, "op", filter);
    if op.value != "AND" then Decoded([], op.status.Fail(NotAndComposite))
    else
      var filters := ReadArray(op.status, "filters", filter);
      CompositeFromOk(lib, rpc, filters.value, filters.status);
      CompositeFrom(lib, rpc, filters.value, 0, [], filters.status)
  }

  /** A child of a composite filter decoded on its own, from a clean reader: its `fieldFilter`, which it must have. */
  function ChildFilter(lib: Library, rpc: RpcSerializer, child: Json): (r: Decoded<Filter>)
    ensures r.status.Ok? ==> Contains(child, "fieldFilter")
    ensures Contains(child, "fieldFilter") ==> r == FieldFilterOf(lib, rpc, Ok, At(child, "fieldFilter"))
  {
    var inner := ReadChild(Ok, "fieldFilter", child);
    FieldFilterOf(lib, rpc, inner.status, inner.value)
  }

  /**
   * The child loop of a composite filter ends ok exactly when it starts ok
   * and every child decodes ok on its own; each child then contributes the
   * filter it decodes to on its own, in order.
   */
  lemma CompositeFromOk(lib: Library, rpc: RpcSerializer, items: seq<Json>, s: Status)
    ensures CompositeFrom(lib, rpc, items, 0, [], s).status.Ok? <==>
      s.Ok? && forall k :: 0 <= k < |items| ==> ChildFilter(lib, rpc, items[k]).status.Ok?
    ensures var r := CompositeFrom(lib, rpc, items, 0, [], s);
      r.status.Ok? ==>
        |r.value| == |items| && forall k :: 0 <= k < |items| ==> r.value[k] == ChildFilter(lib, rpc, items[k]).value
  {
    if s.Ok? {
      CompositeFromClean(lib, rpc, items);
    }
  }

  /** `CompositeFromOk` from a clean reader. */
  lemma CompositeFromClean(lib: Library, rpc: RpcSerializer, items: seq<Json>)
    ensures CompositeFrom(lib, rpc, items, 0, [], Ok).status.Ok? <==>
      forall k :: 0 <= k < |items| ==> ChildFilter(lib, rpc, items[k]).status.Ok?
    ensures var r := CompositeFrom(lib, rpc, items, 0, [], Ok);
      r.status.Ok? ==>
        |r.value| == |items| && forall k :: 0 <= k < |items| ==> r.value[k] == ChildFilter(lib, rpc, items[k]).value
  {
    var alone := seq(|items|, k requires 0 <= k < |items| => ChildFilter(lib, rpc, items[k]));
    var loop := (j: nat, a: seq<Filter>) => if j <= |items| then CompositeFrom(lib, rpc, items, j, a, Ok) else Decoded(a, Ok);
    CompositeFromSteps(lib, rpc, items, alone, loop);
    LoopCollectsAll(loop, alone);
    var r := CompositeFrom(lib, rpc, items, 0, [], Ok);
    assert loop(0, []) == r;
  }

  /**
   * A `loop` that is the child loop from a clean start, for children that
   * decode to `alone` on their own, steps as `LoopCollects` asks.
   */
  lemma CompositeFromSteps(lib: Library, rpc: RpcSerializer, items: seq<Json>, alone: seq<Decoded<Filter>>,
                           loop: (nat, seq<Filter>) -> Decoded<seq<Filter>>)
    requires |items| == |alone|
    requires forall k {:trigger ChildFilter(lib, rpc, items[k])} :: 0 <= k < |items| ==> ChildFilter(lib, rpc, items[k]) == alone[k]
    requires forall j: nat, a {:trigger loop(j, a)} :: j <= |items| ==> loop(j, a) == CompositeFrom(lib, rpc, items, j, a, Ok)
    ensures forall a :: loop(|alone|, a) == Decoded(a, Ok)
    ensures forall j: nat, a {:trigger loop(j, a), alone[j]} :: j < |alone| ==>
      if alone[j].status.Ok? then loop(j, a) == loop(j + 1, a + [alone[j].value]) else loop(j, a).status.Failed?
  {
    forall a
      ensures loop(|alone|, a) == Decoded(a, Ok)
    {
      assert loop(|alone|, a) == CompositeFrom(lib, rpc, items, |items|, a, Ok);
    }
    forall j: nat, a {:trigger loop(j, a), alone[j]} | j < |alone|
      ensures if alone[j].status.Ok? then loop(j, a) == loop(j + 1, a + [alone[j].value]) else loop(j, a).status.Failed?
    {
      CompositeFromStep(lib, rpc, items, j, a, alone[j]);
    }
  }

  /** One turn of the child loop from a clean start, for a child that decodes to `v` on its own. */
  lemma CompositeFromStep(lib: Library, rpc: RpcSerializer, items: seq<Json>, i: nat, acc: seq<Filter>,
                          v: Decoded<Filter>)
    requires i < |items| && ChildFilter(lib, rpc, items[i]) == v
    ensures CompositeFrom(lib, rpc, items, i, acc, Ok) ==
      if v.status.Ok? then CompositeFrom(lib, rpc, items, i + 1, acc + [v.value], Ok) else Decoded([], v.status)
  {
    assert CompositeFrom(lib, rpc, items, i, acc, Ok) == CompositeChild(lib, rpc, items, i, acc, ReadChild(Ok, "fieldFilter", items[i]));
  }

  /**
   * `DecodeWhere`: no `where` means no filters; otherwise a composite
   * filter is preferred to a field filter, which is preferred to a unary
   * filter.
   */
  function WhereOf(lib: Library, rpc: RpcSerializer, s: Status, query: Json): (r: Decoded<seq<Filter>>)
    ensures Sticky(s, r.status)
    ensures !Contains(query, "where") ==> r == Decoded([], s)
    ensures Contains(query, "where") && !At(query, "where").JObj? ==> r == Decoded([], s.Fail(WhereNotObject))
    ensures Contains(query, "where") && At(query, "where").JObj? ==>
      var where := At(query, "where");
      (Contains(where, "compositeFilter") ==>
         r == CompositeFilterOf(lib, rpc, s, At(where, "compositeFilter"))) &&
      (!Contains(where, "compositeFilter") && Contains(where, "fieldFilter") ==>
         var f := FieldFilterOf(lib, rpc, s, At(where, "fieldFilter")); r == Decoded([f.value], f.status)) &&
      (!Contains(where, "compositeFilter") && !Contains(where, "fieldFilter") && Contains(where, "unaryFilter") ==>
         var f := UnaryFilterOf(lib, s, At(where, "unaryFilter")); r == Decoded([f.value], f.status)) &&
      (!Contains(where, "compositeFilter") && !Contains(where, "fieldFilter") && !Contains(where, "unaryFilter") ==>
         r == Decoded([], s.Fail(NoValidFilter)))
  {
    if !Contains(query, "where") then Decoded([], s)
    else
      var where := At(query, "where");
      if !where.JObj? then Decoded([], s.Fail(WhereNotObject))
      else if Contains(where, "compositeFilter") then CompositeFilterOf(lib, rpc, s, At(where, "compositeFilter"))
      else if Contains(where, "fieldFilter") then
        var f := FieldFilterOf(lib, rpc, s, At(where, "fieldFilter"));
        Decoded([f.value], f.status)
      else if Contains(where, "unaryFilter") then
        var f := UnaryFilterOf(lib, s, At(where, "unaryFilter"));
        Decoded([f.value], f.status)
      else Decoded([], s.Fail(NoValidFilter))
  }

  /** The direction an ordering names: `ASCENDING` when it names none. */
  function DirectionName(s: Status, orderBy: Json): (r: Decoded<string>)
    ensures !Contains(orderBy, "direction") ==> r == Decoded("ASCENDING", s)
    ensures Contains(orderBy, "direction") ==> r == ReadString(s, "direction", orderBy)
  {
    if Contains(orderBy, "direction") then ReadString(s, "direction", orderBy) else Decoded("ASCENDING", s)
  }

  /**
   * One turn of `DecodeOrderBy`'s loop: the ordering at hand, or `None`
   * when its direction is neither `ASCENDING` nor `DESCENDING`, which makes
   * the loop give up.
   */
  function OrderByOf(lib: Library, s: Status, orderBy: Json): (r: Decoded<Option<OrderBy>>)
    ensures Sticky(s, r.status)
    ensures r.value.None? <==> DirectionName(Ok, orderBy).value !in {"ASCENDING", "DESCENDING"}
    ensures r.value.None? ==> r.status.Failed?
  {
    var field := ReadChild(s, "field", orderBy);
    var path := FieldReferenceOf(lib, field.status, field.value);
    var direction := DirectionName(path.status, orderBy);
    if direction.value != "DESCENDING" && direction.value != "ASCENDING" then
      Decoded(None, direction.status.Fail(InvalidDirection(direction.value)))
    else
      Decoded(Some(OrderBy(path.value, if direction.value == "ASCENDING" then Ascending else Descending)), direction.status)
  }

  /**
   * An ordering decoded on its own from a clean reader: it needs a `field`
   * naming a valid field path and a valid direction, `ASCENDING` when it
   * names none.
   */
  function OrderByAlone(lib: Library, orderBy: Json): (r: Decoded<OrderBy>)
    ensures r.status.Ok? <==>
      Contains(orderBy, "field") && FieldReferenceOf(lib, Ok, At(orderBy, "field")).status.Ok? &&
      DirectionName(Ok, orderBy).status.Ok? && DirectionName(Ok, orderBy).value in {"ASCENDING", "DESCENDING"}
    ensures r.status.Ok? ==>
      r.value.field == FieldReferenceOf(lib, Ok, At(orderBy, "field")).value &&
      (r.value.direction == Descending <==> DirectionName(Ok, orderBy).value == "DESCENDING")
  {
    var one := OrderByOf(lib, Ok, orderBy);
    Decoded(if one.value.Some? then one.value.value else OrderBy(EmptyFieldPath, Ascending), one.status)
  }

  /** The loop of `DecodeOrderBy` from ordering `i` on: an invalid direction empties the list. */
  function OrderBysFrom(lib: Library, items: seq<Json>, i: nat, acc: seq<OrderBy>, s: Status)
    : (r: Decoded<seq<OrderBy>>)
    requires i <= |items|
    decreases |items| - i
    ensures Sticky(s, r.status)
    ensures r.status.Ok? ==> |r.value| == |acc| + (|items| - i) && r.value[..|acc|] == acc
  {
    if i == |items| then Decoded(acc, s)
    else
      var next := OrderByOf(lib, s, items[i]);
      if next.value.None? then Decoded([], next.status)
      else OrderBysFrom(lib, items, i + 1, acc + [next.value.value], next.status)
  }

  /** One turn of the ordering loop from a clean start, for an ordering that decodes to `v` on its own. */
  lemma OrderBysFromStep(lib: Library, items: seq<Json>, i: nat, acc: seq<OrderBy>, v: Decoded<OrderBy>)
    requires i < |items| && OrderByAlone(lib, items[i]) == v
    ensures v.status.Ok? ==> OrderBysFrom(lib, items, i, acc, Ok) == OrderBysFrom(lib, items, i + 1, acc + [v.value], Ok)
    ensures v.status.Failed? ==> OrderBysFrom(lib, items, i, acc, Ok).status.Failed?
  {
  }

  /**
   * A `loop` that is the ordering loop from a clean start, for orderings
   * that decode to `alone` on their own, steps as `LoopCollects` asks.
   */
  lemma OrderBysFromSteps(lib: Library, items: seq<Json>, alone: seq<Decoded<OrderBy>>,
                          loop: (nat, seq<OrderBy>) -> Decoded<seq<OrderBy>>)
    requires |items| == |alone|
    requires forall k {:trigger OrderByAlone(lib, items[k])} :: 0 <= k < |items| ==> OrderByAlone(lib, items[k]) == alone[k]
    requires forall j: nat, a {:trigger loop(j, a)} :: j <= |items| ==> loop(j, a) == OrderBysFrom(lib, items, j, a, Ok)
    ensures forall a :: loop(|alone|, a) == Decoded(a, Ok)
    ensures forall j: nat, a {:trigger loop(j, a), alone[j]} :: j < |alone| ==>
      if alone[j].status.Ok? then loop(j, a) == loop(j + 1, a + [alone[j].value]) else loop(j, a).status.Failed?
  {
    forall a
      ensures loop(|alone|, a) == Decoded(a, Ok)
    {
      assert loop(|alone|, a) == OrderBysFrom(lib, items, |items|, a, Ok);
    }
    forall j: nat, a {:trigger loop(j, a), alone[j]} | j < |alone|
      ensures if alone[j].status.Ok? then loop(j, a) == loop(j + 1, a + [alone[j].value]) else loop(j, a).status.Failed?
    {
      OrderBysFromStep(lib, items, j, a, alone[j]);
    }
  }

  /**
   * The ordering loop ends ok exactly when it starts ok and every ordering
   * decodes ok on its own; each then contributes the ordering it decodes
   * to on its own, in order.
   */
  lemma OrderBysFromOk(lib: Library, items: seq<Json>, s: Status)
    ensures OrderBysFrom(lib, items, 0, [], s).status.Ok? <==>
      s.Ok? && forall k :: 0 <= k < |items| ==> OrderByAlone(lib, items[k]).status.Ok?
    ensures var r := OrderBysFrom(lib, items, 0, [], s);
      r.status.Ok? ==>
        |r.value| == |items| && forall k :: 0 <= k < |items| ==> r.value[k] == OrderByAlone(lib, items[k]).value
  {
    if s.Ok? {
      OrderBysFromClean(lib, items);
    }
  }

  /** `OrderBysFromOk` from a clean reader. */
  lemma OrderBysFromClean(lib: Library, items: seq<Json>)
    ensures OrderBysFrom(lib, items, 0, [], Ok).status.Ok? <==>
      forall k :: 0 <= k < |items| ==> OrderByAlone(lib, items[k]).status.Ok?
    ensures var r := OrderBysFrom(lib, items, 0, [], Ok);
      r.status.Ok? ==>
        |r.value| == |items| && forall k :: 0 <= k < |items| ==> r.value[k] == OrderByAlone(lib, items[k]).value
  {
    var alone := seq(|items|, k requires 0 <= k < |items| => OrderByAlone(lib, items[k]));
    var loop := (j: nat, a: seq<OrderBy>) => if j <= |items| then OrderBysFrom(lib, items, j, a, Ok) else Decoded(a, Ok);
    OrderBysFromSteps(lib, items, alone, loop);
    LoopCollectsAll(loop, alone);
    var r := OrderBysFrom(lib, items, 0, [], Ok);
    assert loop(0, []) == r;
  }

  /** `DecodeOrderBy`: `orderBy` is required, and each ordering keeps its place. */
  function OrderBysOf(lib: Library, s: Status, query: Json): (r: Decoded<seq<OrderBy>>)
    ensures Sticky(s, r.status)
    ensures !(Contains(query, "orderBy") && At(query, "orderBy").JArr?) ==> r == Decoded([], s.Fail(MissingOrNotArray("orderBy")))
    ensures r.status.Ok? <==>
      s.Ok? && Contains(query, "orderBy") && At(query, "orderBy").JArr? &&
      forall k :: 0 <= k < |At(query, "orderBy").items| ==> OrderByAlone(lib, At(query, "orderBy").items[k]).status.Ok?
    ensures r.status.Ok? ==>
      |r.value| == |At(query, "orderBy").items| &&
      forall k :: 0 <= k < |r.value| ==> r.value[k] == OrderByAlone(lib, At(query, "orderBy").items[k]).value
  {
    var orderBys := ReadArray(s, "orderBy", query);
    OrderBysFromOk(lib, orderBys.value, orderBys.status);
    OrderBysFrom(lib, orderBys.value, 0, [], orderBys.status)
  }

  /** `DecodeBound`: an absent bound is empty; otherwise one position per listed value. */
  function BoundOf(lib: Library, rpc: RpcSerializer, s: Status, query: Json, name: string): (r: Decoded<Bound>)
    ensures Sticky(s, r.status)
    ensures !Contains(query, name) ==> r == Decoded(Bound([], false), s)
    ensures Contains(query, name) ==>
      r.value.before == JsonReader.OptionalBool("before", At(query, name)) &&
      (Contains(At(query, name), "values") && At(At(query, name), "values").JArr? ==>
         |r.value.position| == |At(At(query, name), "values").items|)
    ensures Contains(query, name) ==>
      (r.status.Ok? <==>
         s.Ok? && Contains(At(query, name), "values") && At(At(query, name), "values").JArr? &&
         forall k :: 0 <= k < |At(At(query, name), "values").items| ==>
           ValueOf(lib, rpc, Ok, At(At(query, name), "values").items[k]).status.Ok?)
    ensures Contains(query, name) && r.status.Ok? ==>
      forall k :: 0 <= k < |r.value.position| ==>
        r.value.position[k] == ValueOf(lib, rpc, Ok, At(At(query, name), "values").items[k]).value
  {
    if !Contains(query, name) then Decoded(Bound([], false), s)
    else
      var bound := ReadChild(s, name, query);
      var before := JsonReader.OptionalBool("before", bound.value);
      var values := ReadArray(bound.status, "values", bound.value);
      var positions := ValuesFrom(lib, rpc, bound.value, values.value, 0, [], values.status);
      ValuesFromShape(lib, rpc, bound.value, values.value, 0, [], values.status);
      ValuesFromOk(lib, rpc, bound.value, values.value, values.status);
      Decoded(Bound(positions.value, before), positions.status)
  }

  /**
   * `DecodeLimit`: `kNoLimit` when absent; a JSON integer is narrowed to 32
   * bits as `get<int32_t>` does; anything else records a failure.
   */
  function LimitOf(s: Status, query: Json): (r: Decoded<int>)
    ensures FirstWins(s, r.status)
    ensures Int32.InRange(r.value)
    ensures !Contains(query, "limit") ==> r == Decoded(NoLimit, s)
    ensures Contains(query, "limit") && !At(query, "limit").JInt? ==> r == Decoded(NoLimit, s.Fail(LimitNotInteger))
    ensures Contains(query, "limit") && At(query, "limit").JInt? ==>
      r.status == s && (r.value - At(query, "limit").i) % 0x1_0000_0000 == 0 &&
      (Int32.InRange(At(query, "limit").i) ==> r.value == At(query, "limit").i)
  {
    if !Contains(query, "limit") then Decoded(NoLimit, s)
    else
      var limit := At(query, "limit");
      if !limit.JInt? then Decoded(NoLimit, s.Fail(LimitNotInteger))
      else Decoded(Narrow(Int32, limit.i), s)
  }

  /** `DecodeLimitType`: `FIRST` when absent; only `FIRST` and `LAST` are recognised. */
  function LimitTypeOf(s: Status, query: Json): (r: Decoded<LimitType>)
    ensures FirstWins(s, r.status)
    ensures !Contains(query, "limitType") ==> r == Decoded(First, s)
    ensures r.value == First <==> !Contains(query, "limitType") || At(query, "limitType") == JStr("FIRST")
    ensures r.value == Last <==> Contains(query, "limitType") && At(query, "limitType") == JStr("LAST")
    ensures r.value == Unspecified <==>
      Contains(query, "limitType") && At(query, "limitType") != JStr("FIRST") && At(query, "limitType") != JStr("LAST")
    ensures r.value == Unspecified ==> r.status.Failed?
    ensures r.value != Unspecified ==> r.status == s
  {
    var name := if Contains(query, "limitType") then ReadString(s, "limitType", query) else Decoded("FIRST", s);
    if name.value == "FIRST" then Decoded(First, name.status)
    else if name.value == "LAST" then Decoded(Last, name.status)
    else Decoded(Unspecified, name.status.Fail(InvalidLimitType))
  }

  /**
   * Decoding reaches `from_json.get_ref<vector>()` only when the reader is
   * ok and the structured query passed its checks; `from` must then be an
   * array.
   */
  predicate FromIsArray(s: Status, query: Json)
  {
    s.Ok? && Contains(query, "structuredQuery") && QueryProblem(At(query, "structuredQuery")).None? ==>
      At(At(query, "structuredQuery"), "from").JArr?
  }

  /** The `parent` that decoding reaches passes `NameHasPrefix`. */
  predicate ParentHasPrefix(lib: Library, rpc: RpcSerializer, s: Status, query: Json)
  {
    s.Ok? && Contains(query, "structuredQuery") && QueryProblem(At(query, "structuredQuery")).None? &&
    Contains(query, "parent") ==>
      NameHasPrefix(lib, rpc, At(query, "parent"))
  }

  /** `DecodeBundledQuery`. */
  function BundledQueryOf(lib: Library, rpc: RpcSerializer, s: Status, query: Json): (r: Decoded<BundledQuery>)
    requires FromIsArray(s, query) && ParentHasPrefix(lib, rpc, s, query)
    ensures Sticky(s, r.status)
    ensures !(s.Ok? && Contains(query, "structuredQuery") && QueryProblem(At(query, "structuredQuery")).None?) ==>
      r.value == DefaultBundledQuery && r.status.Failed?
    ensures Int32.InRange(r.value.target.limit)
    ensures r.value.target.collectionGroup != Some("")
    ensures r.value.target.startAt.Some? ==> |r.value.target.startAt.value.position| > 0
    ensures r.value.target.endAt.Some? ==> |r.value.target.endAt.value.position| > 0
  {
    var structured := ReadChild(s, "structuredQuery", query);
    var verified := Verified(structured.status, structured.value);
    if verified.Failed? then Decoded(DefaultBundledQuery, verified)
    else
      var parentJson := ReadChild(verified, "parent", query);
      var parent := NameOf(lib, rpc, parentJson.status, parentJson.value);
      var source := CollectionSourceOf(parent.status, At(structured.value, "from"), parent.value, "");
      var group := if source.value.1 != "" then Some(source.value.1) else None;
      var filters := WhereOf(lib, rpc, source.status, structured.value);
      var orderBys := OrderBysOf(lib, filters.status, structured.value);
      var start := BoundOf(lib, rpc, orderBys.status, structured.value, "startAt");
      var end := BoundOf(lib, rpc, start.status, structured.value, "endAt");
      var limit := LimitOf(end.status, structured.value);
      var limitType := LimitTypeOf(limit.status, query);
      var target := Target(source.value.0, group, filters.value, orderBys.value, limit.value,
                           if |start.value.position| == 0 then None else Some(start.value),
                           if |end.value.position| == 0 then None else Some(end.value));
      Decoded(BundledQuery(target, limitType.value), limitType.status)
  }
}
