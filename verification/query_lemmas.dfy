/**
 * Properties of query decoding that relate several steps: a composite
 * filter is all or nothing, a limit outside 32 bits wraps, and a bundled
 * query decodes ok exactly when its parts do, and then is made of them.
 */
module QueryLemmas {
  import opened Wrappers
  import opened JsonTree
  import opened Numbers
  import opened Model
  import opened ReadStatus
  import opened Reader
  import opened ValueDecoding
  import opened QueryDecoding

  /**
   * Every child of a composite filter must carry `fieldFilter`: one child
   * without it, wherever it stands, leaves no filters and a failure.
   */
  lemma {:induction false} CompositeChildWithoutFieldFilter(lib: Library, rpc: RpcSerializer, items: seq<Json>,
                                                            i: nat, acc: seq<Filter>, s: Status, k: nat)
    requires i <= k < |items|
    requires !Contains(items[k], "fieldFilter")
    decreases |items| - i
    ensures CompositeFrom(lib, rpc, items, i, acc, s).status.Failed?
    ensures CompositeFrom(lib, rpc, items, i, acc, s).value == []
  {
    var child := ReadChild(s, "fieldFilter", items[i]);
    var filter := FieldFilterOf(lib, rpc, child.status, child.value);
    if i == k {
      assert child.status.Failed?;
      assert Sticky(child.status, filter.status);
    } else if filter.status.Ok? {
      CompositeChildWithoutFieldFilter(lib, rpc, items, i + 1, acc + [filter.value], filter.status, k);
    }
  }

  /** The same for the whole composite filter, once its `op` is `AND` and its `filters` an array. */
  lemma CompositeFilterNeedsFieldFilters(lib: Library, rpc: RpcSerializer, s: Status, filter: Json, k: nat)
    requires Contains(filter, "filters") && At(filter, "filters").JArr?
    requires k < |At(filter, "filters").items|
    requires !Contains(At(filter, "filters").items[k], "fieldFilter")
    ensures CompositeFilterOf(lib, rpc, s, filter).status.Failed?
    ensures CompositeFilterOf(lib, rpc, s, filter).value == []
  {
    var op := ReadString(s, "op", filter);
    if op.value == "AND" {
      var filters := ReadArray(op.status, "filters", filter);
      CompositeChildWithoutFieldFilter(lib, rpc, filters.value, 0, [], filters.status, k);
    }
  }

  /**
   * `get<int32_t>` keeps the low 32 bits: an integer `limit` reads as the
   * one 32-bit signed value congruent to it modulo 2^32, and the reader is
   * left as it was.
   */
  lemma LimitIsCongruentInt32(s: Status, query: Json, x: int)
    requires Contains(query, "limit") && At(query, "limit").JInt?
    requires Int32.InRange(x) && (x - At(query, "limit").i) % 0x1_0000_0000 == 0
    ensures LimitOf(s, query) == Decoded(x, s)
  {
    var r := LimitOf(s, query);
    CongruentInRange(Int32, r.value, x, At(query, "limit").i);
  }

  /**
   * The single `from` selector decides the query's source: with
   * `allDescendants` its non-empty collection id names a collection group,
   * and otherwise no group is set.
   */
  lemma CollectionGroupFromSelector(lib: Library, rpc: RpcSerializer, s: Status, query: Json)
    requires s.Ok? && Contains(query, "structuredQuery")
    requires QueryProblem(At(query, "structuredQuery")).None?
    requires At(At(query, "structuredQuery"), "from").JArr? && ParentHasPrefix(lib, rpc, s, query)
    ensures var from := At(At(query, "structuredQuery"), "from").items;
      var group := BundledQueryOf(lib, rpc, s, query).value.target.collectionGroup;
      group.Some? <==>
        |from| == 1 && JsonReader.OptionalBool("allDescendants", from[0]) &&
        Contains(from[0], "collectionId") && At(from[0], "collectionId").JStr? &&
        At(from[0], "collectionId").str != ""
    ensures var from := At(At(query, "structuredQuery"), "from").items;
      var group := BundledQueryOf(lib, rpc, s, query).value.target.collectionGroup;
      group.Some? ==> At(from[0], "collectionId") == JStr(group.value)
  {
  }

  /**
   * A bundled query decodes ok exactly when its structured query passes
   * its checks and each part decodes ok on its own, from a clean reader.
   */
  lemma BundledQueryOkFromParts(lib: Library, rpc: RpcSerializer, s: Status, query: Json)
    requires FromIsArray(s, query) && ParentHasPrefix(lib, rpc, s, query)
    ensures BundledQueryOf(lib, rpc, s, query).status.Ok? <==>
      s.Ok? && Contains(query, "structuredQuery") &&
      var sq := At(query, "structuredQuery");
      QueryProblem(sq).None? &&
      Contains(query, "parent") && NameOf(lib, rpc, Ok, At(query, "parent")).status.Ok? &&
      CollectionSourceOf(Ok, At(sq, "from"), NameOf(lib, rpc, Ok, At(query, "parent")).value, "").status.Ok? &&
      WhereOf(lib, rpc, Ok, sq).status.Ok? && OrderBysOf(lib, Ok, sq).status.Ok? &&
      BoundOf(lib, rpc, Ok, sq, "startAt").status.Ok? && BoundOf(lib, rpc, Ok, sq, "endAt").status.Ok? &&
      LimitOf(Ok, sq).status.Ok? && LimitTypeOf(Ok, query).status.Ok?
  {
  }

  /**
   * A bundled query that decodes ok holds each part as decoded on its own
   * from a clean reader: a bound only when it has positions, and the limit
   * type read from the outer query.
   */
  lemma BundledQueryParts(lib: Library, rpc: RpcSerializer, s: Status, query: Json)
    requires FromIsArray(s, query) && ParentHasPrefix(lib, rpc, s, query)
    requires BundledQueryOf(lib, rpc, s, query).status.Ok?
    ensures Contains(query, "structuredQuery") && Contains(query, "parent")
    ensures var sq := At(query, "structuredQuery");
      var r := BundledQueryOf(lib, rpc, s, query).value;
      var source := CollectionSourceOf(Ok, At(sq, "from"), NameOf(lib, rpc, Ok, At(query, "parent")).value, "").value;
      var start := BoundOf(lib, rpc, Ok, sq, "startAt").value;
      var end := BoundOf(lib, rpc, Ok, sq, "endAt").value;
      r.target.path == source.0 &&
      r.target.collectionGroup == (if source.1 != "" then Some(source.1) else None) &&
      r.target.filters == WhereOf(lib, rpc, Ok, sq).value &&
      r.target.orderBy == OrderBysOf(lib, Ok, sq).value &&
      r.target.startAt == (if |start.position| == 0 then None else Some(start)) &&
      r.target.endAt == (if |end.position| == 0 then None else Some(end)) &&
      r.target.limit == LimitOf(Ok, sq).value &&
      r.limitType == LimitTypeOf(Ok, query).value
  {
  }
}
