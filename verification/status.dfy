/**
 * The error state a `JsonReader` inherits from `util::ReadContext`: either
 * no failure, or the failure that is currently recorded.
 */
module ReadStatus {
  import opened Model

  /** What went wrong; the message text itself is not modelled. */
  datatype Error =
    | ParseFailure(text: string)
    | MissingOrNotString(name: string)
    | MissingOrNotArray(name: string)
    | MissingChild(name: string)
    | NotADouble(s: string)
    | MissingOrNotDouble(name: string)
    | NotAnInteger(s: string)
    | MissingOrNotInteger(name: string)
    | TimestampParseFailure(detail: string)
    | Reported(message: string)
    | StructuredQueryNotObject
    | SelectUnsupported
    | MissingFrom
    | OffsetUnsupported
    | MultipleFrom
    | FieldNotObject
    | InvalidOperator(op: string)
    | InvalidUnaryOperator(op: string)
    | InvalidDirection(direction: string)
    | LimitNotInteger
    | InvalidLimitType
    | InvalidBase64
    | NameNotString
    | NotLocalResourceName(path: ResourcePath)
    | WhereNotObject
    | NoValidFilter
    | NotAndComposite
    | ValueNotObject
    | BooleanNotBoolean
    | NoValueType
    | InvalidMapValue
    | InvalidMapFields
    | QueryNameNotString

  datatype Status = Ok | Failed(error: Error) {

    /** `Fail`: records `e` unless a failure is already recorded. */
    function Fail(e: Error): (r: Status)
      ensures r.Failed?
      ensures Failed? ==> r == this
      ensures Ok? ==> r.error == e
    {
      if Ok? then Failed(e) else this
    }

    /** `set_status` with a failed status: replaces whatever was recorded. */
    function Set(e: Error): (r: Status)
      ensures r.Failed? && r.error == e
    {
      Failed(e)
    }
  }

  /** A failure, once recorded, stays recorded. */
  predicate Sticky(before: Status, after: Status)
  {
    before.Failed? ==> after.Failed?
  }

  /** Stronger: a recorded failure is not even replaced (only `Fail` was used). */
  predicate FirstWins(before: Status, after: Status)
  {
    before.Failed? ==> after == before
  }

  /** The value a decoder computes, and the reader's status after computing it. */
  datatype Decoded<+T> = Decoded(value: T, status: Status)

  /** Every decoding in `alone` from `i` on left the reader ok. */
  predicate AllOk<T>(alone: seq<Decoded<T>>, i: nat)
  {
    forall k :: i <= k < |alone| ==> alone[k].status.Ok?
  }

  /** `AllOk` from `i` on is the decoding at `i` being ok and `AllOk` after it. */
  lemma AllOkFrom<T>(alone: seq<Decoded<T>>, i: nat)
    requires i < |alone|
    ensures AllOk(alone, i) <==> alone[i].status.Ok? && AllOk(alone, i + 1)
  {
    if alone[i].status.Ok? && AllOk(alone, i + 1) {
      forall k | i <= k < |alone|
        ensures alone[k].status.Ok?
      {
        if k > i {
        }
      }
    }
  }

  /** `LoopCollects` from the first item with no values yet: the loop holds exactly the items' values. */
  lemma LoopCollectsAll<T>(loop: (nat, seq<T>) -> Decoded<seq<T>>, alone: seq<Decoded<T>>)
    requires forall a :: loop(|alone|, a) == Decoded(a, Ok)
    requires forall j: nat, a {:trigger loop(j, a), alone[j]} :: j < |alone| ==>
      if alone[j].status.Ok? then loop(j, a) == loop(j + 1, a + [alone[j].value]) else loop(j, a).status.Failed?
    ensures loop(0, []).status.Ok? <==> AllOk(alone, 0)
    ensures var r := loop(0, []);
      r.status.Ok? ==> |r.value| == |alone| && forall k :: 0 <= k < |alone| ==> r.value[k] == alone[k].value
  {
    LoopCollects(loop, alone, 0, []);
  }

  /**
   * A decoding loop over items that each decode on their own to `alone`,
   * seen from a clean reader: `loop(j, a)` continues from item `j` with the
   * values `a` so far. Past the last item it returns `a`; an item that
   * decodes cleanly adds its value and moves on; any other item fails the
   * loop. Such a loop ends ok exactly when every item from `i` on decodes
   * cleanly, and then holds `acc` followed by their values, in order.
   */
  lemma {:induction false} LoopCollects<T>(loop: (nat, seq<T>) -> Decoded<seq<T>>, alone: seq<Decoded<T>>, i: nat, acc: seq<T>)
    requires i <= |alone|
    requires forall a :: loop(|alone|, a) == Decoded(a, Ok)
    requires forall j: nat, a {:trigger loop(j, a), alone[j]} :: j < |alone| ==>
      if alone[j].status.Ok? then loop(j, a) == loop(j + 1, a + [alone[j].value]) else loop(j, a).status.Failed?
    decreases |alone| - i
    ensures loop(i, acc).status.Ok? <==> AllOk(alone, i)
    ensures var r := loop(i, acc);
      r.status.Ok? ==>
        |r.value| == |acc| + |alone| - i && r.value[..|acc|] == acc &&
        forall k :: i <= k < |alone| ==> r.value[|acc| + k - i] == alone[k].value
  {
    if i == |alone| {
      assert loop(i, acc) == Decoded(acc, Ok);
    } else {
      AllOkFrom(alone, i);
      var v := alone[i];
      if v.status.Ok? {
        var acc' := acc + [v.value];
        assert loop(i, acc) == loop(i + 1, acc');
        LoopCollects(loop, alone, i + 1, acc');
        var r := loop(i + 1, acc');
        if r.status.Ok? {
          assert r.value[..|acc'|][..|acc|] == acc;
          forall k | i <= k < |alone|
            ensures r.value[|acc| + k - i] == alone[k].value
          {
            if k == i {
              assert r.value[..|acc'|][|acc|] == v.value;
            }
          }
        }
      } else {
        assert loop(i, acc).status.Failed?;
      }
    }
  }
}
