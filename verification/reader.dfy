/**
 * `JsonReader`: typed, total access to the members of a JSON object, with
 * the sticky error state of `util::ReadContext`.
 *
 * Each `Require*` operation is specified by a function of the reader's
 * status before the call (`ReadString`, `ReadArray`, ...) that gives the
 * value returned and the status afterwards; the class's methods are proved
 * to behave exactly as those functions say.
 */
module Reader {
  import opened Wrappers
  import opened JsonTree
  import opened Numbers
  import opened Model
  import opened ReadStatus

  /** The check `RequireString` applies to a member it found. */
  function StringMember(s: Status, name: string, v: Json): Decoded<string>
  {
    if v.JStr? then Decoded(v.str, s) else Decoded("", s.Fail(MissingOrNotString(name)))
  }

  /** `RequireString`: the string member, or "" and a recorded failure. */
  function ReadString(s: Status, name: string, j: Json): (r: Decoded<string>)
    ensures Contains(j, name) && At(j, name).JStr? ==> r == Decoded(At(j, name).str, s)
    ensures !(Contains(j, name) && At(j, name).JStr?) ==>
      r.value == "" && r.status == s.Fail(MissingOrNotString(name))
    ensures FirstWins(s, r.status)
  {
    if Contains(j, name) then StringMember(s, name, At(j, name))
    else Decoded("", s.Fail(MissingOrNotString(name)))
  }

  /** `RequireArray`: the array member's elements, or [] and a recorded failure. */
  function ReadArray(s: Status, name: string, j: Json): (r: Decoded<seq<Json>>)
    ensures Contains(j, name) && At(j, name).JArr? ==> r == Decoded(At(j, name).items, s)
    ensures !(Contains(j, name) && At(j, name).JArr?) ==>
      r.value == [] && r.status == s.Fail(MissingOrNotArray(name))
    ensures forall k :: 0 <= k < |r.value| ==> r.value[k] < j
    ensures FirstWins(s, r.status)
  {
    if Contains(j, name) && At(j, name).JArr? then Decoded(At(j, name).items, s)
    else Decoded([], s.Fail(MissingOrNotArray(name)))
  }

  /** `Require`: the named member, or the object itself and a recorded failure. */
  function ReadChild(s: Status, name: string, j: Json): (r: Decoded<Json>)
    ensures Contains(j, name) ==> r == Decoded(At(j, name), s)
    ensures !Contains(j, name) ==> r == Decoded(j, s.Fail(MissingChild(name)))
    ensures FirstWins(s, r.status)
  {
    if Contains(j, name) then Decoded(At(j, name), s) else Decoded(j, s.Fail(MissingChild(name)))
  }

  /** The checks `RequireDouble` applies to a member it found. */
  function DoubleMember(lib: Library, s: Status, name: string, v: Json): Decoded<Double>
  {
    if v.JInt? then Decoded(FromInteger(v.i), s)
    else if v.JNum? then Decoded(FromText(v.text), s)
    else if v.JStr? then
      match lib.simpleAtod(v.str)
      case Some(d) => Decoded(d, s)
      case None => Decoded(Zero, s.Fail(NotADouble(v.str)))
    else Decoded(Zero, s.Fail(MissingOrNotDouble(name)))
  }

  /**
   * `RequireDouble`: any JSON number, or a string absl can parse as a
   * double.  An unparsable string and a missing or otherwise-typed member
   * both record a failure and give 0.
   */
  function ReadDouble(lib: Library, s: Status, name: string, j: Json): (r: Decoded<Double>)
    ensures r.status.Ok? <==> (s.Ok? && Contains(j, name) &&
      (At(j, name).JInt? || At(j, name).JNum? ||
       (At(j, name).JStr? && lib.simpleAtod(At(j, name).str).Some?)))
    ensures Contains(j, name) && At(j, name).JInt? ==> r == Decoded(FromInteger(At(j, name).i), s)
    ensures Contains(j, name) && At(j, name).JNum? ==> r == Decoded(FromText(At(j, name).text), s)
    ensures Contains(j, name) && At(j, name).JStr? && lib.simpleAtod(At(j, name).str).Some? ==>
      r == Decoded(lib.simpleAtod(At(j, name).str).value, s)
    ensures !(Contains(j, name) &&
              (At(j, name).JInt? || At(j, name).JNum? ||
               (At(j, name).JStr? && lib.simpleAtod(At(j, name).str).Some?))) ==>
      r.value == Zero && r.status.Failed?
    ensures FirstWins(s, r.status)
  {
    if Contains(j, name) then DoubleMember(lib, s, name, At(j, name))
    else Decoded(Zero, s.Fail(MissingOrNotDouble(name)))
  }

  /** The checks `RequireInt<T>` applies to a member it found. */
  function IntMember(s: Status, t: IntType, name: string, v: Json): Decoded<int>
  {
    if v.JInt? then Decoded(Narrow(t, v.i), s)
    else if v.JStr? then
      match SimpleAtoi(t, v.str)
      case Some(n) => Decoded(n, s)
      case None => Decoded(0, s.Fail(NotAnInteger(v.str)))
    else Decoded(0, s.Fail(MissingOrNotInteger(name)))
  }

  /**
   * `RequireInt<T>`: a JSON integer narrowed to `T`, or a string that
   * `SimpleAtoi<T>` accepts.  Anything else records a failure and gives 0.
   */
  function ReadInt(s: Status, t: IntType, name: string, j: Json): (r: Decoded<int>)
    ensures t.InRange(r.value)
    ensures r.status.Ok? <==> (s.Ok? && Contains(j, name) &&
      (At(j, name).JInt? || (At(j, name).JStr? && SimpleAtoi(t, At(j, name).str).Some?)))
    ensures Contains(j, name) && At(j, name).JInt? ==> r == Decoded(Narrow(t, At(j, name).i), s)
    ensures Contains(j, name) && At(j, name).JStr? && SimpleAtoi(t, At(j, name).str).Some? ==>
      r == Decoded(SimpleAtoi(t, At(j, name).str).value, s)
    ensures !(Contains(j, name) &&
              (At(j, name).JInt? || (At(j, name).JStr? && SimpleAtoi(t, At(j, name).str).Some?))) ==>
      r.value == 0 && r.status.Failed?
    ensures FirstWins(s, r.status)
  {
    if Contains(j, name) then IntMember(s, t, name, At(j, name))
    else Decoded(0, s.Fail(MissingOrNotInteger(name)))
  }

  /**
   * An integer member reads the same whether the bundle writes it as a JSON
   * number or as its decimal string (as 64-bit integers are written).
   */
  lemma IntegerSpellings(s: Status, t: IntType, name: string, i: int)
    requires t.InRange(i)
    ensures ReadInt(s, t, name, JObj([(name, JInt(i))])) == Decoded(i, s)
    ensures ReadInt(s, t, name, JObj([(name, JStr(DecimalString(i)))])) == Decoded(i, s)
  {
    DecimalRoundTrip(t, i);
  }

  class JsonReader {
    /** `ReadContext::status_`. */
    var status: Status

    constructor ()
      ensures status == Ok
    {
      status := Ok;
    }

    /** `ok()`. */
    predicate IsOk()
      reads this
    {
      status.Ok?
    }

    /** `Fail`: the first recorded failure wins. */
    method Fail(e: Error)
      modifies this
      ensures status == old(status).Fail(e)
    {
      if status.Ok? {
        status := Failed(e);
      }
    }

    /** `set_status` with a failed status. */
    method SetStatus(e: Error)
      modifies this
      ensures status == old(status).Set(e)
    {
      status := Failed(e);
    }

    method RequireString(name: string, j: Json) returns (r: string)
      modifies this
      ensures Decoded(r, status) == ReadString(old(status), name, j)
    {
      if Contains(j, name) {
        var child := At(j, name);
        if child.JStr? {
          return child.str;
        }
      }
      Fail(MissingOrNotString(name));
      return "";
    }

    method RequireArray(name: string, j: Json) returns (r: seq<Json>)
      modifies this
      ensures Decoded(r, status) == ReadArray(old(status), name, j)
    {
      if Contains(j, name) {
        var child := At(j, name);
        if child.JArr? {
          return child.items;
        }
      }
      Fail(MissingOrNotArray(name));
      return [];
    }

    /** Never touches a reader: it is a static member. */
    static function OptionalBool(name: string, j: Json): (r: bool)
      ensures r <==> Contains(j, name) && At(j, name) == JBool(true)
    {
      Contains(j, name) && At(j, name).JBool? && At(j, name).b
    }

    method Require(name: string, j: Json) returns (r: Json)
      modifies this
      ensures Decoded(r, status) == ReadChild(old(status), name, j)
    {
      if !Contains(j, name) {
        Fail(MissingChild(name));
        return j;
      }
      return At(j, name);
    }

    method RequireDouble(lib: Library, name: string, j: Json) returns (r: Double)
      modifies this
      ensures Decoded(r, status) == ReadDouble(lib, old(status), name, j)
    {
      if Contains(j, name) {
        var value := At(j, name);
        if value.JInt? {
          return FromInteger(value.i);
        } else if value.JNum? {
          return FromText(value.text);
        }
        if value.JStr? {
          var parsed := lib.simpleAtod(value.str);
          r := Zero;
          if parsed.Some? {
            r := parsed.value;
          } else {
            Fail(NotADouble(value.str));
          }
          return r;
        }
      }
      Fail(MissingOrNotDouble(name));
      return Zero;
    }

    method RequireInt(t: IntType, name: string, j: Json) returns (r: int)
      modifies this
      ensures Decoded(r, status) == ReadInt(old(status), t, name, j)
    {
      if Contains(j, name) {
        var value := At(j, name);
        if value.JInt? {
          return Narrow(t, value.i);
        }
        if value.JStr? {
          var parsed := SimpleAtoi(t, value.str);
          r := 0;
          if parsed.Some? {
            r := parsed.value;
          } else {
            Fail(NotAnInteger(value.str));
          }
          return r;
        }
      }
      Fail(MissingOrNotInteger(name));
      return 0;
    }
  }
}
