/**
 * A parsed JSON tree, as the JSON library hands it to the bundle decoder.
 *
 * Objects keep their members as a sequence in the container's iteration
 * order; a lookup by name finds the first member with that name.  Integral
 * numbers and other numbers are distinct cases, because the decoder asks
 * "is this an integer?" and "is this a number?" separately.  A number that
 * is not integral is kept as its literal text: floating point is not
 * modelled.
 */
module JsonTree {
  import opened Wrappers

  datatype Json =
    | JNull
    | JBool(b: bool)
    | JInt(i: int)
    | JNum(text: string)
    | JStr(str: string)
    | JArr(items: seq<Json>)
    | JObj(members: seq<(string, Json)>)

  /** What the parser produced for one bundle element: a tree, or the discarded marker. */
  datatype Parsed = Discarded(text: string) | Tree(root: Json)

  /** Index of the first member called `name`. */
  function IndexOf(members: seq<(string, Json)>, name: string): (r: Option<nat>)
    ensures r.Some? ==> r.value < |members| && members[r.value].0 == name
    ensures r.Some? ==> forall k :: 0 <= k < r.value ==> members[k].0 != name
    ensures r.None? ==> forall k :: 0 <= k < |members| ==> members[k].0 != name
  {
    if members == [] then None
    else if members[0].0 == name then Some(0)
    else match IndexOf(members[1..], name)
      case None => None
      case Some(k) => Some(k + 1)
  }

  /** `json.contains(name)`: false for anything that is not an object. */
  predicate Contains(j: Json, name: string)
  {
    j.JObj? && IndexOf(j.members, name).Some?
  }

  /** `json.at(name)`: the member's value, which is part of `j`. */
  function At(j: Json, name: string): (r: Json)
    requires Contains(j, name)
    ensures r < j
  {
    j.members[IndexOf(j.members, name).value].1
  }

  /** The names of an object's members. */
  function MemberNames(members: seq<(string, Json)>): set<string>
  {
    set k | 0 <= k < |members| :: members[k].0
  }

  /** No two members share a name, as in the parser's objects. */
  predicate DistinctNames(members: seq<(string, Json)>)
  {
    forall k, k' :: 0 <= k < k' < |members| ==> members[k].0 != members[k'].0
  }

  /** With distinct names, no later member repeats the `k`th's name. */
  lemma DistinctLast(members: seq<(string, Json)>, k: nat)
    requires DistinctNames(members) && k < |members|
    ensures forall k' :: k < k' < |members| ==> members[k'].0 != members[k].0
  {
  }

  /** Lookups in a two-member object with distinct names. */
  lemma PairLookup(a: string, x: Json, b: string, y: Json)
    requires a != b
    ensures Contains(JObj([(a, x), (b, y)]), a) && At(JObj([(a, x), (b, y)]), a) == x
    ensures Contains(JObj([(a, x), (b, y)]), b) && At(JObj([(a, x), (b, y)]), b) == y
  {
  }
}
