/** The absent-or-present wrapper used across the model. */
module Wrappers {
  datatype Option<+T> = None | Some(value: T)
  {
    function GetOr(default: T): T
    {
      match this
      case Some(v) => v
      case None => default
    }
  }
}

/** Parsed JSON as the application receives it from `response.json()`. An
    object keeps its members in enumeration order. */
module Json {
  import opened Wrappers

  datatype Json =
    | JNull
    | JBool(b: bool)
    | JNum(n: real)
    | JStr(s: string)
    | JArr(items: seq<Json>)
    | JObj(fields: seq<Field>)

  datatype Field = Field(key: string, value: Json)

  /** JavaScript truthiness: `null`, `false`, `0` and `""` are falsy; arrays and objects are truthy. */
  predicate Truthy(j: Json)
  {
    match j
    case JNull => false
    case JBool(b) => b
    case JNum(n) => n != 0.0
    case JStr(s) => s != ""
    case JArr(_) => true
    case JObj(_) => true
  }

  /** `typeof v === 'object' || typeof v === 'string'` (`typeof null` is `'object'`). */
  predicate IsObjectOrString(j: Json)
  {
    j.JNull? || j.JStr? || j.JArr? || j.JObj?
  }

  /** Position of the first member named `key`. */
  function KeyIndex(fields: seq<Field>, key: string): (r: Option<nat>)
    ensures r.Some? ==> r.value < |fields| && fields[r.value].key == key
    ensures r.Some? ==> forall k :: 0 <= k < r.value ==> fields[k].key != key
    ensures r.None? ==> forall k :: 0 <= k < |fields| ==> fields[k].key != key
  {
    if fields == [] then None
    else if fields[0].key == key then Some(0)
    else match KeyIndex(fields[1..], key)
         case Some(i) => Some(i + 1)
         case None => None
  }

  /** Member `i` is the first one named `key`. */
  ghost predicate FirstMember(fields: seq<Field>, key: string, i: int)
  {
    0 <= i < |fields| && fields[i].key == key && forall m :: 0 <= m < i ==> fields[m].key != key
  }

  /** Property access `v.key` on a non-null value: a member of an object, `undefined`
      (here `JNull`) for a missing member or for any other kind of value. */
  function Get(j: Json, key: string): (r: Json)
    ensures r != JNull ==> j.JObj? && exists i :: FirstMember(j.fields, key, i) && j.fields[i].value == r
    ensures j.JObj? ==> forall i :: FirstMember(j.fields, key, i) ==> r == j.fields[i].value
  {
    match j
    case JObj(fields) =>
      (match KeyIndex(fields, key)
       case Some(i) => fields[i].value
       case None => JNull)
    case _ => JNull
  }

  /** `a || b || ...`: the first truthy value, or the last one when none is truthy. */
  function FirstTruthy(vs: seq<Json>): (r: Json)
    requires vs != []
    ensures Truthy(r) <==> exists k :: 0 <= k < |vs| && Truthy(vs[k])
    ensures Truthy(r) ==> exists k :: 0 <= k < |vs| && vs[k] == r
                                       && forall m :: 0 <= m < k ==> !Truthy(vs[m])
  {
    if |vs| == 1 || Truthy(vs[0]) then vs[0]
    else
      var r := FirstTruthy(vs[1..]);
      assert forall k :: 1 <= k < |vs| ==> vs[k] == vs[1..][k - 1];
      r
  }

  /** Operand `k` is the first truthy one of `vs`. */
  ghost predicate FirstTruthyAt(vs: seq<Json>, k: int)
  {
    0 <= k < |vs| && Truthy(vs[k]) && forall m :: 0 <= m < k ==> !Truthy(vs[m])
  }

  /** The chain's value is its first truthy operand. */
  lemma FirstTruthyIs(vs: seq<Json>, k: int)
    requires FirstTruthyAt(vs, k)
    ensures FirstTruthy(vs) == vs[k]
  {
  }

  /** The text of a truthy string value; any other value counts as absent. */
  function TruthyText(j: Json): Option<string>
  {
    if j.JStr? && j.s != "" then Some(j.s) else None
  }
}
