/**
 * The shape of the loosely typed Python values that flow through the pipeline:
 * `None`, a number, a string, or a dictionary whose items keep insertion order.
 */
module Values {

  import opened Outcome

  datatype Value =
    | Null
    | Num(n: real)
    | Text(s: string)
    | Dict(items: seq<(string, Value)>)

  /** Python truthiness (`not v` is false): `None`, `0`, `""` and `{}` are falsy. */
  predicate Truthy(v: Value)
  {
    match v
    case Null => false
    case Num(n) => n != 0.0
    case Text(s) => s != ""
    case Dict(items) => items != []
  }

  /** `d.get(k)` on the items of a dictionary: the value stored under the first item with key `k`. */
  function Get(items: seq<(string, Value)>, k: string): (r: Option<Value>)
    ensures r.None? <==> forall i | 0 <= i < |items| :: items[i].0 != k
    ensures r.Some? ==> exists i | 0 <= i < |items| :: items[i] == (k, r.value)
  {
    if items == [] then None
    else if items[0].0 == k then Some(items[0].1)
    else Get(items[1..], k)
  }
}
