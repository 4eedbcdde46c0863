/** The JavaScript values the request helpers inspect: option fields, query
    values and parsed credential files, with the truthiness test and the
    `String()` conversion the scripts rely on. Numbers are integers here. */
module JsValues {
  import opened Strings

  datatype Value =
    | Undefined
    | Null
    | Bool(b: bool)
    | Num(n: int)
    | Str(s: string)
    | List(items: seq<Value>)
      /** A plain object, as its own enumerable entries in order. */
    | Obj(entries: seq<(string, Value)>)

  /** `if (v)`: undefined, null, false, 0 and '' are falsy; every array and
      object is truthy, even an empty one. */
  predicate Truthy(v: Value) {
    match v
    case Undefined => false
    case Null => false
    case Bool(b) => b
    case Num(n) => n != 0
    case Str(s) => s != ""
    case List(_) => true
    case Obj(_) => true
  }

  /** `v == null`: undefined or null. */
  predicate Nullish(v: Value) {
    v.Undefined? || v.Null?
  }

  /** `String(v)`. An array joins its elements with ',' and writes undefined
      and null elements as ''. */
  function ToString(v: Value): string
    decreases v
  {
    match v
    case Undefined => "undefined"
    case Null => "null"
    case Bool(b) => if b then "true" else "false"
    case Num(n) => IntToString(n)
    case Str(s) => s
    case List(items) =>
      Join(seq(|items|, i requires 0 <= i < |items| =>
        assert items[i] in items;
        if Nullish(items[i]) then "" else ToString(items[i])), ",")
    case Obj(_) => "[object Object]"
  }

  /** `o[k]` on a plain object: the last entry with key `k`, or undefined. */
  function Get(o: Value, k: string): (r: Value)
    ensures o.Obj? && (forall j | 0 <= j < |o.entries| :: o.entries[j].0 != k) ==> r == Undefined
    decreases if o.Obj? then |o.entries| else 0
  {
    match o
    case Obj(es) =>
      if |es| == 0 then Undefined
      else if es[|es| - 1].0 == k then es[|es| - 1].1
      else
        var r := Get(Obj(es[..|es| - 1]), k);
        r
    case _ => Undefined
  }
}
