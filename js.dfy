/**
 * The JavaScript values the response shaping and `check` look at, with the
 * language's truthiness rule.
 */
module Js {
  import opened Common

  datatype Value =
    | Undefined
    | Null
    | Bool(b: bool)
    | Num(n: real)
    | NaN
    | Str(s: string)
    | Obj(fields: map<string, Value>)
    | Arr(items: seq<Value>)

  /** ToBoolean: false, 0, NaN, '', null and undefined are falsy; every object and array is truthy. */
  predicate Truthy(v: Value)
  {
    match v
    case Undefined => false
    case Null => false
    case Bool(b) => b
    case Num(n) => n != 0.0
    case NaN => false
    case Str(s) => s != ""
    case Obj(_) => true
    case Arr(_) => true
  }

  /** An ORM row as the services see it: the row object, or null when no row matched. */
  function RowValue(row: Option<map<string, Value>>): (v: Value)
    ensures Truthy(v) <==> row.Some?
  {
    match row
    case None => Null
    case Some(fields) => Obj(fields)
  }
}
