/** JSON-shaped JavaScript values as the handlers see them: request bodies
    parsed by the JSON body parser and records held in the in-memory tables.
    Numbers are modelled as integers (see README, "Left out"). */
module JsValues {

  datatype Value =
    | Undefined
    | Null
    | Bool(b: bool)
    | Num(n: int)
    | Str(s: string)
    | Arr(items: seq<Value>)
    | Obj(fields: map<string, Value>)

  /** A JavaScript object: its own properties by name. A property that is
      not in the map reads as `undefined`. */
  type Object = map<string, Value>

  /** Property read `o.key`. */
  function Field(o: Object, key: string): (v: Value)
    ensures key !in o ==> v == Undefined
    ensures key in o ==> v == o[key]
  {
    if key in o then o[key] else Undefined
  }

  /** JavaScript truthiness (`!v` is false exactly when `v` is truthy):
      `undefined`, `null`, `false`, `0` and `""` are falsy; every other
      value, including every array and object, is truthy. */
  predicate Truthy(v: Value)
  {
    match v
    case Undefined => false
    case Null => false
    case Bool(b) => b
    case Num(n) => n != 0
    case Str(s) => s != ""
    case Arr(_) => true
    case Obj(_) => true
  }

  /** The falsy values are exactly the five listed above. */
  lemma FalsyValues(v: Value)
    ensures !Truthy(v) <==> v in {Undefined, Null, Bool(false), Num(0), Str("")}
  {
  }
}
