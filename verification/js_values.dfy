/** The run-time values a JavaScript function can receive, as far as
    `normalizeToString` tells them apart, and the small pieces of JavaScript
    semantics it relies on: `typeof`, truthiness and property reads. */
module JsValues {
  import opened Wrappers

  /** A JavaScript number: an IEEE double, kept as NaN, a signed infinity or a
      finite (real) value. Rounding to 64-bit floating point is not modelled. */
  datatype Number = NaN | Infinity(negative: bool) | Finite(value: real)

  /** One JavaScript value.
      `Obj` is a plain object with its own properties; `Arr` is an array
      (`Array.isArray` holds) with its elements and any named, non-index
      properties it carries; `Date` holds its time value in milliseconds, or
      `None` for an Invalid Date, and its own properties; `Func` names a
      function object by an identity, whose text conversion is up to the
      host, and carries its own properties. */
  datatype JsValue =
    | Null
    | Undefined
    | Str(s: string)
    | Num(n: Number)
    | Bool(b: bool)
    | Date(time: Option<int>, props: map<string, JsValue>)
    | Obj(props: map<string, JsValue>)
    | Arr(elems: seq<JsValue>, props: map<string, JsValue>)
    | Symbol(description: Option<string>)
    | BigInt(i: int)
    | Func(id: nat, props: map<string, JsValue>)

  /** What the `typeof` operator answers; note that `typeof null` is "object". */
  function TypeOf(v: JsValue): (t: string)
    ensures t in {"undefined", "object", "boolean", "number", "string", "symbol", "bigint", "function"}
    ensures t == "object" <==> v.Null? || v.Date? || v.Obj? || v.Arr?
  {
    match v
    case Null => "object"
    case Undefined => "undefined"
    case Str(_) => "string"
    case Num(_) => "number"
    case Bool(_) => "boolean"
    case Date(_, _) => "object"
    case Obj(_) => "object"
    case Arr(_, _) => "object"
    case Symbol(_) => "symbol"
    case BigInt(_) => "bigint"
    case Func(_, _) => "function"
  }

  /** JavaScript truthiness: false for null, undefined, false, NaN, 0, "" and 0n;
      true for every object, symbol and function. */
  predicate IsTruthy(v: JsValue) {
    match v
    case Null => false
    case Undefined => false
    case Bool(b) => b
    case Num(n) => !(n.NaN? || n == Finite(0.0))
    case Str(s) => s != ""
    case BigInt(i) => i != 0
    case _ => true
  }

  /** The kinds of value that carry their own properties. */
  predicate HasOwnProperties(v: JsValue) {
    v.Obj? || v.Arr? || v.Date? || v.Func?
  }

  /** The `in` operator for a non-index property name. */
  predicate HasProperty(v: JsValue, name: string) {
    HasOwnProperties(v) && name in v.props
  }

  /** Reading `v[name]` for a non-index property name; a missing property,
      and any property of a primitive, reads as `undefined`. */
  function Get(v: JsValue, name: string): (r: JsValue)
    ensures !HasProperty(v, name) ==> r == Undefined
    ensures HasProperty(v, name) ==> r == v.props[name]
  {
    if HasProperty(v, name) then v.props[name] else Undefined
  }

  /** The host conversions that this model does not define: the text of a
      finite number (`Number.prototype.toString`), the ISO-8601 text of a valid
      time value (`Date.prototype.toISOString`), `JSON.stringify` (`None` when
      it throws, as on a cyclic structure or a nested BigInt), and the text
      conversion of a function (`None` when it throws). */
  datatype Host = Host(
    finiteNumberText: real -> string,
    isoText: int -> string,
    jsonText: JsValue -> Option<string>,
    functionText: nat -> Option<string>)
}
