/** The few JavaScript value semantics the core relies on: values as
    `JSON.parse` produces them, truthiness (what `Boolean(v)`, `if (v)` and
    `||` look at), property access that throws on `null`/`undefined`, the
    optional-chaining access `v?.k`, and `String(v)`. */
module Js {
  import opened Text

  /** A JavaScript value of the kinds that JSON can carry, plus `undefined`.
      Numbers are integer-valued here. */
  datatype JsValue =
    | Undefined
    | Null
    | Bool(b: bool)
    | Number(n: int)
    | Str(s: string)
    | Array(items: seq<JsValue>)
    | Object(fields: map<string, JsValue>)
  {
    predicate IsNullish() {
      Undefined? || Null?
    }
  }

  /** How an expression completes: with a value, or by throwing (a TypeError
      in every place this model uses it). */
  datatype Completion<+T> = Normal(value: T) | Throw {

    predicate IsFailure() {
      Throw?
    }

    function PropagateFailure<U>(): Completion<U>
      requires Throw?
    {
      Throw
    }

    function Extract(): T
      requires Normal?
    {
      value
    }
  }

  /** `Boolean(v)`: false exactly for `undefined`, `null`, `false`, `0` and `""`. */
  predicate Truthy(v: JsValue)
    ensures !Truthy(v) <==> v == Undefined || v == Null || v == Bool(false) || v == Number(0) || v == Str("")
  {
    match v
    case Undefined => false
    case Null => false
    case Bool(b) => b
    case Number(n) => n != 0
    case Str(s) => s != ""
    case Array(_) => true
    case Object(_) => true
  }

  /** `a || b`: `a` when it is truthy, otherwise `b`. */
  function Or(a: JsValue, b: JsValue): (r: JsValue)
    ensures Truthy(r) <==> Truthy(a) || Truthy(b)
    ensures r == a || r == b
  {
    if Truthy(a) then a else b
  }

  /** `v.key`: throws on `null` and `undefined`; an own field of an object;
      `undefined` for any other key or kind of value. */
  function Get(v: JsValue, key: string): (r: Completion<JsValue>)
    ensures r.Throw? <==> v.IsNullish()
    ensures v.Object? && key in v.fields ==> r == Normal(v.fields[key])
  {
    match v
    case Undefined => Throw
    case Null => Throw
    case Object(fields) => Normal(if key in fields then fields[key] else Undefined)
    case _ => Normal(Undefined)
  }

  /** `v?.key`: `undefined` on `null` and `undefined`, otherwise `v.key`. */
  function OptionalGet(v: JsValue, key: string): (r: JsValue)
    ensures !v.IsNullish() ==> Get(v, key) == Normal(r)
    ensures v.IsNullish() ==> r == Undefined
  {
    match v
    case Object(fields) => if key in fields then fields[key] else Undefined
    case _ => Undefined
  }

  /** The elements of an array joined by `,`, each as `String` converts it,
      with `null` and `undefined` as the empty string. */
  function JoinElements(items: seq<JsValue>): string
    decreases items
  {
    if items == [] then ""
    else
      var head := if items[0].IsNullish() then "" else ToJsString(items[0]);
      if |items| == 1 then head else head + "," + JoinElements(items[1..])
  }

  /** `String(v)`. */
  function ToJsString(v: JsValue): (r: string)
    ensures v.Str? ==> r == v.s
    decreases v
  {
    match v
    case Undefined => "undefined"
    case Null => "null"
    case Bool(b) => if b then "true" else "false"
    case Number(n) => IntToString(n)
    case Str(s) => s
    case Array(items) => JoinElements(items)
    case Object(_) => "[object Object]"
  }
}
