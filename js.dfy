/**
 * The few pieces of JavaScript value semantics the stores depend on:
 * truthiness (`if (x)`, `!x`, `x || d`) and property lookup on an object
 * literal used as a dictionary (`table[key]`).
 */
module Js {

  /** A dynamically typed JavaScript value, as far as the stores inspect it.
      Numbers are integral here; `NaN` is kept apart because it is falsy. */
  datatype JsValue =
    | Undefined
    | Null
    | Bool(b: bool)
    | Num(n: int)
    | NaN
    | Str(s: string)
    | Object

  /** JavaScript truthiness: `false`, `0`, `NaN`, `""`, `null` and `undefined` are falsy. */
  predicate Truthy(v: JsValue) {
    match v
    case Undefined => false
    case Null => false
    case NaN => false
    case Bool(b) => b
    case Num(n) => n != 0
    case Str(s) => s != ""
    case Object => true
  }

  /** Property names that every object literal inherits from `Object.prototype`.
      Reading one of them from a literal yields a function (or, for `__proto__`,
      the prototype object itself), which is truthy. */
  const PrototypeKeys: set<string> := {
    "constructor", "__proto__", "toString", "toLocaleString", "valueOf",
    "hasOwnProperty", "isPrototypeOf", "propertyIsEnumerable",
    "__defineGetter__", "__defineSetter__", "__lookupGetter__", "__lookupSetter__"
  }

  /** What `table[key] || fallback` evaluates to when `table` is an object
      literal whose own values are all truthy: the own value, an inherited
      prototype member, or the fallback. */
  datatype Looked<T> = Found(value: T) | Inherited(name: string)

  function LookupOr<T>(table: map<string, T>, key: string, fallback: T): (r: Looked<T>)
    ensures key in table ==> r == Found(table[key])
    ensures key !in table && key in PrototypeKeys ==> r == Inherited(key)
    ensures key !in table && key !in PrototypeKeys ==> r == Found(fallback)
  {
    if key in table then Found(table[key])
    else if key in PrototypeKeys then Inherited(key)
    else Found(fallback)
  }
}
