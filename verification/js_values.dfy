/**
 * The JavaScript values that `update` receives as untyped arguments and that
 * user callbacks return. Only the distinctions the migrator looks at are kept:
 * whether `typeof v === 'function'`, whether `v` is nullish (what `?.` and `??`
 * test), and whether `v` is truthy (what `if (v)` tests).
 */
module JsValues {

  datatype JsValue =
    | Undefined
    | Null
    | Bool(value: bool)
      /** A function object; `id` names it, its behaviour is given separately. */
    | Function(id: nat)
      /** Any other value (object, string, number, ...), with its truthiness. */
    | Data(id: nat, truthy: bool)

  /** `typeof v === 'function'`; note that `typeof null` is `'object'`. */
  predicate IsCallable(v: JsValue) {
    v.Function?
  }

  /** `v === undefined || v === null`: the values on which `?.` short-circuits and `??` falls back. */
  predicate IsNullish(v: JsValue) {
    v.Undefined? || v.Null?
  }

  /** JavaScript truthiness. */
  predicate Truthy(v: JsValue) {
    match v
    case Undefined => false
    case Null => false
    case Bool(b) => b
    case Function(_) => true
    case Data(_, t) => t
  }

  /** Element `i` of an argument list under array destructuring: `undefined` past its end. */
  function ArgAt(args: seq<JsValue>, i: nat): (v: JsValue)
    ensures i >= |args| ==> v == Undefined
    ensures i < |args| ==> v == args[i]
  {
    if i < |args| then args[i] else Undefined
  }
}
