/**
 * The JavaScript values that end up in an exported token tree: the primitives a
 * Figma variable can hold, `undefined` (a mode with no value), and plain objects
 * keyed by strings.
 */
module Json {

  datatype JsValue =
    | Undefined
    | Bool(b: bool)
    | Num(n: real)
    | Str(s: string)
    | Obj(props: map<string, JsValue>)

  /** The fields of one JavaScript object. */
  type Props = map<string, JsValue>

  /**
   * JavaScript truthiness, as used by `!tempCollection[key]`: `undefined`,
   * `false`, `0` and `""` are falsy; every object is truthy.
   */
  predicate Truthy(v: JsValue)
  {
    match v
    case Undefined => false
    case Bool(b) => b
    case Num(n) => n != 0.0
    case Str(s) => s != ""
    case Obj(_) => true
  }
}
