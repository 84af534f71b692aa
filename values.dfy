/** JavaScript values as the account layer receives and stores them.

    The account operations take destructured JavaScript arguments that may be
    missing (`undefined`), `null`, or of the wrong runtime type, so every
    argument the validators look at is a `Value`. Numbers are the integers the
    layer uses (ids, op codes, token kinds). */
module Values {

  datatype Option<+T> = None | Some(value: T)

  datatype Value =
    | Undefined
    | Null
    | Bool(b: bool)
    | Num(n: int)
    | Str(s: string)
    | Obj(fields: map<string, Value>)

  /** What a JavaScript `if (v)` makes of a value. */
  predicate Truthy(v: Value) {
    match v
    case Undefined => false
    case Null => false
    case Bool(b) => b
    case Num(n) => n != 0
    case Str(s) => s != ""
    case Obj(_) => true
  }
}
