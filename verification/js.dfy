/** The few JavaScript values the handlers pass around: JSON-serialisable data,
    values thrown by collaborators, and the outcome of a call that may throw. */
module Js {

  /** A JSON-serialisable value (numbers restricted to integers). */
  datatype Json =
    | Null
    | Bool(b: bool)
    | Num(n: int)
    | Str(s: string)
    | Arr(items: seq<Json>)
    | Obj(fields: map<string, Json>)

  /** A thrown value, as far as the handlers look at it: either a plain object
      (lodash `isPlainObject` holds) or anything else, seen through `String(error)`. */
  datatype Thrown =
    | PlainObject(fields: map<string, Json>)
    | Other(asString: string)

  /** The outcome of a call (or an awaited promise) that may throw. */
  datatype Outcome<+T> = Done(value: T) | Threw(error: Thrown)
}
