/** JavaScript values as the HTTP handlers see them. */
module Js {

  /** A value that may be `undefined`. */
  datatype Option<T> = None | Some(value: T)

  /** A query-string parameter of an Express request: `undefined` or a string. */
  type Param = Option<string>

  /** JavaScript truthiness of a query parameter: `undefined` and `''` are falsy, every other string is truthy. */
  predicate Truthy(p: Param)
  {
    p.Some? && p.value != ""
  }
}
