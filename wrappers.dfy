/** An optional value, standing for TypeScript's `undefined`/`null` and optional fields. */
module Wrappers {

  datatype Option<+T> = None | Some(value: T)

  /** `x || ''` on a possibly missing string: the value, or the empty string. */
  function OrEmpty(o: Option<string>): (r: string)
    ensures o.Some? ==> r == o.value
    ensures o.None? ==> r == ""
  {
    match o
    case Some(s) => s
    case None => ""
  }
}
