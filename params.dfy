/** Query-string parameters as the handlers see them: `searchParams.get(name)`
    is either a string or `null`. */
module Params {

  datatype Option<T> = None | Some(value: T)

  /** JavaScript truthiness of a `string | null`: present and not empty. */
  predicate Given(p: Option<string>) {
    p.Some? && p.value != ""
  }
}
