/** The optional value used wherever the client holds `null` or a value that may be missing. */
module Wrappers {

  datatype Option<+T> = None | Some(value: T)

  /** JavaScript truthiness of an optional numeric id: `null`, `undefined` and `0` are falsy. */
  predicate IsTruthyId(o: Option<int>) {
    o.Some? && o.value != 0
  }
}
