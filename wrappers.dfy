/** The option type used for JavaScript values that may be absent: a `null`
    selection, or the `NaN` that `parseInt` returns when there are no digits. */
module Wrappers {

  datatype Option<+T> = None | Some(value: T)

}
