/** A value that may be absent: TypeScript's `T | null`, and `NaN` where a number
    could not be read. */
module Wrappers {

  datatype Option<T> = None | Some(value: T)
}
