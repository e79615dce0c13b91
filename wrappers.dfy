/** A value that may be absent: a `null` or `undefined` in the screen's state, or a date string
    that does not parse (JavaScript's `NaN` timestamp). */
module Wrappers {

  datatype Option<+T> = None | Some(value: T)
}
