/** The conventional optional value, used for map lookups, JavaScript's
    `undefined`/`null` and `NaN` results. */
module Wrappers {
  datatype Option<+T> = None | Some(value: T)
}
