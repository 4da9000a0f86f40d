/** Optional values: a spreadsheet cell that may be empty (`NaN` to pandas), and the
    outcome of a regular-expression search. */
module Wrappers {

  datatype Option<+T> = None | Some(value: T)
}
