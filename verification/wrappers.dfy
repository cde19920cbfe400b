/** The optional-value datatype used wherever the source returns `None`
    (a dictionary miss, an absent message, an absent sender). */
module Wrappers {

  datatype Option<+T> = None | Some(value: T)
}
