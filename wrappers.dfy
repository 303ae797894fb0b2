/** The optional-value wrapper used for the source's `field?: T` properties. */
module Wrappers {

  datatype Option<+T> = None | Some(value: T)
}
