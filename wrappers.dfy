/** The nullable return of the inspection API, as a datatype. */
module Wrappers {

  datatype Option<+T> = None | Some(value: T)

}
