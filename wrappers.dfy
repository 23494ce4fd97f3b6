/** The optional value used for the script's optional command-line arguments. */
module Wrappers {

  datatype Option<+T> = None | Some(value: T)
}
