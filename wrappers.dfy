/** The optional value used where the Python code returns `None` or a regex match may fail. */
module Wrappers {

  datatype Option<+T> = None | Some(value: T)
}
