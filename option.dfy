/** The optional value used wherever the JavaScript source holds `null`. */
module Opt {
  datatype Option<+T> = None | Some(value: T)
}
