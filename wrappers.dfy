/** The optional-value datatype shared by the modules of this project. */
module Wrappers {

  /** `None` where the JavaScript code sees `null` (no regex match, a failed request). */
  datatype Option<+T> = None | Some(value: T)
}
