/** A value that may be missing */
module Wrappers {

  datatype Option<+T> = None | Some(value: T) {
    /** The value, or a default in its place */
    function Or(default: T): T {
      if Some? then value else default
    }
  }
}
