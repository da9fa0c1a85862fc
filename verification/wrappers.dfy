/** The optional value used wherever the Python code reads a value that may be missing
    (`dict.get` without a default, a parse that may fail, a lookup that may miss). */
module Wrappers {

  datatype Option<+T> = None | Some(value: T) {

    /** Returns the value in Some, or `default` when None (Python's `d.get(k, default)`). */
    function GetOr(default: T): T {
      match this
      case Some(v) => v
      case None => default
    }
  }
}
