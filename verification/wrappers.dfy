/** The `number | undefined` of the running minima, as an option value. */
module Wrappers {

  datatype Option<+T> = None | Some(value: T) {

    /** The wrapped value, or `default` when there is none (the source's
        `if (minimumIndentation === undefined) minimumIndentation = 0`). */
    function GetOr(default: T): T {
      match this
      case Some(v) => v
      case None() => default
    }
  }
}
