/** The optional-value wrapper shared by every module of the model. */
module Opt {

  /** A value that may be missing: a storage key with nothing under it, or a
      display text that an operation leaves untouched. */
  datatype Option<+T> = None | Some(value: T) {

    /** The wrapped value, or `default` when there is none. */
    function GetOr(default: T): T {
      match this
      case Some(v) => v
      case None => default
    }
  }
}
