/** Small failure-aware datatypes shared by every module of the model. */
module Wrappers {

  /** A reference that may be null, or a parse that may fail. */
  datatype Option<+T> = None | Some(value: T) {

    /** The wrapped value, or `default` when there is none. */
    function GetOr(default: T): T {
      match this
      case Some(v) => v
      case None => default
    }
  }

  /** How a C# operation ended: normally, or by an exception (a null dereference or an
      out-of-range index) escaping it. Both carry the state left behind, since the
      effects made before the exception are not rolled back. */
  datatype Completion<+S> = Normal(state: S) | Threw(state: S)
}
