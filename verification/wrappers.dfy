/** The optional value used for the workspace slot "pins" (absent or present)
    and for the controller's active editor (none or one). */
module Wrappers {

  datatype Option<+T> = None | Some(value: T) {

    /** The held value, or `default` when there is none (an absent slot reads as `default`). */
    function GetOr(default: T): T {
      match this
      case Some(v) => v
      case None => default
    }
  }
}
