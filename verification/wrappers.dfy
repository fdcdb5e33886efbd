/** The optional-value datatype shared by the codec interface and the store. */
module Wrappers {

  /** `None` stands for "the call raised", `Some(v)` for a normal return of `v`. */
  datatype Option<+T> = None | Some(value: T) {

    /** The carried value of `Some`; `default` stands in for `None`. */
    function GetOr(default: T): T
    {
      match this
      case Some(v) => v
      case None => default
    }
  }
}
