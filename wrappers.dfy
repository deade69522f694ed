/** The Option type used wherever the modelled code returns `Option`, or
    a `Result` whose error carries no information the model needs. */
module Wrappers {

  datatype Option<+T> = None | Some(value: T) {

    function GetOr(default: T): T {
      match this
      case Some(v) => v
      case None => default
    }
  }
}
