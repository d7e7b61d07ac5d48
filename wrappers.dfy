/** The optional value the simulator returns for out-of-range lattice coordinates. */
module Wrappers {
  datatype Option<+T> = None | Some(value: T) {
    /** `Option::unwrap_or`: the carried value, or `default` when there is none. */
    function GetOr(default: T): (r: T)
      ensures Some? ==> r == value
      ensures None? ==> r == default
    {
      match this
      case Some(v) => v
      case None => default
    }
  }
}
