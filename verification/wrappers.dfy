/** The nullable values of the scoreboard (`TeamId | null`, `'A' | 'B' | null`, a
    missing map entry) are modelled with this Option datatype. */
module Wrappers {

  datatype Option<+T> = None | Some(value: T) {

    /** Returns the value held in Some, or the default for None
        (the `x || fallback` and `x ?? fallback` idioms of JavaScript). */
    function GetOr(default: T): T {
      match this
      case Some(v) => v
      case None => default
    }
  }
}
