/** The Some/None datatype used wherever `whois.py` stores `None`. */
module Wrappers {

  datatype Option<+T> = None | Some(value: T) {

    // The held value, falling back to `default` when there is none.
    function GetOr(default: T): T
    {
      match this
      case Some(v) => v
      case None => default
    }
  }
}
