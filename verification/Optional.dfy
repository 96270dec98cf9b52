/** The absent-or-present value used throughout the model (`std::optional`). */
module Optional {
  datatype Option<+T> = None | Some(value: T) {
    function GetOr(fallback: T): T {
      if Some? then value else fallback
    }
  }
}
