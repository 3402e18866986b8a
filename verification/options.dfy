/** The optional value used where the Kotlin code works with a nullable (`T?`). */
module Options {

  datatype Option<+T> = None | Some(value: T) {

    /** The value if present, otherwise `default` (Kotlin's `?:`). */
    function GetOr(default: T): (r: T)
      ensures Some? ==> r == value
      ensures None? ==> r == default
    {
      match this
      case Some(v) => v
      case None => default
    }
  }
}
