/** A value that may be missing: JavaScript's `null` / `undefined`. */
module Optional {

  datatype Option<+T> = None | Some(value: T) {

    /** `x ?? d` */
    function GetOr(d: T): T {
      match this
      case Some(v) => v
      case None => d
    }
  }
}
