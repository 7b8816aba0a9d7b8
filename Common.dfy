/** The optional value shared by every module of the model. */
module Common {

  /** A JavaScript value that may be `undefined`/`null` (`None`) or present (`Some`). */
  datatype Option<+T> = None | Some(value: T) {
    function GetOr(default: T): T {
      match this
      case Some(v) => v
      case None => default
    }
  }
}
