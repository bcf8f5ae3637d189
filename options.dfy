/** The optional value used wherever the source tests a field or a result against
    `null` / `undefined` (or defaults it with `||`). */
module Options {

  datatype Option<+T> = None | Some(value: T) {

    /** The value if present, otherwise the given default (the `x || d` idiom). */
    function GetOr(default: T): (v: T) {
      match this
      case Some(v) => v
      case None => default
    }
  }
}
