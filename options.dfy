/** An optional value. In this model `None` stands for JavaScript's `undefined`:
    a missing argument or a read past the end of a typed array. */
module Options {

  datatype Option<+T> = None | Some(value: T) {

    /** The wrapped value, or `default` when there is none. */
    function GetOr(default: T): T {
      match this
      case Some(v) => v
      case None => default
    }
  }
}
