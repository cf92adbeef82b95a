/** An optional value: the harness's `X | None`. */
module Options {
  datatype Option<+T> = None | Some(value: T) {
    function Or(default: T): T {
      match this
      case Some(v) => v
      case None => default
    }
  }
}
