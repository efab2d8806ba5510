/** The optional values the TypeScript code writes as `T | null` or `T | undefined`. */
module Options {

  datatype Option<T> = None | Some(value: T) {

    /** The value, or `default` when there is none (the `??` operator). */
    function GetOr(default: T): T {
      match this
      case Some(v) => v
      case None => default
    }
  }
}
