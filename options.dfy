/** Optional values: JavaScript's `null`/`undefined` results and the keys a patch may leave out. */
module Options {

  datatype Option<+T> = None | Some(value: T) {

    /** The carried value, or `default` when there is none (the `a ?? b` / spread-over idiom). */
    function GetOr(default: T): T {
      match this
      case Some(v) => v
      case None => default
    }
  }
}
