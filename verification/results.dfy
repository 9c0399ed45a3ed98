/** Optional values and handler outcomes shared by every module of the model. */
module Results {

  /** An optional request field or nullable column: `None` plays JavaScript's
      `undefined` and SQL's NULL. */
  datatype Option<+T> = None | Some(value: T) {

    /** The present value, or `default` when absent. */
    function GetOr(default: T): T {
      match this
      case Some(v) => v
      case None => default
    }
  }

  /** The outcome of one request handler: the whole next state, or an error
      that leaves the store as it was. */
  datatype Result<+T, +E> = Ok(value: T) | Err(error: E)
}
