/** Values that may be absent: Python's `None`, JavaScript's `null`/`undefined`. */
module Common {

  datatype Option<T> = None | Some(value: T)
  {
    /** The carried value, or `default` when absent. */
    function GetOr(default: T): T
    {
      if Some? then value else default
    }
  }
}
