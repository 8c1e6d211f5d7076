/** An optional value: `None` stands for "absent" or, for a request that the
    handler abandons with an exception, "no result". */
module Options {
  datatype Option<T> = None | Some(value: T)
  {
    /** The value when there is one, `default` otherwise. */
    function GetOr(default: T): (r: T)
      ensures this.Some? ==> r == value
      ensures this.None? ==> r == default
    {
      match this
      case Some(v) => v
      case None => default
    }
  }
}
