module Options {
  datatype Option<T> = None | Some(value: T)

  /** The bytes, or none. */
  function OrEmpty<T>(o: Option<seq<T>>): seq<T>
  {
    if o.Some? then o.value else []
  }
}
