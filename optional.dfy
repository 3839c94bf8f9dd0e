/** Optional values, standing in for Python's `None` and for absent dictionary keys. */
module Optional {

  datatype Option<+T> = None | Some(value: T)

  /** Python's truth test on an optional string: `None` and `""` are false. */
  predicate Truthy(s: Option<string>)
  {
    s.Some? && s.value != ""
  }

  /** Python's `x or y` on optional strings. */
  function Or(x: Option<string>, y: Option<string>): Option<string>
  {
    if Truthy(x) then x else y
  }
}
