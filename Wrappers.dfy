/** An optional value. In this model `None` stands for a key that is absent from a
    JavaScript object, so that object spread (`{...a, ...b}`) can be stated field by field. */
module Wrappers {

  datatype Option<+T> = None | Some(value: T) {

    /** The value if present, `default` otherwise. */
    function GetOr(default: T): T {
      match this
      case Some(v) => v
      case None => default
    }
  }

  /** One key of `{...base, ...over}`: the later object's key wins when it is present. */
  function Overlay<T>(base: Option<T>, over: Option<T>): Option<T> {
    if over.Some? then over else base
  }

  /** JavaScript truthiness of an optional boolean key: an absent key is falsy. */
  predicate Truthy(b: Option<bool>) {
    b == Some(true)
  }
}
