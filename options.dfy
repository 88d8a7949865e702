/** Optional values, standing for JavaScript fields that may be undefined. */
module Options {

  datatype Option<T> = None | Some(value: T) {

    /** The value if present, otherwise `default` (JavaScript's `x || default`
        for values that are never falsy when present). */
    function GetOr(default: T): T {
      if Some? then value else default
    }
  }

  /** JavaScript truthiness of an optional number: defined and non-zero. */
  predicate Truthy(n: Option<int>) {
    n.Some? && n.value != 0
  }
}
