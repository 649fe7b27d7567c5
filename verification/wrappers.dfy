/** Optional values, standing in for the `undefined` / `null` of the TypeScript code. */
module Wrappers {

  datatype Option<+T> = None | Some(value: T) {

    /** A parameter's value, falling back to `fallback` when the caller left it out. */
    function ValueOr(fallback: T): T {
      if Some? then value else fallback
    }
  }
}
