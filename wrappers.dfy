/** Optional values, and the JavaScript truthiness tests the extension applies to them. */
module Wrappers {

  /** A value that may be absent: `null`/`undefined` in the extension's records. */
  datatype Option<+T> = None | Some(value: T) {
    function GetOr(default: T): T {
      match this
      case Some(v) => v
      case None => default
    }
  }

  /** `if (x)` on a nullable number: false for null and for 0. */
  predicate TruthyInt(o: Option<int>) {
    o.Some? && o.value != 0
  }

  /** `if (x)` on an optional string: false for undefined and for "". */
  predicate TruthyString(o: Option<string>) {
    o.Some? && o.value != ""
  }
}
