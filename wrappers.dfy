/** Optional values, the model's stand-in for `T | null` and `T | undefined`. */
module Wrappers {

  datatype Option<+T> = None | Some(value: T)

  /** JavaScript truthiness of an optional string: null, undefined and "" are falsy. */
  predicate TruthyString(s: Option<string>) {
    s.Some? && s.value != ""
  }
}
