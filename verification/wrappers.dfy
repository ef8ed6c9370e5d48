/** Optional values, standing for a dictionary key that may be absent. */
module Wrappers {

  datatype Option<+T> = None | Some(value: T) {

    /** The value if present, otherwise the given default (Python's `dict.get(key, default)`). */
    function GetOr(default: T): T {
      match this
      case Some(v) => v
      case None => default
    }
  }

  /** Python truthiness of an optional text field: absent and "" are both falsy. */
  predicate TextGiven(o: Option<string>) {
    o.Some? && o.value != ""
  }

  /** Python truthiness of an optional integer field: absent and 0 are both falsy. */
  predicate IntGiven(o: Option<int>) {
    o.Some? && o.value != 0
  }
}
