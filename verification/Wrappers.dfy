/** The stock optional value, used where the source has `undefined`, `null` or `nil`. */
module Wrappers {
  datatype Option<+T> = None | Some(value: T) {
    function GetOr(default: T): T {
      if this.Some? then this.value else default
    }
  }
}
