/** Optional values and 64-bit words. */
module Basics {

  const U64: nat := 0x1_0000_0000_0000_0000

  type uint64 = x: nat | x < U64

  datatype Option<+T> = None | Some(value: T) {
    predicate IsFailure() { None? }
    function PropagateFailure<U>(): Option<U> requires None? { None }
    function Extract(): T requires Some? { value }
  }
}
