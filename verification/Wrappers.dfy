/** Small definitions shared by all modules. */
module Wrappers {
  /** An optional value, in place of the NULL pointers and -1 results of C. */
  datatype Option<+T> = None | Some(value: T)

  function Min(a: nat, b: nat): nat {
    if a < b then a else b
  }
}
