/** The usual optional value, and allocations. */
module Wrappers {
  datatype Option<+T> = None | Some(value: T)

  /** An allocation; any may fail unless there is enough memory. */
  method Allocate(enough: bool) returns (ok: bool)
    ensures enough ==> ok
  {
    ok := *;
    ok := ok || enough;
  }
}
