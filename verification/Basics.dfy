/** A value that may be absent, and the smaller of two amounts. */
module Basics {

  datatype Option<T> = None | Some(value: T)

  function Min(x: real, y: real): (r: real)
    ensures r <= x && r <= y && (r == x || r == y)
  {
    if x <= y then x else y
  }
}
