/** What several of the models share. */
module Common {

  /** A value that may be absent: Python's None, or a lookup that finds nothing. */
  datatype Option<+T> = None | Some(value: T)

  function Max(a: real, b: real): real { if a >= b then a else b }

  function Min(a: real, b: real): real { if a <= b then a else b }
}
