/** A value that may be absent. */
module Wrappers {

  datatype Option<+T> = None | Some(value: T)
}

/** A value, or an exception whose kind does not matter; and the widths that interval searches leave. */
module Partial {

  datatype Result<+T> = Ok(value: T) | Err

  /** A width halved n times. */
  function Halved(width: real, n: nat): real { if n == 0 then width else Halved(width, n - 1) / 2.0 }

  /** A width reduced to two thirds n times. */
  function TwoThirds(width: real, n: nat): real { if n == 0 then width else TwoThirds(width, n - 1) * 2.0 / 3.0 }
}
