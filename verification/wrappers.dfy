/** Failure-carrying datatypes shared by every module of the model. */
module Wrappers {

  /** An optional value; `None` also stands for Python's `None`. */
  datatype Option<+T> = None | Some(value: T)

  /** The Python exceptions the GKG per-line pipeline can raise. */
  datatype Exc =
    | IndexError      // a list index or `codes[code_i]` out of range
    | ValueError      // `gcode, val = el.split(':')` without exactly two parts, or a bad timestamp
    | TypeError       // `Loc_Item(*parts)` given fewer than seven parts
    | AttributeError  // `re.match(...)` returned None and `.group` was called on it

  /** Either a value or the exception that interrupted the computation. */
  datatype Result<+T> = Ok(value: T) | Err(error: Exc)
}
