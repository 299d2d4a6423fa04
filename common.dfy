/**
 * Values that stand in for Python's `None` and for the exceptions the
 * helper lets escape to its caller.
 */
module Common {

  datatype Option<+T> = None | Some(value: T)

  /**
   * The Python exceptions that escape from the modelled code. The `KeyError`
   * of a missing `default` section is `Config.NoSection`; the `KeyError` of an
   * instance without tags is caught and becomes `None`.
   */
  datatype Error =
    | IndexError             // a list index past the end
    | TypeError              // a list indexed with a string

  datatype Result<+T> = Ok(value: T) | Err(error: Error)
}
