/** Optional values, and the ways a database statement can end. */
module Options {
  datatype Option<+T> = None | Some(value: T)

  /** Normally, or with an error reported before or after the statement took effect. */
  datatype Fault = NoFault | FailsBefore | FailsAfter
}
