/** Types that several models share. */
module Common {

  datatype Option<+T> = None | Some(value: T)

  /** How one call on the outside world ends. After `Crash` the process is gone: every
      caller returns at once, and only the disk survives. */
  datatype Outcome = Ok | Err | Crash
}
