/** A value that may be absent, and what a cursor makes of a reader that may fail. */
module Options {
  datatype Option<+T> = None | Some(value: T)

  /** The cursor's result and the input it leaves are what the reading function says. */
  ghost predicate Agrees<T, S>(spec: Option<(T, S)>, got: Option<T>, rest: S) {
    match spec
    case None => got.None?
    case Some((v, after)) => got == Some(v) && rest == after
  }
}
