/** The nullable values of the source (PHP `null`, C# `int?`, `decimal?`, a reference that may be `null`). */
module Options {
  datatype Option<T> = None | Some(value: T)
}
