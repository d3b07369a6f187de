/**
 * Small wrapper types shared by every generation of the interpreter.
 */
module Common {

  /** A value that may be missing (a Go `nil` pointer or a failed map lookup). */
  datatype Option<T> = None | Some(value: T)

  /**
   * The result of a Go computation that may panic: `Fault` carries the
   * panic message (a failed type assertion, an index out of range, an
   * explicit `panic` call).  Go panics are not recovered anywhere in the
   * program, so a fault always ends the computation.
   */
  datatype Outcome<T> = Ok(value: T) | Fault(msg: string)

  /** The panic of indexing a slice or string past its end. */
  const IndexOutOfRange := "runtime error: index out of range"

  /** The panic of slicing past the end (`s[1:]` of an empty slice). */
  const SliceOutOfRange := "runtime error: slice bounds out of range"
}
