/**
 Java's `null` and its unchecked exceptions, as values.
 */
module Options {

  /** A Java reference that may be `null`. */
  datatype Option<+T> = None | Some(value: T)

  /** The exceptions the modelled code can let escape. */
  datatype JavaException =
    | NumberFormatException       // Long.parseLong on a malformed field
    | IndexOutOfBoundsException   // indexing past the end of a split or a list

  /** The outcome of a Java call: either it returned a value or it threw. */
  datatype Outcome<+T> = Returned(value: T) | Thrown(error: JavaException)
}
