/** The exceptions the modelled Java code throws, as values an `Err` result carries. */
module Exceptions {
  datatype Exception =
    | NullPointer(message: string)
    | IllegalArgument(message: string)
    | IllegalState(message: string)
      /** A `TrinoException`: its error code's name and its message. */
    | Trino(errorCode: string, message: string)
      /**
       * An `AccessDeniedException`, as the static deny method for `operation` raises it: the
       * objects named in its message, in order, and the columns it names, if any.
       */
    | AccessDenied(operation: string, objects: seq<string>, columns: set<string>)
      /** A `ClassCastException` from a cast to the named class. */
    | ClassCast(targetClass: string)
      /** A `NumberFormatException` from parsing the given text. */
    | NumberFormat(input: string)
      /** An `IndexOutOfBoundsException` for the given index. */
    | IndexOutOfBounds(index: int)
      /** An `ArithmeticException`, such as an integer division by zero. */
    | Arithmetic(message: string)
      /** An `AssertionError` from a failed `assert` statement, when assertions are enabled. */
    | AssertionFailure
}
