/** Failure values of the assembler.

    The assembler reports every failure by printing a message and ending the
    process. Here a failure is a value that keeps the kind of the failure and,
    where the message names them, the source line or the label. Python
    exceptions that escape the assembler (a malformed numeral passed to `int`,
    an index past the end of a list) are failures of their own kinds.
 */
module Failures {

  datatype Failure =
    | InstructionError(line: nat)  // wrong operand or operand count for an instruction
    | LabelNotFound(name: string)  // a referenced label has no binding
    | LabelInUse(name: string)     // a label is defined a second time
    | ValueError                   // `int()` of a string that is not a numeral
    | IndexError                   // index past the end of an operand list, a word list or the image

  datatype Option<+T> = None | Some(value: T)

  /** The outcome of an assembler step: a value, or the failure that ended the run. */
  datatype Result<+T> = Ok(value: T) | Fail(failure: Failure) {

    predicate IsFailure() {
      Fail?
    }

    function PropagateFailure<U>(): Result<U>
      requires Fail?
    {
      Fail(failure)
    }

    function Extract(): T
      requires Ok?
    {
      value
    }
  }

  /** The outcome of a check that produces no value. */
  datatype Outcome = Pass | Stop(failure: Failure) {

    predicate IsFailure() {
      Stop?
    }

    function PropagateFailure<U>(): Result<U>
      requires Stop?
    {
      Fail(failure)
    }
  }
}
