/** The payload-safe fault model: a code and machine coordinates, never payload text. */
module Faults {
  import opened Bytes

  datatype FaultCode =
    | InvalidUtf8
    | TabIndent
    | InvalidIndent
    | DepthJump
    | UnclosedQuote
    | InvalidEscape
    | UnclosedBracket
    | InvalidLength
    | UnclosedFieldGroup
    | EmptyField
    | DuplicateField
    | ContentAfterFieldsHeader
    | ContentAfterFieldGroup
    | WrongRowWidth
    | WrongArrayLength
    | MissingListItem
    | DuplicateKey
    | UnknownField
    | MissingField
    | TypeMismatch
    | Constraint
    | TrailingContent
    | ExpectedKey
    | DepthLimit
    | BlankLineInArray
    | MalformedHeader
    | Internal

  datatype Position = Position(line: nat, column: nat)

  datatype Fault = Fault(code: FaultCode, line: nat, column: Option<nat>, validation: bool)

  function SyntaxAt(code: FaultCode, at: Position): Fault {
    Fault(code, at.line, Some(at.column), false)
  }

  function ValidationAt(code: FaultCode, at: Position): Fault {
    Fault(code, at.line, Some(at.column), true)
  }

  datatype Result<+T> = Ok(value: T) | Err(fault: Fault) {
    predicate IsFailure() { Err? }

    function PropagateFailure<U>(): Result<U>
      requires Err?
    {
      Err(fault)
    }

    function Extract(): T
      requires Ok?
    {
      value
    }
  }
}
