/** The closed error taxonomy of libicli (error.h) and its rendering
    function `icli_error_to_string` (error.c). */
module Errors {
  import opened Wrappers

  /** The nine values of `icli_error_code`, in declaration order. */
  datatype ErrorCode =
    | Success
    | NullPointer
    | InvalidArgs
    | CommandNotFound
    | MemoryAllocation
    | CommandExists
    | InvalidCommand
    | IO
    | Unknown

  /** The integer value C assigns to each enumerator: `ICLI_SUCCESS` is 0
      and every later enumerator is one more than the previous one. */
  function Value(e: ErrorCode): (v: int)
    ensures 0 <= v <= 8
    ensures v == 0 <==> e == Success
  {
    match e
    case Success => 0
    case NullPointer => 1
    case InvalidArgs => 2
    case CommandNotFound => 3
    case MemoryAllocation => 4
    case CommandExists => 5
    case InvalidCommand => 6
    case IO => 7
    case Unknown => 8
  }

  /** The enumerator with a given integer value, if there is one. */
  function FromValue(v: int): (r: Option<ErrorCode>)
    ensures r.Some? <==> 0 <= v <= 8
    ensures r.Some? ==> Value(r.value) == v
  {
    if v == 0 then Some(Success)
    else if v == 1 then Some(NullPointer)
    else if v == 2 then Some(InvalidArgs)
    else if v == 3 then Some(CommandNotFound)
    else if v == 4 then Some(MemoryAllocation)
    else if v == 5 then Some(CommandExists)
    else if v == 6 then Some(InvalidCommand)
    else if v == 7 then Some(IO)
    else if v == 8 then Some(Unknown)
    else None
  }

  /** The enumeration is numbered without gaps or repeats: every code comes
      back from its own value. */
  lemma ValueRoundTrip(e: ErrorCode)
    ensures FromValue(Value(e)) == Some(e)
  {
  }

  /** `icli_error_to_string`: a total map from any integer handed in as an
      error code to a fixed message. The eight codes other than
      `ICLI_ERROR_UNKNOWN` have messages of their own; `ICLI_ERROR_UNKNOWN`
      and every value outside the enumeration share the fallback. */
  function ErrorToString(code: int): (s: string)
    ensures |s| > 0
    ensures s == "Unknown error" <==> !(0 <= code <= 7)
  {
    match code
    case 0 => "Success"
    case 1 => "Null pointer provided"
    case 2 => "Invalid arguments"
    case 3 => "Command not found"
    case 4 => "Memory allocation failed"
    case 5 => "Command already exists"
    case 6 => "Invalid command format"
    case 7 => "I/O error"
    case _ => "Unknown error"
  }

  /** The message of an enumerator. */
  function Message(e: ErrorCode): string {
    ErrorToString(Value(e))
  }

  /** Distinct enumerators render as distinct messages: the rendering is
      injective on the enumeration. */
  lemma MessageInjective(e1: ErrorCode, e2: ErrorCode)
    ensures Message(e1) == Message(e2) ==> e1 == e2
  {
  }

  /** The renderings quoted by the error messages of the engine. */
  lemma KnownMessages()
    ensures Message(Success) == "Success"
    ensures Message(CommandNotFound) == "Command not found"
    ensures Message(CommandExists) == "Command already exists"
    ensures Message(Unknown) == "Unknown error"
    ensures forall v :: v < 0 || v > 8 ==> ErrorToString(v) == Message(Unknown)
  {
  }
}
