/** The command record of libicli (command.h, command.c) and the values a
    command's behaviour works with: the tokens of the line, the engine it is
    handed as context, and what it returns. */
module Commands {
  import opened Wrappers
  import opened Errors
  import opened Utils

  /** The `execute` function pointer of a command. The three sample
      behaviours are modelled in full; any other function is an external
      behaviour known only by an identifier. `BoundVersion` is the version
      behaviour with its version string attached (see CreateBoundVersionCommand
      in SampleCommands). */
  datatype Execute =
    | Help
    | Echo
    | Version
    | BoundVersion(version: CString)
    | External(id: nat)

  /** `icli_command_t`: a name, an optional description and a behaviour. */
  datatype Command = Command(name: CString, description: Option<CString>, execute: Execute)

  /** The opaque `void*` context an engine is created with. */
  datatype Context = NoContext | Handle(id: nat)

  /** What a command sees of the engine it is handed as context: the prompt,
      the exit keyword, the user context and the registered commands, most
      recently registered first. */
  datatype EngineState = EngineState(
    prompt: CString,
    exitCommand: CString,
    context: Context,
    commands: seq<Command>)

  /** What one invocation of a behaviour produces: its return value (0 on
      success), the error code it stored, and the text it printed. */
  datatype Outcome = Outcome(status: int, err: ErrorCode, out: string)

  /** The behaviours the model does not interpret, as a function of the
      behaviour, the full token list and the engine handed as context. */
  type Oracle = (Execute, seq<string>, EngineState) -> Outcome

  /** `icli_command_create`. A missing name or execute function is refused
      with `ICLI_ERROR_NULL_POINTER`; otherwise the new command holds the
      given name (an empty one included), the given description or none,
      and the given behaviour, and the error is `ICLI_SUCCESS`. */
  function CommandCreate(name: Option<CString>, description: Option<CString>, execute: Option<Execute>)
    : (r: Result<Command, ErrorCode>)
    ensures r.Err? <==> name.None? || execute.None?
    ensures r.Err? ==> r.error == NullPointer
    ensures r.Ok? ==> r.value.name == name.value
                      && r.value.description == description
                      && r.value.execute == execute.value
  {
    if name.None? || execute.None? then Err(NullPointer)
    else Ok(Command(name.value, description, execute.value))
  }
}
