/** The interpreter engine of libicli (cli.c): the command registry kept
    by an `icli_t`, command lookup and enumeration, the processing of one
    input line, and the read-process loop `icli_run`.

    The engine's fields become the fields of class Engine. The registry,
    a singly linked list that `icli_register_command` prepends to, becomes
    the sequence `commands`, most recently registered first. Printed text
    is returned as a string; the input stream becomes a sequence of read
    events. */
module Cli {
  import opened Wrappers
  import opened Errors
  import opened Utils
  import opened Commands
  import opened SampleCommands

  // ---------------------------------------------------------------------
  // The registry as a value

  /** Some command in `cs` is called `name`. */
  predicate HasName(cs: seq<Command>, name: string) {
    exists k :: 0 <= k < |cs| && cs[k].name == name
  }

  /** No two commands in `cs` share a name. */
  predicate NamesDistinct(cs: seq<Command>) {
    forall i, j :: 0 <= i < j < |cs| ==> cs[i].name != cs[j].name
  }

  /** `find_command`: the first command, walking the list from its head,
      whose name equals `name` exactly. */
  function Lookup(cs: seq<Command>, name: string): (r: Option<Command>)
    ensures r.Some? <==> HasName(cs, name)
    ensures r.Some? ==> r.value in cs && r.value.name == name
    decreases |cs|
  {
    if cs == [] then None
    else if cs[0].name == name then Some(cs[0])
    else Lookup(cs[1..], name)
  }

  /** In a registry with distinct names, looking up the name of any
      registered command yields exactly that command. */
  lemma {:induction false} LookupFindsRegistered(cs: seq<Command>, i: int)
    requires NamesDistinct(cs)
    requires 0 <= i < |cs|
    ensures Lookup(cs, cs[i].name) == Some(cs[i])
    decreases |cs|
  {
    if i > 0 {
      assert cs[0].name != cs[i].name;
      assert cs[1..][i - 1] == cs[i];
      LookupFindsRegistered(cs[1..], i - 1);
    }
  }

  /** Adding a command whose name is new keeps the names distinct. */
  lemma PrependKeepsNamesDistinct(c: Command, cs: seq<Command>)
    requires NamesDistinct(cs)
    requires !HasName(cs, c.name)
    ensures NamesDistinct([c] + cs)
  {
    var s := [c] + cs;
    forall i, j | 0 <= i < j < |s|
      ensures s[i].name != s[j].name
    {
      if i == 0 {
        assert s[j] == cs[j - 1];
      } else {
        assert s[i] == cs[i - 1] && s[j] == cs[j - 1];
      }
    }
  }

  // ---------------------------------------------------------------------
  // Invoking a command and processing a line

  /** What invoking command `c` with tokens `argv` yields when the engine
      hands itself, in state `st`, as the context. Help, echo and the
      version behaviour with its string attached are modelled; every other
      behaviour, the as-written version behaviour included (it would read
      the engine as its version data), answers as the oracle says. */
  function Dispatch(st: EngineState, c: Command, argv: seq<string>, oracle: Oracle): Outcome {
    match c.execute
    case Help => HelpResult(argv, Some(st))
    case Echo => EchoResult(argv)
    case BoundVersion(v) => VersionResult(Some(VersionData(Some(v))))
    case Version => oracle(c.execute, argv, st)
    case External(_) => oracle(c.execute, argv, st)
  }

  /** What `icli_process_command` returns (0 to continue, 1 to exit), the
      error code it stores, and the text printed while it runs. */
  datatype Reply = Reply(result: int, err: ErrorCode, out: string)

  /** `icli_process_command` on an engine in state `st`. */
  function Process(st: EngineState, line: Option<CString>, oracle: Oracle): Reply {
    if line.None? then Reply(0, NullPointer, "")
    else
      var argv := Tokens(line.value);
      if argv == [] then Reply(0, Success, "")
      else if argv[0] == st.exitCommand then Reply(1, Success, "")
      else
        match Lookup(st.commands, argv[0])
        case None => Reply(0, CommandNotFound, "Command not found: " + argv[0] + "\n")
        case Some(c) =>
          var o := Dispatch(st, c, argv, oracle);
          if o.status != 0 then Reply(0, o.err, o.out + "Command failed: " + Message(o.err) + "\n")
          else Reply(0, Success, o.out)
  }

  /** An empty or all-white-space line is a no-op: no error, no output, no
      command invoked, and the loop goes on. */
  lemma ProcessBlankLine(st: EngineState, line: CString, oracle: Oracle)
    requires forall k :: 0 <= k < |line| ==> IsSpace(line[k])
    ensures Process(st, Some(line), oracle) == Reply(0, Success, "")
  {
    TokensEmptyIffBlank(line);
  }

  /** A line whose first token is the exit keyword ends the loop before any
      lookup, whatever is registered under that name, and whatever follows
      on the line. */
  lemma ProcessExitFirst(st: EngineState, line: CString, oracle: Oracle)
    requires Tokens(line) != [] && Tokens(line)[0] == st.exitCommand
    ensures Process(st, Some(line), oracle) == Reply(1, Success, "")
  {
  }

  /** Only the exit keyword ends the loop: every other line, a failing or
      unknown command included, continues it. */
  lemma ProcessContinuesOtherwise(st: EngineState, line: Option<CString>, oracle: Oracle)
    ensures var r := Process(st, line, oracle);
            (r.result == 1 <==> line.Some? && Tokens(line.value) != [] && Tokens(line.value)[0] == st.exitCommand) &&
            (r.result == 0 || r.result == 1)
  {
  }

  /** A first token that is neither the exit keyword nor a registered name
      is reported as `ICLI_ERROR_COMMAND_NOT_FOUND`, and nothing is
      invoked. */
  lemma ProcessUnknownCommand(st: EngineState, line: CString, oracle: Oracle)
    requires Tokens(line) != []
    requires Tokens(line)[0] != st.exitCommand
    requires !HasName(st.commands, Tokens(line)[0])
    ensures Process(st, Some(line), oracle)
            == Reply(0, CommandNotFound, "Command not found: " + Tokens(line)[0] + "\n")
  {
  }

  /** A registered first token invokes that command once, with the full
      token list (its own name first) and the engine as context. A failing
      command does not end the loop: its error code is passed on and its
      failure reported. */
  lemma ProcessInvokesCommand(st: EngineState, line: CString, oracle: Oracle, i: int)
    requires NamesDistinct(st.commands) && 0 <= i < |st.commands|
    requires Tokens(line) != []
    requires Tokens(line)[0] == st.commands[i].name != st.exitCommand
    ensures var o := Dispatch(st, st.commands[i], Tokens(line), oracle);
            var r := Process(st, Some(line), oracle);
            r.result == 0 &&
            (o.status == 0 ==> r == Reply(0, Success, o.out)) &&
            (o.status != 0 ==> r == Reply(0, o.err, o.out + "Command failed: " + Message(o.err) + "\n"))
  {
    LookupFindsRegistered(st.commands, i);
  }

  // ---------------------------------------------------------------------
  // The run loop as a value

  /** One outcome of reading a line with `fgets`: a line (with its newline,
      if one was read), a clean end of input, or a read failure. */
  datatype Event = Line(text: CString) | Eof | ReadError

  /** `s` without its last character if that is a newline. */
  function StripNewline(s: CString): (r: CString)
    ensures |r| == if |s| > 0 && s[|s| - 1] == '\n' then |s| - 1 else |s|
    ensures r == s[..|r|]
  {
    if |s| > 0 && s[|s| - 1] == '\n' then s[..|s| - 1] else s
  }

  /** The newline `fgets` keeps at the end of a line is removed, and
      nothing else. */
  lemma StripNewlineOnce(s: CString)
    ensures StripNewline(s + "\n") == s
  {
    assert (s + "\n")[..|s|] == s;
  }

  /** What `icli_run` returns and the text it prints. */
  datatype RunResult = RunResult(err: ErrorCode, out: string)

  /** The same run with `text` printed before it. */
  function Prepend(text: string, r: RunResult): RunResult {
    RunResult(r.err, text + r.out)
  }

  /** How the engine in state `st` handles one line. */
  function LineProcessor(st: EngineState, oracle: Oracle): CString -> Reply {
    (line: CString) => Process(st, Some(line), oracle)
  }

  /** `icli_run` reading `events` with prompt `prompt`, each non-empty line
      handled by `process`; running out of events is the end of input. Each round prints the prompt and a blank,
      then reads: end of input stops with `ICLI_SUCCESS`, a read failure
      stops with `ICLI_ERROR_IO`, and a line loses one trailing newline, is
      skipped when nothing is left, and is otherwise processed; the exit
      keyword stops with `ICLI_SUCCESS`. */
  function RunSpec(prompt: CString, events: seq<Event>, process: CString -> Reply): RunResult
    decreases |events|
  {
    var shown := prompt + " ";
    if events == [] || events[0].Eof? then RunResult(Success, shown)
    else if events[0].ReadError? then RunResult(IO, shown)
    else
      var line := StripNewline(events[0].text);
      if line == "" then Prepend(shown, RunSpec(prompt, events[1..], process))
      else
        var r := process(line);
        if r.result != 0 then RunResult(Success, shown + r.out)
        else Prepend(shown + r.out, RunSpec(prompt, events[1..], process))
  }

  /** The run loop reports success or an I/O error and nothing else: the
      errors of the commands it ran are not passed on. */
  lemma {:induction false} RunReportsSuccessOrIO(prompt: CString, events: seq<Event>, process: CString -> Reply)
    ensures RunSpec(prompt, events, process).err in {Success, IO}
    decreases |events|
  {
    if events != [] && events[0].Line? {
      RunReportsSuccessOrIO(prompt, events[1..], process);
    }
  }

  /** Without a read failure the run loop succeeds, however many commands
      failed or were unknown. */
  lemma {:induction false} RunWithoutReadErrorSucceeds(prompt: CString, events: seq<Event>, process: CString -> Reply)
    requires forall k :: 0 <= k < |events| ==> !events[k].ReadError?
    ensures RunSpec(prompt, events, process).err == Success
    decreases |events|
  {
    if events != [] && events[0].Line? {
      assert forall k :: 0 <= k < |events[1..]| ==> events[1..][k] == events[k + 1];
      RunWithoutReadErrorSucceeds(prompt, events[1..], process);
    }
  }

  /** A read failure reached before the end of the session is reported as
      `ICLI_ERROR_IO`. */
  lemma RunReadErrorFirst(prompt: CString, rest: seq<Event>, process: CString -> Reply)
    ensures RunSpec(prompt, [ReadError] + rest, process) == RunResult(IO, prompt + " ")
  {
  }

  /** Once the exit keyword has been read nothing more is read: what follows
      in the input makes no difference. */
  lemma RunStopsAtExit(prompt: CString, text: CString, rest1: seq<Event>, rest2: seq<Event>, process: CString -> Reply)
    requires StripNewline(text) != ""
    requires process(StripNewline(text)).result != 0
    ensures RunSpec(prompt, [Line(text)] + rest1, process) == RunSpec(prompt, [Line(text)] + rest2, process)
  {
  }

  /** An empty line (after its newline is removed) only shows the prompt
      again: nothing is processed for it. */
  lemma RunSkipsEmptyLine(prompt: CString, text: CString, rest: seq<Event>, process: CString -> Reply)
    requires StripNewline(text) == ""
    ensures RunSpec(prompt, [Line(text)] + rest, process)
            == Prepend(prompt + " ", RunSpec(prompt, rest, process))
  {
    assert ([Line(text)] + rest)[1..] == rest;
  }

  /** The run loop stops where no line could be read: at a read error it
      reports IO, at the end of the input success, after showing the
      prompt. */
  lemma RunStop(prompt: CString, events: seq<Event>, i: int, process: CString -> Reply)
    requires 0 <= i <= |events|
    requires i < |events| ==> !events[i].Line?
    ensures RunSpec(prompt, events[i..], process)
            == RunResult(if i < |events| && events[i].ReadError? then IO else Success, prompt + " ")
  {
    if i < |events| {
      assert events[i..][0] == events[i];
    }
  }

  /** Printing `before` and then a final round that printed `shown`. */
  lemma PrependStop(before: string, shown: string, err: ErrorCode, total: RunResult, here: RunResult)
    requires total == Prepend(before, here)
    requires here == RunResult(err, shown)
    ensures total == RunResult(err, before + shown)
  {
  }

  /** One round of the run loop on the line at position `i`, given what
      processing it replies. */
  lemma RunStep(prompt: CString, events: seq<Event>, i: int, process: CString -> Reply, reply: Reply)
    requires 0 <= i < |events| && events[i].Line?
    requires StripNewline(events[i].text) == "" ==> reply == Reply(0, Success, "")
    requires StripNewline(events[i].text) != "" ==> reply == process(StripNewline(events[i].text))
    ensures reply.result != 0 ==>
              RunSpec(prompt, events[i..], process) == RunResult(Success, prompt + " " + reply.out)
    ensures reply.result == 0 ==>
              RunSpec(prompt, events[i..], process) == Prepend(prompt + " " + reply.out, RunSpec(prompt, events[i + 1..], process))
  {
    assert events[i..][1..] == events[i + 1..];
    assert events[i..][0] == events[i];
    if reply.out == "" {
      assert prompt + " " + reply.out == prompt + " ";
    }
  }

  /** Printing `before` and then a round that printed `shown` and the
      reply's output: the whole run printed both, and either stopped there
      or went on to `rest`. */
  lemma PrependRound(before: string, shown: string, reply: Reply, total: RunResult, here: RunResult, rest: RunResult)
    requires total == Prepend(before, here)
    requires reply.result != 0 ==> here == RunResult(Success, shown + reply.out)
    requires reply.result == 0 ==> here == Prepend(shown + reply.out, rest)
    ensures reply.result != 0 ==> total == RunResult(Success, before + shown + reply.out)
    ensures reply.result == 0 ==> total == Prepend(before + shown + reply.out, rest)
  {
    assert before + (shown + reply.out) == before + shown + reply.out;
    assert before + (shown + reply.out + rest.out) == before + shown + reply.out + rest.out;
  }

  // ---------------------------------------------------------------------
  // The engine

  /** `icli_t`. */
  class Engine {
    var prompt: CString
    var exitCommand: CString
    var context: Context
    var commands: seq<Command>
    var commandCount: int

    /** `command_count` is the length of the list, and no two registered
        commands share a name. */
    ghost predicate Valid()
      reads this
    {
      commandCount == |commands| && NamesDistinct(commands)
    }

    /** The engine as its commands see it. */
    function State(): EngineState
      reads this
    {
      EngineState(prompt, exitCommand, context, commands)
    }

    /** A fresh engine with an empty registry. */
    constructor (prompt: CString, exitCommand: CString, context: Context)
      ensures Valid()
      ensures State() == EngineState(prompt, exitCommand, context, [])
      ensures commandCount == 0
    {
      this.prompt := prompt;
      this.exitCommand := exitCommand;
      this.context := context;
      this.commands := [];
      this.commandCount := 0;
    }

    /** `icli_create`: a missing prompt or exit keyword is refused with
        `ICLI_ERROR_NULL_POINTER` (empty ones are accepted); otherwise the
        engine holds copies of both, the given context, and no commands. */
    static method Create(prompt: Option<CString>, exitCommand: Option<CString>, context: Context)
      returns (cli: Engine?, err: ErrorCode)
      ensures cli == null <==> prompt.None? || exitCommand.None?
      ensures cli == null ==> err == NullPointer
      ensures cli != null ==> fresh(cli) && cli.Valid() && err == Success && cli.commandCount == 0
                              && cli.State() == EngineState(prompt.value, exitCommand.value, context, [])
    {
      if prompt.None? || exitCommand.None? {
        return null, NullPointer;
      }
      var promptCopy := StrdupSafe(prompt);
      var exitCopy := StrdupSafe(exitCommand);
      cli := new Engine(promptCopy.0.value, exitCopy.0.value, context);
      return cli, Success;
    }

    /** `icli_register_command`: a missing command is refused with
        `ICLI_ERROR_NULL_POINTER`; a command whose name is already
        registered is refused with `ICLI_ERROR_COMMAND_EXISTS` and changes
        nothing; any other command is put at the head of the list and the
        count goes up by one. */
    method RegisterCommand(command: Option<Command>) returns (err: ErrorCode)
      requires Valid()
      modifies this
      ensures Valid()
      ensures prompt == old(prompt) && exitCommand == old(exitCommand) && context == old(context)
      ensures command.None? ==>
                err == NullPointer && commands == old(commands) && commandCount == old(commandCount)
      ensures command.Some? && HasName(old(commands), command.value.name) ==>
                err == CommandExists && commands == old(commands) && commandCount == old(commandCount)
      ensures command.Some? && !HasName(old(commands), command.value.name) ==>
                err == Success && commands == [command.value] + old(commands)
                && commandCount == old(commandCount) + 1
    {
      if command.None? {
        return NullPointer;
      }
      var c := command.value;
      var i := 0;
      while i < |commands|
        invariant 0 <= i <= |commands|
        invariant forall k :: 0 <= k < i ==> commands[k].name != c.name
      {
        if commands[i].name == c.name {
          return CommandExists;
        }
        i := i + 1;
      }
      PrependKeepsNamesDistinct(c, commands);
      commands := [c] + commands;
      commandCount := commandCount + 1;
      return Success;
    }

    /** `find_command`: walks the list from its head. */
    method FindCommand(name: string) returns (c: Option<Command>)
      ensures c == Lookup(commands, name)
    {
      var i := 0;
      while i < |commands|
        invariant 0 <= i <= |commands|
        invariant Lookup(commands[i..], name) == Lookup(commands, name)
      {
        assert commands[i..][1..] == commands[i + 1..];
        if commands[i].name == name {
          return Some(commands[i]);
        }
        i := i + 1;
      }
      return None;
    }

    /** `icli_get_command`: a missing name is refused with
        `ICLI_ERROR_NULL_POINTER`; a name nobody registered yields nothing
        and `ICLI_ERROR_COMMAND_NOT_FOUND`; otherwise the command of that
        name and `ICLI_SUCCESS`. */
    method GetCommand(name: Option<CString>) returns (c: Option<Command>, err: ErrorCode)
      requires Valid()
      ensures name.None? ==> c.None? && err == NullPointer
      ensures name.Some? && !HasName(commands, name.value) ==> c.None? && err == CommandNotFound
      ensures name.Some? && HasName(commands, name.value) ==>
                err == Success && c.Some? && c.value in commands && c.value.name == name.value
    {
      if name.None? {
        return None, NullPointer;
      }
      c := FindCommand(name.value);
      if c.None? {
        return None, CommandNotFound;
      }
      return c, Success;
    }

    /** `icli_get_commands`: the registered commands, most recently
        registered first, and their number; no array at all when there are
        none. */
    method GetCommands() returns (arr: array?<Command>, count: int, err: ErrorCode)
      requires Valid()
      ensures err == Success
      ensures count == commandCount == |commands|
      ensures arr == null <==> count == 0
      ensures arr != null ==> fresh(arr) && arr[..] == commands
    {
      count := commandCount;
      if commandCount == 0 {
        return null, count, Success;
      }
      arr := new Command[commandCount];
      var i := 0;
      while i < |commands|
        invariant 0 <= i <= |commands|
        invariant arr[..i] == commands[..i]
      {
        arr[i] := commands[i];
        i := i + 1;
      }
      assert arr[..] == arr[..i];
      return arr, count, Success;
    }

    /** `icli_get_context`: the context the engine was created with. */
    method GetContext() returns (ctx: Context)
      ensures ctx == context
    {
      return context;
    }

    /** Calls the `execute` function of `c` with the engine as context. */
    method Invoke(c: Command, argv: seq<string>, oracle: Oracle) returns (o: Outcome)
      ensures o == Dispatch(State(), c, argv, oracle)
    {
      match c.execute
      case Help =>
        o := HelpExecute(argv, Some(State()));
      case Echo =>
        o := EchoExecute(argv);
      case BoundVersion(v) =>
        o := VersionResult(Some(VersionData(Some(v))));
      case Version =>
        o := oracle(c.execute, argv, State());
      case External(_) =>
        o := oracle(c.execute, argv, State());
    }

    /** `icli_process_command`: tokenize; on no tokens do nothing; on the
        exit keyword report exit; otherwise look up and invoke the command,
        reporting an unknown one and passing on a failing one's error. */
    method ProcessCommand(line: Option<CString>, oracle: Oracle) returns (reply: Reply)
      ensures reply == Process(State(), line, oracle)
    {
      if line.None? {
        return Reply(0, NullPointer, "");
      }
      var argv, argc, err := SplitString(line);
      if argc == 0 || argv == null {
        return Reply(0, err, "");
      }
      var result := 0;
      var out := "";
      if argv[0] == exitCommand {
        result := 1;
      } else {
        var command := FindCommand(argv[0]);
        if command.None? {
          err := CommandNotFound;
          out := "Command not found: " + argv[0] + "\n";
        } else {
          var o := Invoke(command.value, argv[..], oracle);
          out := o.out;
          if o.status != 0 {
            out := out + "Command failed: " + ErrorToString(Value(o.err)) + "\n";
            err := o.err;
          }
        }
      }
      return Reply(result, err, out);
    }

    /** Processes one line read by the run loop. */
    method HandleLine(line: CString, oracle: Oracle, ghost process: CString -> Reply) returns (reply: Reply)
      requires process == LineProcessor(State(), oracle)
      ensures reply == process(line)
    {
      reply := ProcessCommand(Some(line), oracle);
    }

    /** `icli_run`: shows the prompt and reads a line until the input ends,
        a read fails, or the exit keyword is read. */
    method Run(events: seq<Event>, oracle: Oracle) returns (err: ErrorCode, out: string)
      ensures RunResult(err, out) == RunSpec(prompt, events, LineProcessor(State(), oracle))
    {
      ghost var process := LineProcessor(State(), oracle);
      var i := 0;
      var done := false;
      err := Success;
      out := "";
      assert events[0..] == events;
      ghost var total := RunSpec(prompt, events, process);
      while !done
        invariant 0 <= i <= |events|
        invariant process == LineProcessor(State(), oracle)
        invariant !done ==> err == Success
        invariant total == RunSpec(prompt, events, process)
        invariant !done ==> total == Prepend(out, RunSpec(prompt, events[i..], process))
        invariant done ==> total == RunResult(err, out)
        decreases |events| - i, if done then 0 else 1
      {
        ghost var before := out;
        var shown := prompt + " ";
        out := out + shown;
        if i == |events| || !events[i].Line? {
          // fgets failed: end of input, or a read error
          err := if i < |events| && events[i].ReadError? then IO else Success;
          RunStop(prompt, events, i, process);
          PrependStop(before, shown, err, total, RunSpec(prompt, events[i..], process));
          done := true;
        } else {
          var line := StripNewline(events[i].text);
          var reply := Reply(0, Success, "");
          if line != "" {
            reply := HandleLine(line, oracle, process);
          }
          RunStep(prompt, events, i, process, reply);
          PrependRound(before, shown, reply, total,
                       RunSpec(prompt, events[i..], process), RunSpec(prompt, events[i + 1..], process));
          i := i + 1;
          out := out + reply.out;
          done := reply.result != 0;
        }
      }
    }
  }

  // ---------------------------------------------------------------------
  // Sessions

  /** Registering the same command twice: the first registration succeeds,
      the second is refused as a duplicate, and the registry holds the
      command once. */
  method RegisterTwice(c: Command) returns (first: ErrorCode, second: ErrorCode, count: int)
    ensures first == Success && second == CommandExists && count == 1
  {
    var cli := new Engine("> ", "exit", NoContext);
    first := cli.RegisterCommand(Some(c));
    assert HasName(cli.commands, c.name) by {
      assert cli.commands[0] == c;
    }
    second := cli.RegisterCommand(Some(c));
    var arr, err;
    arr, count, err := cli.GetCommands();
  }

  /** The example program's session with the version factory as intended:
      an engine with prompt "> " and exit keyword "exit", with help, echo
      and version registered in that order, answers the line "version" by
      printing the version it was given. */
  method VersionSession(version: CString, oracle: Oracle) returns (reply: Reply)
    ensures reply == Reply(0, Success, "Version: " + version + "\n")
  {
    var cli, err := Engine.Create(Some("> "), Some("exit"), NoContext);
    var help := CreateHelpCommand();
    var echo := CreateEchoCommand();
    var ver := CreateBoundVersionCommand(Some(version));
    err := cli.RegisterCommand(Some(help.value));
    err := cli.RegisterCommand(Some(echo.value));
    assert cli.commands == [echo.value, help.value];
    err := cli.RegisterCommand(Some(ver.value));
    assert cli.commands == [ver.value, echo.value, help.value];
    assert Lookup(cli.commands, ver.value.name) == Some(ver.value);
    reply := AskVersion(cli, version, oracle);
  }

  /** Feeds the line "version" to an engine whose "version" command is the
      intended one. */
  method AskVersion(cli: Engine, version: CString, oracle: Oracle) returns (reply: Reply)
    requires cli.exitCommand != "version"
    requires Lookup(cli.commands, "version").Some?
    requires Lookup(cli.commands, "version").value.execute == BoundVersion(version)
    ensures reply == Reply(0, Success, "Version: " + version + "\n")
  {
    var line: CString := "version";
    WordTokens(line);
    reply := cli.ProcessCommand(Some(line), oracle);
    ProcessBoundVersion(cli.State(), line, version, oracle);
  }

  /** With the intended version command registered under "version", a line
      whose only token is "version" prints that command's version. */
  lemma ProcessBoundVersion(st: EngineState, line: CString, version: CString, oracle: Oracle)
    requires Tokens(line) == ["version"]
    requires st.exitCommand != "version"
    requires Lookup(st.commands, "version").Some?
    requires Lookup(st.commands, "version").value.execute == BoundVersion(version)
    ensures Process(st, Some(line), oracle) == Reply(0, Success, "Version: " + version + "\n")
  {
  }

  /** Echo through the engine: when "echo" names the echo command and is
      not the exit keyword, a line of words starting with "echo" prints the
      remaining words joined by single blanks. */
  lemma ProcessEcho(st: EngineState, d: Option<CString>, ws: seq<string>, oracle: Oracle)
    requires Lookup(st.commands, "echo") == Some(Command("echo", d, Echo))
    requires st.exitCommand != "echo"
    requires |ws| >= 2 && ws[0] == "echo"
    requires forall k :: 0 <= k < |ws| ==> IsWord(ws[k]) && '\0' !in ws[k]
    ensures '\0' !in JoinWords(ws)
    ensures Process(st, Some(JoinWords(ws)), oracle) == Reply(0, Success, JoinWords(ws[1..]) + "\n")
  {
    JoinWordsTokens(ws);
    JoinWordsNoNul(ws);
  }

  /** Words free of NUL joined with blanks are free of NUL. */
  lemma {:induction false} JoinWordsNoNul(ws: seq<string>)
    requires forall k :: 0 <= k < |ws| ==> '\0' !in ws[k]
    ensures '\0' !in JoinWords(ws)
    decreases |ws|
  {
    if |ws| > 1 {
      JoinWordsNoNul(ws[..|ws| - 1]);
    }
  }
}
