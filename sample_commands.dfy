/** The sample commands of libicli (sample_commands.c): `help`, `echo` and
    `version`, their behaviours and their factory functions. Printed text is
    returned as the `out` part of an Outcome. */
module SampleCommands {
  import opened Wrappers
  import opened Errors
  import opened Utils
  import opened Commands

  // ---------------------------------------------------------------------
  // help

  const HelpHeader: string := "Available commands:\n"

  /** `n` blanks. */
  function Spaces(n: nat): (r: string)
    ensures |r| == n
    ensures forall k :: 0 <= k < n ==> r[k] == ' '
  {
    seq(n, _ => ' ')
  }

  /** `printf("%-15s", s)`: `s` left-justified in a field of 15 characters. */
  function PadName(s: string): (r: string)
    ensures |r| == if |s| < 15 then 15 else |s|
    ensures r[..|s|] == s
    ensures forall k :: |s| <= k < |r| ==> r[k] == ' '
  {
    if |s| < 15 then s + Spaces(15 - |s|) else s
  }

  /** The line help prints for one command: the padded name, a dash and the
      description when there is one, otherwise the name alone. */
  function HelpLine(c: Command): string {
    match c.description
    case Some(d) => "  " + PadName(c.name) + " - " + d + "\n"
    case None => "  " + c.name + "\n"
  }

  /** The text of one line per command, in list order. */
  function Listing(cs: seq<Command>, line: Command -> string): string
    decreases |cs|
  {
    if cs == [] then [] else Listing(cs[..|cs| - 1], line) + line(cs[|cs| - 1])
  }

  /** The lines help prints for a list of commands, in list order. */
  function HelpLines(cs: seq<Command>): string {
    Listing(cs, HelpLine)
  }

  /** What `help_execute` does with the context it is handed: without an
      engine it fails with `ICLI_ERROR_NULL_POINTER`; with one it prints the
      header and then one line per command in the engine's enumeration
      order, and succeeds. */
  function HelpResult(argv: seq<string>, ctx: Option<EngineState>): Outcome {
    match ctx
    case None => Outcome(1, NullPointer, "")
    case Some(st) => Outcome(0, Success, HelpHeader + HelpLines(st.commands))
  }

  /** `help_execute`: prints the listing line by line. */
  method HelpExecute(argv: seq<string>, ctx: Option<EngineState>) returns (o: Outcome)
    ensures o == HelpResult(argv, ctx)
  {
    if ctx.None? {
      return Outcome(1, NullPointer, "");
    }
    var commands := ctx.value.commands;
    var listing := "";
    for i := 0 to |commands|
      invariant listing == HelpLines(commands[..i])
    {
      var line := PrintHelpLine(commands[i]);
      HelpLinesStep(commands, i);
      listing := listing + line;
    }
    assert commands[..|commands|] == commands;
    var out := HelpHeader + listing;
    return Outcome(0, Success, out);
  }

  /** The body of help's loop: the line printed for one command. */
  method PrintHelpLine(c: Command) returns (line: string)
    ensures line == HelpLine(c)
  {
    if c.description.Some? {
      line := "  " + PadName(c.name) + " - " + c.description.value + "\n";
    } else {
      line := "  " + c.name + "\n";
    }
  }

  /** The listing of the first `i + 1` commands extends that of the first
      `i` by one line. */
  lemma HelpLinesStep(cs: seq<Command>, i: int)
    requires 0 <= i < |cs|
    ensures HelpLines(cs[..i + 1]) == HelpLines(cs[..i]) + HelpLine(cs[i])
  {
    assert cs[..i + 1][..i] == cs[..i];
  }

  /** The listing of a concatenation is the concatenation of the listings. */
  lemma {:induction false} ListingAppend(a: seq<Command>, b: seq<Command>, line: Command -> string)
    ensures Listing(a + b, line) == Listing(a, line) + Listing(b, line)
    decreases |b|
  {
    if b == [] {
      assert a + b == a;
    } else {
      var b', last := b[..|b| - 1], b[|b| - 1];
      assert (a + b)[..|a + b| - 1] == a + b';
      assert (a + b)[|a + b| - 1] == last;
      ListingAppend(a, b', line);
    }
  }

  /** The listing is made of the lines of the commands before `j`, then
      the line of the `j`-th command, then the lines of those after it. */
  lemma {:induction false} HelpListsCommand(cs: seq<Command>, j: int)
    requires 0 <= j < |cs|
    ensures HelpLines(cs) == HelpLines(cs[..j]) + HelpLine(cs[j]) + HelpLines(cs[j + 1..])
  {
    var a, b, c := cs[..j], [cs[j]], cs[j + 1..];
    assert cs == (a + b) + c;
    ListingAppend(a + b, c, HelpLine);
    ListingAppend(a, b, HelpLine);
    assert b[..0] == [];
  }

  /** Each line shows the command's name after two blanks, followed by the
      description when there is one, and ends the line. */
  lemma HelpLineShowsName(c: Command)
    ensures var l := HelpLine(c);
            |l| >= 3 + |c.name| && l[..2] == "  " && l[2..2 + |c.name|] == c.name && l[|l| - 1] == '\n'
    ensures c.description.Some? ==>
              var l := HelpLine(c);
              var at := 2 + |PadName(c.name)| + 3;
              l[at..at + |c.description.value|] == c.description.value
  {
  }

  /** With no commands registered, help prints just its header. */
  lemma HelpOnEmptyRegistry(argv: seq<string>, st: EngineState)
    requires st.commands == []
    ensures HelpResult(argv, Some(st)) == Outcome(0, Success, "Available commands:\n")
  {
  }

  // ---------------------------------------------------------------------
  // echo

  const EchoUsage: string := "Usage: echo <text>\n"

  /** Words separated by single blanks, with no blank before the first or
      after the last. */
  function JoinWords(ws: seq<string>): string
    decreases |ws|
  {
    if ws == [] then []
    else if |ws| == 1 then ws[0]
    else JoinWords(ws[..|ws| - 1]) + " " + ws[|ws| - 1]
  }

  /** What `echo_execute` does: with fewer than two tokens it prints its
      usage and fails with `ICLI_ERROR_INVALID_ARGS`; otherwise it prints
      the arguments after the command name joined by single blanks and a
      newline, and succeeds. */
  function EchoResult(argv: seq<string>): Outcome {
    if |argv| < 2 then Outcome(1, InvalidArgs, EchoUsage)
    else Outcome(0, Success, JoinWords(argv[1..]) + "\n")
  }

  /** `echo_execute`: prints the arguments one by one, a blank after every
      one but the last. */
  method EchoExecute(argv: seq<string>) returns (o: Outcome)
    ensures o == EchoResult(argv)
  {
    var argc := |argv|;
    if argc < 2 {
      return Outcome(1, InvalidArgs, EchoUsage);
    }
    var out := "";
    for i := 1 to argc
      invariant out == if i == 1 then "" else JoinWords(argv[1..i]) + (if i < argc then " " else "")
    {
      assert argv[1..i + 1][..i - 1] == argv[1..i];
      out := out + argv[i];
      if i < argc - 1 {
        out := out + " ";
      }
    }
    assert argv[1..argc] == argv[1..];
    out := out + "\n";
    return Outcome(0, Success, out);
  }

  /** Joining words with single blanks and tokenizing again gives the words
      back: the tokenizer undoes the join. */
  lemma {:induction false} JoinWordsTokens(ws: seq<string>)
    requires forall k :: 0 <= k < |ws| ==> IsWord(ws[k])
    ensures Tokens(JoinWords(ws)) == ws
    decreases |ws|
  {
    if |ws| == 1 {
      WordTokens(ws[0]);
    } else if |ws| > 1 {
      var init, w := ws[..|ws| - 1], ws[|ws| - 1];
      JoinWordsTokens(init);
      var rest := " " + w;
      assert JoinWords(ws) == JoinWords(init) + rest;
      TokensSplit(JoinWords(init), rest);
      TokensSpaceFirst(' ', w);
      WordTokens(w);
      assert ws == init + [w];
    }
  }

  /** Echo's output, tokenized again, is exactly its arguments: every token
      reappears, in order, separated by white space only. */
  lemma EchoOutputRetokenizes(argv: seq<string>)
    requires |argv| >= 2
    requires forall k :: 0 <= k < |argv| ==> IsWord(argv[k])
    ensures EchoResult(argv).status == 0
    ensures Tokens(EchoResult(argv).out) == argv[1..]
  {
    var ws := argv[1..];
    JoinWordsTokens(ws);
    TokensSplit(JoinWords(ws), "\n");
    assert Tokens("\n") == [];
  }

  // ---------------------------------------------------------------------
  // version

  /** `version_command_data_t`: the version string the command should
      print. */
  datatype VersionData = VersionData(versionString: Option<CString>)

  /** What `version_execute` does with the context it is handed: without
      version data, or with data whose string is missing, it fails with
      `ICLI_ERROR_NULL_POINTER` and prints nothing; otherwise it prints the
      version and succeeds. */
  function VersionResult(data: Option<VersionData>): (o: Outcome)
    ensures o.status == 0 <==> data.Some? && data.value.versionString.Some?
    ensures o.status != 0 ==> o.status == 1 && o.err == NullPointer && o.out == ""
    ensures o.status == 0 ==> o.err == Success &&
                              o.out == "Version: " + data.value.versionString.value + "\n"
  {
    if data.None? || data.value.versionString.None? then Outcome(1, NullPointer, "")
    else Outcome(0, Success, "Version: " + data.value.versionString.value + "\n")
  }

  // ---------------------------------------------------------------------
  // factories

  /** `icli_create_help_command`: the command "help". */
  function CreateHelpCommand(): (r: Result<Command, ErrorCode>)
    ensures r == Ok(Command("help", Some("Display help information"), Help))
  {
    CommandCreate(Some("help"), Some("Display help information"), Some(Help))
  }

  /** `icli_create_echo_command`: the command "echo". */
  function CreateEchoCommand(): (r: Result<Command, ErrorCode>)
    ensures r == Ok(Command("echo", Some("Echo the provided text"), Echo))
  {
    CommandCreate(Some("echo"), Some("Echo the provided text"), Some(Echo))
  }

  /** `icli_create_version_command` as written: a missing version string is
      refused with `ICLI_ERROR_NULL_POINTER`; otherwise the command
      "version" is created, but the copy of the version string made for it
      is never attached to the command. */
  function CreateVersionCommand(version: Option<CString>): (r: Result<Command, ErrorCode>)
    ensures r.Err? <==> version.None?
    ensures r.Err? ==> r.error == NullPointer
    ensures r.Ok? ==> r.value == Command("version", Some("Display version information"), Version)
  {
    if version.None? then Err(NullPointer)
    else CommandCreate(Some("version"), Some("Display version information"), Some(Version))
  }

  /** The version string handed to the as-written factory leaves no trace in
      the command it creates. */
  lemma VersionStringDropped(v1: CString, v2: CString)
    ensures CreateVersionCommand(Some(v1)) == CreateVersionCommand(Some(v2))
  {
  }

  /** The version factory with the version string attached to the command,
      as the factory evidently intends. */
  function CreateBoundVersionCommand(version: Option<CString>): (r: Result<Command, ErrorCode>)
    ensures r.Err? <==> version.None?
    ensures r.Err? ==> r.error == NullPointer
    ensures r.Ok? ==> r.value.name == "version"
                      && r.value.description == Some("Display version information")
                      && r.value.execute == BoundVersion(version.value)
  {
    if version.None? then Err(NullPointer)
    else CommandCreate(Some("version"), Some("Display version information"), Some(BoundVersion(version.value)))
  }
}
