# libicli and the task1 user table, modelled in Dafny

libicli is a small interactive command-line interpreter library written in C. An engine (`icli_t`) holds:

- a prompt;
- an exit keyword;
- an opaque user context;
- a registry of named commands, kept as a singly linked list with the newest command first.

It reads lines, splits each into white-space separated tokens, and runs the command named by the first token. That command gets the full token list and the engine itself as its context. The library ships three sample commands: `help`, `echo` and `version`.

The `task1` program keeps a fixed table of up to 100 users in the engine's context. Each user has:

- a login of at most six letters or digits;
- a PIN of at most 100000;
- a request limit (0 means no limit);
- a request counter.

The model is one module per source file:

| file | module | models |
|---|---|---|
| `wrappers.dfy` | `Wrappers` | `Option` (NULL or a value) and `Result` (a value or an error) |
| `errors.dfy` | `Errors` | `icli_error_code` and `icli_error_to_string` (error.h, error.c) |
| `utils.dfy` | `Utils` | C strings, the tokenizer `icli_utils_split_string` and its specification `Tokens`, `icli_utils_strdup_safe` (utils.c) |
| `command.dfy` | `Commands` | the command record and `icli_command_create` (command.c), plus what a command sees and returns |
| `sample_commands.dfy` | `SampleCommands` | `help`, `echo`, `version` and their factories (sample_commands.c) |
| `cli.dfy` | `Cli` | the engine as class `Engine`: creation, registration, lookup, enumeration, line processing and the run loop (cli.c) |
| `user.dfy` | `Users` | the user table as class `UserManager` over an array of 100 entries (user.h, user.c) |

Modelling conventions:

- A C string is a `seq<char>` with no NUL in it (`CString`).
- A pointer argument the source checks against NULL is an `Option`.
- Printed text is returned as a string.
- The `execute` function pointer is a datatype. Its `Help`, `Echo` and `BoundVersion` cases are interpreted. Any other behaviour is answered by an `Oracle` parameter, which gets the behaviour, the tokens and the engine state.
- The standard input is a sequence of read events: a line, end of input, or a read error.
- A `user_t *` into the table is an index into the array.
- `uint32_t` is a subset type of `int`, and its wrap-around is written out.

Each imperative routine is a method proved against a specification function:

| routine | method | specification |
|---|---|---|
| tokenizer loops | `SplitString`, `CountTokens`, `ExtractTokens` | `Tokens`, `CountRuns` |
| help loop | `HelpExecute` | `HelpResult` |
| echo loop | `EchoExecute` | `EchoResult` |
| registry walk | `FindCommand` | `Lookup` |
| line processing | `ProcessCommand` | `Process` |
| run loop | `Run` | `RunSpec` |
| authentication | `Auth` | `FindCredentials` |

Lemmas then prove properties of those functions.

## Model

| member | source | states |
|---|---|---|
| Errors.Value | lab1/libicli/libicli/error.h:12-22 | error codes are numbered 0 to 8 in declaration order, and only success is 0 |
| Errors.FromValue | lab1/libicli/libicli/error.h:12-22 | exactly the values 0..8 name an error code, and the code found has that value |
| Errors.ValueRoundTrip | lab1/libicli/libicli/error.h:12-22 | numbering an error code and reading it back gives the same code |
| Errors.ErrorToString | lab1/libicli/libicli/error.c:8-30 | every code has a non-empty message, and "Unknown error" is given exactly to values outside 0..7 (ICLI_ERROR_UNKNOWN and the default branch) |
| Errors.MessageInjective | lab1/libicli/libicli/error.c:9-28 | two different error codes never share a message |
| Errors.KnownMessages | lab1/libicli/libicli/error.c:10-28 | the messages of success, not-found, already-exists and unknown, and that any out-of-range value reads as "Unknown error" |
| Utils.WordLength | lab1/libicli/libicli/utils.c:57-85 | the length of the leading token: no white space before it, and white space or the end right after it |
| Utils.WordLengthUnique | lab1/libicli/libicli/utils.c:57-85 | that characterisation fixes the token length |
| Utils.TokensAreWords | lab1/libicli/libicli/utils.c:57-85 | every token is non-empty and free of white space |
| Utils.TokensSnoc | lab1/libicli/libicli/utils.c:57-85 | how one more input character changes the tokens: white space adds nothing, a character after white space starts a token, any other character extends the last token |
| Utils.TokenCountIsRunCount | lab1/libicli/libicli/utils.c:24-33 | the counting pass (runs of non-space characters) counts exactly the tokens the extraction pass produces |
| Utils.CountRunsPrefix | lab1/libicli/libicli/utils.c:24-33 | a prefix of the input has no more runs than the input, so the extraction pass never writes past the `count` slots it allocated |
| Utils.TokensConcat | lab1/libicli/libicli/utils.c:57-85 | the tokens, concatenated, are the input with all white space removed, so no non-space character is lost or reordered |
| Utils.TokensEmptyIffBlank | lab1/libicli/libicli/utils.c:35-41 | a line has no tokens if and only if it is empty or all white space |
| Utils.TokensSplit | lab1/libicli/libicli/utils.c:57-85 | tokenizing splits at white space: when the second part starts with white space, the tokens of a concatenation are the tokens of each part |
| Utils.WordTokens | lab1/libicli/libicli/utils.c:57-85 | a single word is its own only token |
| Utils.TokensSpaceFirst | lab1/libicli/libicli/utils.c:27-28 | leading white space is skipped |
| Utils.TokensOfSpacedWord | lab1/libicli/libicli/utils.c:57-85 | a word after leading white space and before white space is the next token |
| Utils.SplitString | lab1/libicli/libicli/utils.c:13-92 | NULL input yields no array and ICLI_ERROR_NULL_POINTER (with a count of 0, see Left out); otherwise ICLI_SUCCESS, `argc` is the number of tokens, no array exactly when there are none, and the array holds the tokens in order |
| Utils.CountTokens | lab1/libicli/libicli/utils.c:23-33 | the counting pass counts the runs of non-space characters |
| Utils.ExtractTokens | lab1/libicli/libicli/utils.c:52-85 | the extraction pass fills the array, sized by the count, with exactly the tokens, in order |
| Utils.StrdupSafe | lab1/libicli/libicli/utils.c:119-139 | NULL is refused with ICLI_ERROR_NULL_POINTER; otherwise an equal copy with ICLI_SUCCESS |
| Commands.CommandCreate | lab1/libicli/libicli/command.c:13-63 | a NULL name or execute function is refused with ICLI_ERROR_NULL_POINTER; otherwise the command holds the given name, description (possibly none) and behaviour |
| SampleCommands.PadName | lab1/libicli/libicli/sample_commands.c:40 | `%-15s`: the name followed by blanks up to 15 characters, and unchanged when longer |
| SampleCommands.HelpExecute | lab1/libicli/libicli/sample_commands.c:22-52 | without an engine it fails with ICLI_ERROR_NULL_POINTER; otherwise it prints the header and one line per registered command, in the order `icli_get_commands` returns them |
| SampleCommands.HelpListsCommand | lab1/libicli/libicli/sample_commands.c:37-44 | every registered command has its own line in the listing, between the lines of the commands before and after it |
| SampleCommands.HelpLineShowsName | lab1/libicli/libicli/sample_commands.c:39-43 | each line shows the command's name after two blanks, and then its description when there is one |
| SampleCommands.HelpOnEmptyRegistry | lab1/libicli/libicli/sample_commands.c:37-51 | with no commands registered, help prints only "Available commands:" and succeeds |
| SampleCommands.EchoExecute | lab1/libicli/libicli/sample_commands.c:62-83 | with fewer than two tokens it prints the usage and fails with ICLI_ERROR_INVALID_ARGS; otherwise it prints the arguments after the name joined by single blanks, then a newline |
| SampleCommands.JoinWordsTokens | lab1/libicli/libicli/sample_commands.c:71-76 | joining words with single blanks is undone by the tokenizer |
| SampleCommands.EchoOutputRetokenizes | lab1/libicli/libicli/sample_commands.c:62-83 | echo's output, tokenized again, gives back exactly its arguments |
| SampleCommands.VersionResult | lab1/libicli/libicli/sample_commands.c:93-108 | NULL data or a NULL version string fails with ICLI_ERROR_NULL_POINTER and prints nothing; otherwise it prints "Version: " and the version |
| SampleCommands.CreateHelpCommand | lab1/libicli/libicli/sample_commands.c:127-134 | the command "help", described as "Display help information", running help |
| SampleCommands.CreateEchoCommand | lab1/libicli/libicli/sample_commands.c:141-148 | the command "echo", described as "Echo the provided text", running echo |
| SampleCommands.CreateVersionCommand | lab1/libicli/libicli/sample_commands.c:156-195 | a NULL version string is refused with ICLI_ERROR_NULL_POINTER; otherwise the command "version" running the version behaviour, with no version attached |
| SampleCommands.VersionStringDropped | lab1/libicli/libicli/sample_commands.c:164-194 | the command the factory creates is the same whatever version string it is given |
| SampleCommands.CreateBoundVersionCommand | lab1/libicli/libicli/sample_commands.c:156-195 | as the factory intends: the command "version" carries the version it was given |
| Cli.Lookup | lab1/libicli/libicli/cli.c:161-170 | a command is found if and only if one with exactly that name is registered, and the one found is registered under that name |
| Cli.LookupFindsRegistered | lab1/libicli/libicli/cli.c:161-170 | with distinct names, looking up a registered command's name yields that command |
| Cli.PrependKeepsNamesDistinct | lab1/libicli/libicli/cli.c:123-147 | prepending a command whose name is new keeps all names distinct |
| Cli.Engine.Create | lab1/libicli/libicli/cli.c:36-78 | a NULL prompt or exit keyword is refused with ICLI_ERROR_NULL_POINTER; otherwise a new engine with copies of both, the given context and no commands |
| Cli.Engine.RegisterCommand | lab1/libicli/libicli/cli.c:111-153 | NULL is refused with ICLI_ERROR_NULL_POINTER, and a name already registered with ICLI_ERROR_COMMAND_EXISTS, with nothing changed; otherwise the command goes to the head of the list and the count grows by one; the count always equals the list length and names stay distinct |
| Cli.Engine.FindCommand | lab1/libicli/libicli/cli.c:161-170 | the walk from the head returns what `Lookup` specifies |
| Cli.Engine.GetCommand | lab1/libicli/libicli/cli.c:295-319 | a NULL name gives ICLI_ERROR_NULL_POINTER; an unregistered name gives nothing and ICLI_ERROR_COMMAND_NOT_FOUND; otherwise the registered command of that name and ICLI_SUCCESS |
| Cli.Engine.GetCommands | lab1/libicli/libicli/cli.c:328-369 | the count equals the number of registered commands, there is no array exactly when there are none, and the array lists them newest first |
| Cli.Engine.GetContext | lab1/libicli/libicli/cli.c:377-389 | the context given at creation |
| Cli.Engine.Invoke | lab1/libicli/libicli/cli.c:211-215 | the command's behaviour is called with the full token list and the engine as its context |
| Cli.Engine.ProcessCommand | lab1/libicli/libicli/cli.c:179-229 | the processing of one line is exactly `Process` of the engine's state |
| Cli.ProcessBlankLine | lab1/libicli/libicli/cli.c:193-196 | an empty or all-blank line does nothing, reports success and continues |
| Cli.ProcessExitFirst | lab1/libicli/libicli/cli.c:200-202 | a first token equal to the exit keyword ends the loop, before any lookup and whatever follows |
| Cli.ProcessContinuesOtherwise | lab1/libicli/libicli/cli.c:198-228 | the result is 0 or 1, and it is 1 if and only if the first token is the exit keyword |
| Cli.ProcessUnknownCommand | lab1/libicli/libicli/cli.c:205-210 | an unregistered first token prints "Command not found: " and the token, and reports ICLI_ERROR_COMMAND_NOT_FOUND |
| Cli.ProcessInvokesCommand | lab1/libicli/libicli/cli.c:211-221 | a registered first token runs that command; a failure prints "Command failed: " with the message of the command's error and passes that error on, and the loop continues either way |
| Cli.ProcessEcho | lab1/libicli/libicli/cli.c:192-215 | through the engine, "echo" followed by words prints those words joined by single blanks |
| Cli.ProcessBoundVersion | lab1/libicli/libicli/cli.c:205-215 | through the engine, the line "version" runs the intended version command and prints "Version: " and its version |
| Cli.StripNewline | lab1/libicli/libicli/cli.c:262-266 | at most one trailing newline is removed, and nothing else changes |
| Cli.StripNewlineOnce | lab1/libicli/libicli/cli.c:262-266 | a line read with its newline loses exactly that newline |
| Cli.Engine.Run | lab1/libicli/libicli/cli.c:237-286 | the loop's result and printed text are exactly `RunSpec` for the engine's prompt and line processing |
| Cli.RunReportsSuccessOrIO | lab1/libicli/libicli/cli.c:251-285 | the run ends with ICLI_SUCCESS or ICLI_ERROR_IO and never with a command's error |
| Cli.RunWithoutReadErrorSucceeds | lab1/libicli/libicli/cli.c:251-285 | without a read failure the run succeeds, however many commands failed |
| Cli.RunReadErrorFirst | lab1/libicli/libicli/cli.c:251-260 | a read failure shows the prompt and stops with ICLI_ERROR_IO |
| Cli.RunStopsAtExit | lab1/libicli/libicli/cli.c:248-278 | once the exit keyword is processed nothing more is read: later input makes no difference |
| Cli.RunSkipsEmptyLine | lab1/libicli/libicli/cli.c:268-271 | an empty line only shows the prompt again |
| Cli.RunStop | lab1/libicli/libicli/cli.c:251-260 | where no line can be read the loop stops after the prompt, with ICLI_ERROR_IO on a read failure and ICLI_SUCCESS at the end of the input |
| Cli.RegisterTwice | lab1/libicli/libicli/cli.c:123-133 | registering the same command twice succeeds, then reports ICLI_ERROR_COMMAND_EXISTS, leaving one entry |
| Cli.VersionSession | lab1/example_cli/example_cli/main.c:29-88 | with help, echo and the intended version command registered, the line "version" prints "Version: " and the version |
| Users.IsValidLogin | lab1/task1/task1/user.c:16-30 | a login is accepted if and only if it is given, at most six characters long and all letters or digits (so the empty login is accepted) |
| Users.ValidLoginIsOneToken | lab1/task1/task1/user.c:16-30 | a non-empty valid login is a single token for the command-line tokenizer |
| Users.ValidLoginBoundary | lab1/task1/task1/user.h:7 | the empty login is valid, a seventh character is too many, and a non-alphanumeric character is refused |
| Users.ValidPinBoundary | lab1/task1/task1/user.c:32-35 | `is_valid_pin` (`ValidPin`): a PIN is valid if and only if it is at most 100000, with 0 and 100000 accepted and every larger value refused |
| Users.FindCredentials | lab1/task1/task1/user.c:75-83 | the first entry whose login and PIN both match, or none when no entry matches both |
| Users.FindLogin | lab1/task1/task1/user.c:93-96 | the first entry with the login, found if and only if the login is registered |
| Users.CredentialsAreLoginThenPin | lab1/task1/task1/user.c:75-83 | with distinct logins, authentication succeeds only at the login's own entry and only with that entry's PIN |
| Users.RegisteredUserAuthenticates | lab1/task1/task1/user.c:58-65 | a newly registered user is then found by authenticating with the same login and PIN |
| Users.CanMakeRequest | lab1/task1/task1/user.c:105-112 | no user cannot make a request; a limit of 0 always allows; otherwise the counter must be below the limit |
| Users.AfterRequest | lab1/task1/task1/user.c:114-121 | with no limit nothing changes; otherwise the 32-bit counter grows by one, wrapping to 0 past its largest value; login, PIN and limit are kept |
| Users.GuardedRequestsBounded | lab1/task1/task1/user.c:105-121 | checking before counting keeps the counter within the limit, and of k attempts exactly min(k, limit − counter) are allowed (all k without a limit) |
| Users.UnguardedRequestPassesLimit | lab1/task1/task1/user.c:114-121 | counting without checking first can take the counter past the limit |
| Users.UserManager.Init | lab1/task1/task1/user.c:6-14 | the table becomes empty, returning 0 |
| Users.UserManager.Register | lab1/task1/task1/user.c:37-66 | 0 if and only if the login is valid, the PIN valid (`ValidPin`, at most 100000, user.c:32-35), the table not full and the login new; the new user, with limit 0 and 0 requests, goes into the next free entry and nothing else changes; on -1 nothing changes; logins stay distinct and at most 100 |
| Users.UserManager.Auth | lab1/task1/task1/user.c:68-84 | a NULL login gives no user; otherwise the entry `FindCredentials` specifies; the table is only read |
| Users.UserManager.SetLimit | lab1/task1/task1/user.c:86-103 | 0 if and only if the login is registered, in which case only that entry changes, getting the new limit and a counter of 0; -1 leaves everything unchanged |
| Users.UserManager.IncrementRequests | lab1/task1/task1/user.c:114-121 | NULL changes nothing; otherwise only that entry changes, as `AfterRequest` says |

## Left out

- NULL engine or table receivers (`cli`, `manager`) and a NULL `argc` or `count` out-pointer: methods of a class cannot be called on nothing, so those early returns are not modelled.
- Allocation failures of `malloc` and `strdup`, and the ICLI_ERROR_MEMORY_ALLOCATION paths they lead to: allocation always succeeds in the model.
- `icli_destroy`, `icli_command_destroy`, `icli_utils_free_string_array` and `version_destructor`: these only release memory.
- The optional `error_code` out-pointer is always present; operations return the code they would store.
- `printf`, `fflush`, `fgets` and `feof`: printed text is returned as a string, and input is a sequence of read events.
- The 1024-byte input buffer of `icli_run`: a longer line is one event here, not split across reads.
- Behaviours of commands other than help, echo and the intended version behaviour are oracle answers. That includes the as-written `version` behaviour, which would read the engine as its version data. Such behaviours cannot change the engine in the model, and they are stateless: each answer is a fixed function of the behaviour, the tokens and the engine snapshot, so effects a command has through the shared context that later lines would see (task1's logged-in user and request counters) are not represented; `RunSpec` treats each line's reply as a fixed function of that line.
- `icli_command_set_context` is declared in cli.h, but no definition of it is part of this model.
- The commands of task1 (`time`, `date`, `howmuch`, `sanctions`) and its login menu: they depend on the clock, floating point and interactive input.
- Utils.SplitString: on a NULL input the C code returns before writing `*argc`, leaving the caller's variable as it was; the model returns a count of 0 there.
- Users.UserManager.Register: the copy made by `strncpy` with a terminator at position 6 is modelled as the login itself. This is the same thing for every login the validation lets through.
- Users.UserManager.IncrementRequests: it takes any entry index, because a `user_t *` may point to any entry of the array.

## Findings

| source | as written | input that shows it | evidently intended | confidence | as-written member | corrected member |
|---|---|---|---|---|---|---|
| lab1/libicli/libicli/sample_commands.c:164-194 | `icli_create_version_command` copies the version string into a `version_command_data_t` but never attaches it to the command it returns, and `icli_process_command` hands every command the engine as its context (cli.c:215) | `icli_create_version_command("1.0.0", …)`, registered and then invoked with the line "version", never prints "Version: 1.0.0": `version_execute` reads the engine as version data | the command carries its version and prints "Version: 1.0.0" | high; not executed | SampleCommands.VersionStringDropped | SampleCommands.CreateBoundVersionCommand |
