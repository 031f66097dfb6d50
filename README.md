# VibeTerminal core, modelled in Dafny

VibeTerminal is a natural-language terminal assistant. A user's request goes to an LLM agent
(a LangGraph state machine): the model's reply is parsed for fenced `bash` blocks, each command
is run through the shell (`subprocess.run(..., shell=True)` in `execute_parsed_commands` of
`agent/nodes.py`), and a final report is formatted. Around the agent sit a command-safety classifier, a JSON-backed
command history with undo, operating-system detection, per-OS prompt loading, and a translator
that rewrites commands for Windows/PowerShell. The landing page's terminal demo replays a
scripted session with a typewriter effect.

This project models that core:

- `wrappers.dfy`: `Option`, and `Outcome` for a Python return or a raised exception.
- `pystrings.dfy` (`PyStrings`): the Python `str` operations the source relies on
  (`in`, `startswith`, `endswith`, `find`, `split`, `join`, `replace`, `strip`, `lower`).
- `safety.dfy` (`Safety`): `utils.py`, the `is_command_safe` classifier.
- `history.dfy` (`History`): `command_history.py`, a class whose methods edit the in-memory
  list and save it.
- `os_detection.dfy` (`OsDetection`): `os_detection.py`.
- `prompt_loader.dfy` (`PromptLoader`): `agent/prompt_loader.py`.
- `graph.dfy` (`Graph`): the routing and edge table of `agent/graph.py`, plus the runs it allows.
- `heredoc.dfy` (`Heredoc`): the heredoc parsing shared by `tools.py`, `command_translator.py`,
  `nodes.py` and `cli.py` (line split, path between `cat >` and `<<`, body scan).
- `tools.dfy` (`Tools`): `agent/tools.py`.
- `translator.dfy` (`Translator`): `command_translator.py`.
- `nodes.dfy` (`Nodes`): `agent/nodes.py`. `AgentState` is a class whose fields the graph
  nodes update in place.
- `cli.dfy` (`Cli`): the command-line helpers of `cli.py`.
- `terminal_demo.dfy` (`TerminalDemo`): `frontend/src/components/TerminalDemo.tsx`. The typing
  hook and the component are classes; timers become explicit `Tick`/`PauseElapsed` calls.

Things outside the model become parameters:

- the platform name (`platform.system()`);
- environment variables;
- the file system (whether a path exists, what a read gives, whether a write or save fails);
- the process result;
- the current directory;
- timestamps.

The code and the prose description disagree in a few places. The model follows the code:

- Agent mode runs every command, a `cat >` heredoc included, through the shell: the graph wires
  `execute_parsed_commands` of `agent/nodes.py`. The shell tool `execute_shell_command` of
  `agent/tools.py`, which writes heredocs itself, is called only from that file's
  `__main__` block, and `translate_command` has no caller at all. Nor has
  `validate_file_creation_command` of `agent/nodes.py`. The three Findings, which are about
  these functions, therefore affect no path the app runs.
- The command-line `execute_parsed_commands` never records a failure, because `process_command`
  catches and prints its own errors.

## Model

| member | source | states |
|---|---|---|
| Safety.IsCommandSafe | vibe-terminal/vibe-terminal/utils.py:54-84 | the classifier: blank is safe; a dangerous pattern, a non-read-only start, a `>` other than to `/dev/null`, or a pipe into a non-read-only segment makes a command unsafe |
| Safety.WritesByRedirect | vibe-terminal/vibe-terminal/utils.py:71 | the redirect test: a `>` in the command, no `>>` in the lowered command, and a target not starting `/dev/null` |
| Safety.IsCommandSafeRecursivePipe | vibe-terminal/vibe-terminal/utils.py:86-91 | a pipe segment passes exactly when it starts with a read-only prefix (related to the pipe loop by `RecursivePipeCheckAgrees`) |
| Safety.RedirectSurvivesLowering | vibe-terminal/vibe-terminal/utils.py:59-71 | lower-casing and stripping never remove a `>` from the command |
| Safety.EmptyIsSafe | vibe-terminal/vibe-terminal/utils.py:59-61 | an empty or whitespace-only command is safe |
| Safety.DangerousIsUnsafe | vibe-terminal/vibe-terminal/utils.py:63-65 | any dangerous pattern in the lowered command makes it unsafe, whatever else holds |
| Safety.NotReadOnlyIsUnsafe | vibe-terminal/vibe-terminal/utils.py:68 | a non-blank command not starting with a read-only prefix is unsafe |
| Safety.RedirectIsUnsafe | vibe-terminal/vibe-terminal/utils.py:71-73 | a single `>` (no `>>`) into anything but `/dev/null` makes a read-only command unsafe |
| Safety.PipeRule | vibe-terminal/vibe-terminal/utils.py:74-84 | with no danger and no redirect, a piped command is safe iff every segment after the first starts read-only |
| Safety.RecursivePipeCheckAgrees | vibe-terminal/vibe-terminal/utils.py:76-90 | the nested `is_command_safe_recursive_pipe` test adds nothing: the pipe segments pass exactly when each one, stripped, starts read-only |
| Safety.PlainReadOnlyIsSafe | vibe-terminal/vibe-terminal/utils.py:63-84 | a read-only command with no danger, no `>` and no `|` is safe |
| Safety.LoweredIdentity | vibe-terminal/vibe-terminal/utils.py:59 | a command with no upper case and no outer whitespace is inspected unchanged |
| Safety.NoDangerByWitness | vibe-terminal/vibe-terminal/utils.py:11-14 | a command missing one character of each pattern holds no dangerous pattern |
| Safety.SplitSinglePipe | vibe-terminal/vibe-terminal/utils.py:75 | a command with exactly one `|` splits into the text before and after it |
| Safety.SinglePipeRule | vibe-terminal/vibe-terminal/utils.py:74-84 | for a read-only, harmless command with one pipe, safety is exactly "the right side starts read-only" |
| Safety.ListingIsSafe | vibe-terminal/vibe-terminal/utils.py:99-106 | `ls -l` is safe |
| Safety.RecursiveRemoveIsUnsafe | vibe-terminal/vibe-terminal/utils.py:99-106 | `rm -rf /` is unsafe |
| Safety.SudoIsUnsafe | vibe-terminal/vibe-terminal/utils.py:99-106 | `sudo apt update` is unsafe |
| Safety.PipedPieces | vibe-terminal/vibe-terminal/utils.py:63-84 | `l\| g` with a read-only, harmless `l` and a harmless `g` is safe exactly when `g` starts read-only |
| Safety.RedirectPieces | vibe-terminal/vibe-terminal/utils.py:63-73 | `l> f` with a read-only, harmless `l` is unsafe whenever `f` is not `/dev/null` |
| Safety.EchoRedirectIsUnsafe | vibe-terminal/vibe-terminal/utils.py:99-106 | `echo "hi" > file.txt` (given as its two sides) is unsafe although it starts read-only |
| Safety.FindGrepIsSafe | vibe-terminal/vibe-terminal/utils.py:99-106 | `find . -name "*.py" \| grep "class"` (given as its two sides) is safe |
| Safety.FindXargsIsUnsafe | vibe-terminal/vibe-terminal/utils.py:99-106 | `find . -name "*.py" \| xargs rm` (given as its two sides) is unsafe |
| History.LoadedHistory | vibe-terminal/vibe-terminal/command_history.py:20-28 | a missing or unreadable file gives an empty history; a readable one gives its entries |
| History.Appended | vibe-terminal/vibe-terminal/command_history.py:38-51 | adding keeps every old entry in place and puts the new one last |
| History.Last | vibe-terminal/vibe-terminal/command_history.py:53-59 | the last entry, and nothing exactly for an empty history |
| History.Popped | vibe-terminal/vibe-terminal/command_history.py:61-71 | undo drops exactly the last entry, and leaves an empty history empty |
| History.UndoAfterAdd | vibe-terminal/vibe-terminal/command_history.py:38-71 | undo right after add returns the added entry and restores the previous history |
| History.AddAfterUndo | vibe-terminal/vibe-terminal/command_history.py:38-71 | re-adding the undone entry restores the history |
| History.CommandHistory.constructor | vibe-terminal/vibe-terminal/command_history.py:10-28 | the history is the loaded list, or empty on a missing or unreadable file |
| History.CommandHistory.Save | vibe-terminal/vibe-terminal/command_history.py:30-36 | written, the file holds the in-memory list; a failed open leaves the file as it was; a dump that fails after the truncating open leaves no list in the file |
| History.CommandHistory.AddCommand | vibe-terminal/vibe-terminal/command_history.py:38-51 | one entry of command, timestamp and result is appended, then saved: the file then holds the new list, is unchanged after a failed open, or holds no list after a failed dump |
| History.CommandHistory.GetLastCommand | vibe-terminal/vibe-terminal/command_history.py:53-59 | the newest entry, or nothing exactly when the history is empty |
| History.CommandHistory.UndoLastCommand | vibe-terminal/vibe-terminal/command_history.py:61-71 | returns the newest entry, removes it and saves, with the three save outcomes as for `add_command`; on an empty history returns nothing and leaves the file alone |
| History.CommandHistory.GetHistory | vibe-terminal/vibe-terminal/command_history.py:73-79 | every entry, oldest first |
| History.CommandHistory.ClearHistory | vibe-terminal/vibe-terminal/command_history.py:81-84 | the history becomes empty and is saved: the file then holds the empty list, is unchanged after a failed open, or holds no list after a failed dump |
| History.AddThenUndo | vibe-terminal/vibe-terminal/command_history.py:38-71 | on the object: add then undo returns the new entry, restores the list, and leaves the file holding the old list |
| OsDetection.OsOf | vibe-terminal/vibe-terminal/os_detection.py:14-20 | `windows` and `darwin` (any case) map to Windows and macOS, and everything else to Linux |
| OsDetection.ShellOf | vibe-terminal/vibe-terminal/os_detection.py:22-35 | on Windows, PowerShell exactly when `ComSpec` ends in `powershell.exe`, else cmd; elsewhere zsh when the lowered `SHELL` contains `zsh`, else bash when it contains `bash`, else unknown |
| OsDetection.GetOsInfo | vibe-terminal/vibe-terminal/os_detection.py:7-37 | the pair of the operating system and the shell derived from it |
| OsDetection.ShellMatchesOs | vibe-terminal/vibe-terminal/os_detection.py:7-37 | Windows gets only PowerShell or cmd; every other system gets bash, zsh or unknown |
| OsDetection.AtMostOnePlatform | vibe-terminal/vibe-terminal/os_detection.py:40-52 | at most one of `is_windows`, `is_macos` and `is_linux` holds |
| OsDetection.PlatformTestsAgree | vibe-terminal/vibe-terminal/os_detection.py:7-52 | `is_windows` and `is_macos` agree exactly with `get_os_info`; `is_linux` implies a Linux result |
| OsDetection.IsWindows | vibe-terminal/vibe-terminal/os_detection.py:40-43 | the lowered platform name is `windows` |
| OsDetection.IsMacOs | vibe-terminal/vibe-terminal/os_detection.py:45-48 | the lowered platform name is `darwin` |
| OsDetection.IsLinux | vibe-terminal/vibe-terminal/os_detection.py:50-52 | the lowered platform name is `linux` (FreeBSD is not, see `UnknownSystemIsLinux`) |
| OsDetection.UnknownSystemIsLinux | vibe-terminal/vibe-terminal/os_detection.py:14-20 | an unrecognised system such as FreeBSD is reported as Linux while `is_linux` is false |
| PromptLoader.GetOsType | vibe-terminal/vibe-terminal/agent/prompt_loader.py:6-16 | one of four labels, each exactly for its platform name |
| PromptLoader.PromptFile | vibe-terminal/vibe-terminal/agent/prompt_loader.py:25-29 | the path is `prompts/` + the OS label + `.md` |
| PromptLoader.LoadOsPrompt | vibe-terminal/vibe-terminal/agent/prompt_loader.py:18-42 | the stripped contents of that file exactly when it can be read, else nothing |
| PromptLoader.GetSystemPrompt | vibe-terminal/vibe-terminal/agent/prompt_loader.py:44-66 | never empty: the loaded prompt when present and non-blank, else the default prompt |
| PromptLoader.BlankFileFallsBack | vibe-terminal/vibe-terminal/agent/prompt_loader.py:44-66 | a prompt file of only whitespace gives the default prompt |
| PromptLoader.UnknownPlatformFile | vibe-terminal/vibe-terminal/agent/prompt_loader.py:6-29 | an unrecognised platform reads `prompts/unknown.md` |
| Graph.ShouldExecuteCommands | vibe-terminal/vibe-terminal/agent/graph.py:13-16 | commands execute exactly in agent mode with at least one extracted command |
| Graph.Next | vibe-terminal/vibe-terminal/agent/graph.py:29-45 | every edge moves strictly closer to `END` |
| Graph.Run | vibe-terminal/vibe-terminal/agent/graph.py:19-49 | a run starts at its node and ends at `END` |
| Graph.RunFollowsEdges | vibe-terminal/vibe-terminal/agent/graph.py:32-45 | each step of a run is the edge table's successor of the previous node |
| Graph.FormatOnceFrom | vibe-terminal/vibe-terminal/agent/graph.py:35-45 | every run from a node before formatting passes `format_output` exactly once, just before `END` |
| Graph.RunFromEntry | vibe-terminal/vibe-terminal/agent/graph.py:29-45 | from the entry the run is generate, parse, (execute,) format, end; execute appears iff the router says so |
| Graph.GenerateThenParse | vibe-terminal/vibe-terminal/agent/graph.py:29-32 | every run starts with `generate_response` and then `parse_commands` |
| Graph.ExecuteThenFormat | vibe-terminal/vibe-terminal/agent/graph.py:44 | `execute_commands` is always followed by `format_output` |
| Heredoc.MarkersExclusive | vibe-terminal/vibe-terminal/agent/tools.py:50-56 | no line both closes and opens a heredoc, so the order of the two tests does not matter |
| Heredoc.Lines | vibe-terminal/vibe-terminal/agent/tools.py:37-39 | the lines, joined back with newlines, give the stripped command |
| Heredoc.SingleLine | vibe-terminal/vibe-terminal/agent/tools.py:37-39 | a command without a newline is one line |
| Heredoc.PathBetween | vibe-terminal/vibe-terminal/agent/tools.py:42 | an IndexError exactly when the text has no `cat >` |
| Heredoc.KindOf | vibe-terminal/vibe-terminal/agent/tools.py:46-58 | each line is exactly one of a closing line, an opening line or a text line |
| Heredoc.ScanEofFirst | vibe-terminal/vibe-terminal/agent/tools.py:46-58 | the scan that tests for `EOF` first collects the scan function's lines |
| Heredoc.IsFileCreation | vibe-terminal/vibe-terminal/agent/tools.py:33 | the creation test: `cat >`, `<<` and `EOF` all occur (`CreationDetected` shows the canonical form passes) |
| Heredoc.Scan | vibe-terminal/vibe-terminal/agent/tools.py:46-56 | the body scan as a fold over the line kinds; both loops are proved equal to it |
| Heredoc.Content | vibe-terminal/vibe-terminal/agent/tools.py:58 | the collected lines joined by newlines and stripped |
| Heredoc.ScanOpenerFirst | vibe-terminal/vibe-terminal/command_translator.py:58-66 | the scan that tests for the opener first collects the same lines |
| Heredoc.ScanCollectsTextOnly | vibe-terminal/vibe-terminal/agent/tools.py:46-58 | every collected line is a text line of the input |
| Heredoc.CollectedIsText | vibe-terminal/vibe-terminal/agent/tools.py:46-58 | the k-th collected line is one of the input's text lines |
| Heredoc.ScanCollectsBody | vibe-terminal/vibe-terminal/agent/tools.py:46-58 | after an opening line, all following text lines are collected in order |
| Heredoc.ScanSkipsWithoutOpener | vibe-terminal/vibe-terminal/agent/tools.py:46-58 | with no opening line seen, nothing is collected |
| Heredoc.HeredocBody | vibe-terminal/vibe-terminal/agent/tools.py:46-58 | opener, body lines, `EOF`: exactly the body is collected |
| Heredoc.SkippingOpenerLosesBody | vibe-terminal/vibe-terminal/agent/tools.py:48 | when only the skipped first line opens the heredoc, nothing is collected |
| Heredoc.HeaderOpens | vibe-terminal/vibe-terminal/agent/tools.py:50-56 | the header `cat > f << 'EOF'` is an opening line |
| Heredoc.HeaderSingleLine | vibe-terminal/vibe-terminal/agent/tools.py:37-39 | the header of a plain name is one line |
| Heredoc.CreationStripped | vibe-terminal/vibe-terminal/agent/tools.py:37 | a canonical creation command has no outer whitespace |
| Heredoc.SplitFramed | vibe-terminal/vibe-terminal/agent/tools.py:37-39 | the lines of header, body and closer are the header, the body's lines and the closer |
| Heredoc.CreationLines | vibe-terminal/vibe-terminal/agent/tools.py:37-39 | a canonical creation splits into the header, the body's lines and `EOF` |
| Heredoc.CreationDetected | vibe-terminal/vibe-terminal/agent/tools.py:33 | a canonical creation passes the `cat >` / `<<` / `EOF` test |
| Heredoc.SegmentAngles | vibe-terminal/vibe-terminal/agent/tools.py:42 | in ` f <<…` the first `<<` follows the name |
| Heredoc.SegmentPath | vibe-terminal/vibe-terminal/agent/tools.py:42 | the stripped text before `<<` is the name |
| Heredoc.PathSegment | vibe-terminal/vibe-terminal/agent/tools.py:42 | the text after `cat >` up to the next `cat >` still holds ` f <<` |
| Heredoc.HeaderPath | vibe-terminal/vibe-terminal/agent/tools.py:42 | the path read from any text starting with the header is the name |
| Heredoc.CreationPath | vibe-terminal/vibe-terminal/agent/tools.py:42 | the path read from the header line is the name |
| Heredoc.CreationPathWhole | vibe-terminal/vibe-terminal/agent/nodes.py:243-245 | the path read from the whole command, as the validator does, is also the name |
| Heredoc.EofCloses | vibe-terminal/vibe-terminal/agent/tools.py:50 | the line `EOF` closes a heredoc |
| Heredoc.CreationContent | vibe-terminal/vibe-terminal/agent/nodes.py:261-286 | scanning every line of a canonical creation gives back its stripped body |
| Heredoc.CreationContentWithoutHeader | vibe-terminal/vibe-terminal/agent/tools.py:46-60 | scanning every line but the first gives an empty body |
| Tools.FirstExisting | vibe-terminal/vibe-terminal/agent/tools.py:20-22 | the index of the first existing candidate, with no existing candidate before it; none when none exists |
| Tools.GetPowershellPath | vibe-terminal/vibe-terminal/agent/tools.py:11-24 | the first existing candidate, else `powershell.exe` |
| Tools.CreateFile | vibe-terminal/vibe-terminal/agent/tools.py:42-73 | an IndexError with no `cat >`; a failed write re-raises its error; otherwise a file-created result with the path and the scanned body |
| Tools.ExecuteShellCommand | vibe-terminal/vibe-terminal/agent/tools.py:26-96 | as written: non-creations report a completed run (success exactly for code 0) and re-raise what a failed run raised; short creations raise; a file-created result means success and no write error |
| Tools.ExecuteShellCommandScanningAll | vibe-terminal/vibe-terminal/agent/tools.py:26-96 | the same tool with the body scan over every line, with the same completed-run and raised-run cases |
| Tools.Execution | vibe-terminal/vibe-terminal/agent/tools.py:26-96 | the tool as a function of the command, the first scanned line, the write error and the run's outcome; both methods are proved equal to it |
| Tools.CreationParsed | vibe-terminal/vibe-terminal/agent/tools.py:33-42 | a canonical creation has at least three lines and the path is the name |
| Tools.CreationWritesBody | vibe-terminal/vibe-terminal/agent/tools.py:26-73 | corrected: a canonical creation writes the named file with the stripped body |
| Tools.CreationWritesEmptyAsWritten | vibe-terminal/vibe-terminal/agent/tools.py:46-73 | as written: a canonical creation writes the named file empty |
| Tools.CreationWriteFailure | vibe-terminal/vibe-terminal/agent/tools.py:66-73 | a failed write re-raises the write's exception |
| Tools.TranslatedCreationRoundTrip | vibe-terminal/vibe-terminal/command_translator.py:91-101 | what `translate_file_creation` builds on Unix, run through the corrected tool, writes the named file with the stripped content |
| Translator.WindowsRule | vibe-terminal/vibe-terminal/command_translator.py:79-86 | a rule applies exactly for commands starting `rm `, `mkdir ` or `touch ` |
| Translator.Translation | vibe-terminal/vibe-terminal/command_translator.py:45-89 | `translate_command` from a given first scanned line; both methods are proved equal to it |
| Translator.TranslateFileCreation | vibe-terminal/vibe-terminal/command_translator.py:91-101 | the creation command per platform, stated by `FileCreationPerPlatform` |
| Translator.FileCreationPerPlatform | vibe-terminal/vibe-terminal/command_translator.py:91-101 | the Unix heredoc on Linux and macOS, `Set-Content` with UTF-8 in PowerShell, `echo c > f` in cmd |
| Translator.TranslateFileDeletion | vibe-terminal/vibe-terminal/command_translator.py:103-113 | the deletion command per platform, stated by `FileDeletionPerPlatform` |
| Translator.FileDeletionPerPlatform | vibe-terminal/vibe-terminal/command_translator.py:103-113 | `rm f` on Linux and macOS, `Remove-Item -Path "f" -Force` in PowerShell, `del f` in cmd |
| Translator.TranslateFileAppend | vibe-terminal/vibe-terminal/command_translator.py:115-128 | the append command per platform, with the name always double-quoted (`AppendQuotesFilename`) |
| Translator.GetSafeCommands | vibe-terminal/vibe-terminal/command_translator.py:130-140 | the safe list per platform (`UnixSafeCommandsReadOnly`, `UnixSafeCommandsAreSafe`) |
| Translator.UnixSafeCommandsReadOnly | vibe-terminal/vibe-terminal/command_translator.py:130-140 | every Unix safe command is one of the classifier's read-only prefixes |
| Translator.TranslateCreation | vibe-terminal/vibe-terminal/command_translator.py:50-76 | an IndexError without `cat >` on the first line, else the OS-specific creation of the path with the scanned body |
| Translator.TranslateCommand | vibe-terminal/vibe-terminal/command_translator.py:45-89 | as written: non-heredoc commands pass through unchanged off Windows and through the three rules on Windows |
| Translator.TranslateCommandScanningAll | vibe-terminal/vibe-terminal/command_translator.py:45-89 | the same translation with the body scan over every line |
| Translator.WindowsSingleLine | vibe-terminal/vibe-terminal/command_translator.py:45-89 | on Windows a one-line command never takes the heredoc branch: its translation is what the `rm`/`mkdir`/`touch` rules give |
| Translator.WindowsRemoveIsDeletion | vibe-terminal/vibe-terminal/command_translator.py:81-82 | on Windows `rm f` becomes the PowerShell deletion of `f` |
| Translator.WindowsMakeDirectory | vibe-terminal/vibe-terminal/command_translator.py:83-84 | on Windows `mkdir d` becomes a directory `New-Item` |
| Translator.WindowsTouchFile | vibe-terminal/vibe-terminal/command_translator.py:85-86 | on Windows `touch f` becomes a file `New-Item` |
| Translator.WindowsOtherIsNone | vibe-terminal/vibe-terminal/command_translator.py:79-86 | on Windows any other one-line command translates to `None` |
| Translator.CreationBranch | vibe-terminal/vibe-terminal/command_translator.py:50-54 | a canonical creation takes the heredoc branch with the name as path |
| Translator.CreationTranslated | vibe-terminal/vibe-terminal/command_translator.py:50-76 | corrected: a canonical creation is translated with its path and stripped body |
| Translator.CreationTranslatedAsWritten | vibe-terminal/vibe-terminal/command_translator.py:58-76 | as written: a canonical creation is translated with an empty body |
| Translator.UnixCreationToWindows | vibe-terminal/vibe-terminal/command_translator.py:91-101 | the Unix creation command, translated for Windows, writes the same file with the stripped body |
| Translator.AppendQuotesFilename | vibe-terminal/vibe-terminal/command_translator.py:115-128 | every append command double-quotes the file name after `>>` or `-Path` |
| Translator.UnixSafeCommandsAreSafe | vibe-terminal/vibe-terminal/command_translator.py:130-140 | every command of the Unix safe list passes `is_command_safe` |
| Nodes.AgentState.constructor | vibe-terminal/vibe-terminal/agent/nodes.py:19-29 | a fresh state holds the query and mode, with everything else empty |
| Nodes.ExtractContent | vibe-terminal/vibe-terminal/agent/nodes.py:261-276 | the body is the scan of the command's lines |
| Nodes.ValidateFileCreationCommand | vibe-terminal/vibe-terminal/agent/nodes.py:220-296 | accepts exactly the valid creations; a blank command is rejected; an accepted command is a creation of a `.py` path |
| Nodes.CanonicalCreationValid | vibe-terminal/vibe-terminal/agent/nodes.py:220-296 | a canonical creation of an acceptable name with a body holding `print(` is accepted |
| Nodes.QuotedNameRejected | vibe-terminal/vibe-terminal/agent/nodes.py:243-258 | a name ending in `"` is rejected |
| Nodes.PromptExampleRejected | vibe-terminal/vibe-terminal/agent/nodes.py:243-258 | as written: the prompt's own example `cat > "hello.py" …` is rejected |
| Nodes.CanonicalCreationValidUnquoted | vibe-terminal/vibe-terminal/agent/nodes.py:220-296 | corrected: with the quotes stripped from the name, a canonical creation of an acceptable name is accepted |
| Nodes.PromptExampleAccepted | vibe-terminal/vibe-terminal/agent/nodes.py:55-75 | corrected: the prompt's example is accepted once the quotes are stripped |
| Nodes.PromptExampleValid | vibe-terminal/vibe-terminal/agent/nodes.py:55-75 | the quoted name and `print` body of the prompt's example pass the corrected validation |
| Nodes.PrintCallBody | vibe-terminal/vibe-terminal/agent/nodes.py:276-282 | a one-line `print(…)` body is a plain, stripped body holding `print(` |
| Nodes.FencedBlocks | vibe-terminal/vibe-terminal/agent/nodes.py:316-333 | no fence gives no blocks; every block is stripped |
| Nodes.ParseCommands | vibe-terminal/vibe-terminal/agent/nodes.py:299-344 | the extracted commands are the fenced blocks of the raw reply; nothing else in the state changes |
| Nodes.BlockBody | vibe-terminal/vibe-terminal/agent/nodes.py:316-333 | a block of safe text ends at its closing fence |
| Nodes.BlockStep | vibe-terminal/vibe-terminal/agent/nodes.py:316-333 | a reply prefix, a bash block and the rest give that block and then the rest's blocks |
| Nodes.ReplyRoundTrip | vibe-terminal/vibe-terminal/agent/nodes.py:316-333 | a reply made of bash blocks parses back to exactly its commands |
| Nodes.WordRun | vibe-terminal/vibe-terminal/agent/nodes.py:357 | the longest run of word characters from a position |
| Nodes.MentionAt | vibe-terminal/vibe-terminal/agent/nodes.py:357 | a match at a position is a dotted name `\w+\.\w+` |
| Nodes.SearchFrom | vibe-terminal/vibe-terminal/agent/nodes.py:357 | the first match from a position is a dotted name |
| Nodes.RequestedFilename | vibe-terminal/vibe-terminal/agent/nodes.py:354-367 | a name is found only when the lowered query asks to "create a file", and it is a dotted name |
| Nodes.WordRunExact | vibe-terminal/vibe-terminal/agent/nodes.py:357 | a word run ending at a non-word character has exactly that length |
| Nodes.SearchFinds | vibe-terminal/vibe-terminal/agent/nodes.py:357 | the search returns the first position with a match |
| Nodes.DottedRuns | vibe-terminal/vibe-terminal/agent/nodes.py:357 | `n.e` followed by a non-word character matches as the two word runs |
| Nodes.MentionMatches | vibe-terminal/vibe-terminal/agent/nodes.py:357 | `file called n.e` at a position matches there with `n.e` |
| Nodes.MentionFound | vibe-terminal/vibe-terminal/agent/nodes.py:357 | a text containing `file called n.e` yields `n.e` |
| Nodes.CreateRequest | vibe-terminal/vibe-terminal/agent/nodes.py:354-367 | `create a file called n.e` yields the name `n.e` |
| Nodes.DottedNamePlain | vibe-terminal/vibe-terminal/agent/nodes.py:357 | a matched name is a plain file name |
| Nodes.DefaultCommandValid | vibe-terminal/vibe-terminal/agent/nodes.py:361-367 | the default command for a `.py` name passes the validator |
| Nodes.DefaultCommand | vibe-terminal/vibe-terminal/agent/nodes.py:361-367 | the fallback heredoc writing `print("hello sadain")` to the requested name (`DefaultCommandCreates`) |
| Nodes.RequestedCommandValid | vibe-terminal/vibe-terminal/agent/nodes.py:354-367 | the default command for a requested `.py` name passes the validator |
| Nodes.DefaultCommandCreates | vibe-terminal/vibe-terminal/agent/nodes.py:361-367 | the default command names the requested file and has the body `print("hello sadain")` |
| Nodes.RecordOf | vibe-terminal/vibe-terminal/agent/nodes.py:371-398 | the record of one command: success exactly for exit code 0, with the output passed through; an exception gives code -1 and its message |
| Nodes.Records | vibe-terminal/vibe-terminal/agent/nodes.py:371-401 | one record per command, in order, the k-th built from how the k-th run ended |
| Nodes.CommandsToRun | vibe-terminal/vibe-terminal/agent/nodes.py:354-367 | the extracted commands, or the default creation of the requested file when there are none |
| Nodes.ExecuteParsedCommands | vibe-terminal/vibe-terminal/agent/nodes.py:347-418 | the commands are those to run and the results are their records, one per run in order; nothing else in the state changes |
| Nodes.RecordAll | vibe-terminal/vibe-terminal/agent/nodes.py:371-401 | the loop appends, for the k-th command, the record of how its k-th run ended: the result is `Records` of the commands and outcomes |
| Nodes.RecordsReportExitCodes | vibe-terminal/vibe-terminal/agent/nodes.py:371-398 | the k-th record is for the k-th command and succeeded exactly when its run returned 0 |
| Nodes.InvokeChatShortcut | vibe-terminal/vibe-terminal/agent/nodes.py:473-495 | an empty query raises; a requested file sets the single default command; otherwise the state is unchanged |
| Nodes.NatToString | vibe-terminal/vibe-terminal/agent/nodes.py:441-442 | the decimal text of a number is not empty |
| Nodes.NatToStringValue | vibe-terminal/vibe-terminal/agent/nodes.py:441-442 | the text is decimal and reads back as the number |
| Nodes.ResultBlockShape | vibe-terminal/vibe-terminal/agent/nodes.py:441-451 | a result's block is its numbered command line, then the output or error lines |
| Nodes.ResultBlock | vibe-terminal/vibe-terminal/agent/nodes.py:441-451 | the lines `format_final_output` appends for one result (shape stated by `ResultBlockShape`) |
| Nodes.NumberedAppend | vibe-terminal/vibe-terminal/agent/nodes.py:441-451 | one more result adds its block, numbered next, at the end |
| Nodes.NumberedAt | vibe-terminal/vibe-terminal/agent/nodes.py:441-451 | the k-th result's block sits between the blocks before and after it, numbered k+1 |
| Nodes.ResultPartsAppend | vibe-terminal/vibe-terminal/agent/nodes.py:439-451 | the same for the report's blocks |
| Nodes.ResultNumbered | vibe-terminal/vibe-terminal/agent/nodes.py:439-451 | the k-th result appears in the report with number k+1 |
| Nodes.BlockNotNote | vibe-terminal/vibe-terminal/agent/nodes.py:439-455 | no result block is the "no commands" note |
| Nodes.PartsNotNote | vibe-terminal/vibe-terminal/agent/nodes.py:439-455 | no part of the numbered blocks is the note |
| Nodes.OutputParts | vibe-terminal/vibe-terminal/agent/nodes.py:433-458 | the query line comes first when there is a query; the "no commands" note appears exactly when there are no results |
| Nodes.BuildOutputParts | vibe-terminal/vibe-terminal/agent/nodes.py:433-458 | the loop builds the report's parts |
| Nodes.FormatFinalOutput | vibe-terminal/vibe-terminal/agent/nodes.py:421-458 | outside agent mode the output is the raw reply; in agent mode it is the parts joined by newlines; nothing else changes |
| Cli.PosixJoin | vibe-terminal/vibe-terminal/cli.py:126-127 | an absolute path wins; otherwise the result starts with the base, ends with the path, with a `/` between |
| Cli.Absolute | vibe-terminal/vibe-terminal/cli.py:126-127 | an absolute path is kept, a relative one is joined to the directory |
| Cli.CallbackContext.constructor | vibe-terminal/vibe-terminal/cli.py:47-76 | the context holds the remaining arguments |
| Cli.LeadingPathArgs | vibe-terminal/vibe-terminal/cli.py:61-65 | the number of arguments before the first option, none of them an option |
| Cli.Unquoted | vibe-terminal/vibe-terminal/cli.py:52-53 | the value without its first and last character |
| Cli.ParsedPath | vibe-terminal/vibe-terminal/cli.py:47-76 | nothing exactly for a missing or empty value; the arguments are either unchanged or lose exactly their leading path parts |
| Cli.RemoveFirst | vibe-terminal/vibe-terminal/cli.py:70-72 | `list.remove`: one occurrence fewer, or unchanged when absent |
| Cli.ParseFilePath | vibe-terminal/vibe-terminal/cli.py:47-76 | the returned path and the arguments left are those of the parse |
| Cli.ConsumedArgs | vibe-terminal/vibe-terminal/cli.py:67-74 | the consumed arguments followed by what is left are the old arguments |
| Cli.PathReassembled | vibe-terminal/vibe-terminal/cli.py:61-74 | a path given as words before an option is joined back and consumed when it exists |
| Cli.LeadingOfWords | vibe-terminal/vibe-terminal/cli.py:61-65 | the leading non-option arguments of words then an option are the words |
| Cli.CommandFilePath | vibe-terminal/vibe-terminal/cli.py:119-127 | an IndexError exactly when the first line has no `cat >`; otherwise the stripped, unquoted, absolute path |
| Cli.CreationFilePath | vibe-terminal/vibe-terminal/cli.py:216-220 | a canonical creation of a relative name reports that name under the directory |
| Cli.QuotedFilePath | vibe-terminal/vibe-terminal/cli.py:122-123 | `cat > 'f'` and `cat > f` name the same file |
| Cli.KeptLines | vibe-terminal/vibe-terminal/cli.py:287-291 | no kept line is an `EOF` line, and there are no more than the input lines |
| Cli.KeptFromLines | vibe-terminal/vibe-terminal/cli.py:287-291 | every kept line is one of the input lines |
| Cli.KeptAll | vibe-terminal/vibe-terminal/cli.py:287-291 | with no `EOF` line among them, every line is kept, in order |
| Cli.KeepLines | vibe-terminal/vibe-terminal/cli.py:287-291 | the cleaning loop keeps exactly the lines `KeptLines` names |
| Cli.CleanedContent | vibe-terminal/vibe-terminal/cli.py:287-294 | the written text has no outer whitespace |
| Cli.KeptStep | vibe-terminal/vibe-terminal/cli.py:289-291 | one more line is kept unless it is an `EOF` line |
| Cli.CleanFileContent | vibe-terminal/vibe-terminal/cli.py:287-294 | the cleaning loop computes the cleaned text |
| Cli.ClosedBodyStripped | vibe-terminal/vibe-terminal/cli.py:287 | a stripped body followed by `EOF` stays stripped |
| Cli.ClosedBodyLines | vibe-terminal/vibe-terminal/cli.py:287 | the lines of a body and a final line are the body's lines and that line |
| Cli.CleanedDropsClose | vibe-terminal/vibe-terminal/cli.py:287-294 | a body without `EOF` lines, followed by `EOF`, is cleaned back to the body |
| Cli.KeptDropsLast | vibe-terminal/vibe-terminal/cli.py:289-291 | a final `EOF` line is the only line dropped |
| Cli.ProcessCommand | vibe-terminal/vibe-terminal/cli.py:332-370 | runs the shell exactly when the command is not a creation; a creation whose split is not two parts is invalid; a written text is stripped |
| Cli.CreationParts | vibe-terminal/vibe-terminal/cli.py:336 | a canonical creation splits on the marker into the header text and the body with its closer |
| Cli.HeaderName | vibe-terminal/vibe-terminal/cli.py:346 | the header text without `cat >`, stripped, is the name |
| Cli.BodyText | vibe-terminal/vibe-terminal/cli.py:352 | the body text loses only its leading newline |
| Cli.ProcessCreation | vibe-terminal/vibe-terminal/cli.py:332-360 | a canonical creation writes exactly the body to the name under the directory |
| Cli.ExecuteParsedCommands | vibe-terminal/vibe-terminal/cli.py:303-330 | no commands leave the state unchanged; otherwise every command is processed in order and recorded as `executed` |
| Cli.ShellFor | vibe-terminal/vibe-terminal/cli.py:316 | `zsh` for the `darwin` platform, `bash` otherwise |
| TerminalDemo.StepsNonEmpty | frontend/src/components/TerminalDemo.tsx:5-12 | every scripted line has a character, so its typing ends |
| TerminalDemo.TypedLine.constructor | frontend/src/components/TerminalDemo.tsx:15-23 | the hook starts with nothing shown and typing running exactly when asked |
| TerminalDemo.TypedLine.Restart | frontend/src/components/TerminalDemo.tsx:17-24 | new inputs clear the text and restart typing exactly when asked |
| TerminalDemo.TypedLine.Tick | frontend/src/components/TerminalDemo.tsx:24-31 | one tick shows the next character; `onDone` fires exactly on the tick that finishes the line |
| TerminalDemo.TypeWholeLine | frontend/src/components/TerminalDemo.tsx:15-36 | a line of length n is fully shown after n ticks, with `onDone` fired once |
| TerminalDemo.Demo.constructor | frontend/src/components/TerminalDemo.tsx:38-46 | the first render types step 0 with one empty line shown |
| TerminalDemo.Demo.Tick | frontend/src/components/TerminalDemo.tsx:44-66 | a tick types the current step; a finished step that has a successor schedules the pause |
| TerminalDemo.Demo.PauseElapsed | frontend/src/components/TerminalDemo.tsx:51-53 | the pause moves to the next step, which starts typing on an empty line after the finished ones |
| TerminalDemo.Demo.ShowsCursor | frontend/src/components/TerminalDemo.tsx:97 | only the line being typed shows the cursor, and only while characters remain |
| TerminalDemo.PlayToEnd | frontend/src/components/TerminalDemo.tsx:38-72 | the demo, played out, shows every scripted line in full and stops on the last |
| TerminalDemo.LastStepFinal | frontend/src/components/TerminalDemo.tsx:50 | no pause follows the last step |
| TerminalDemo.FinishedStepShown | frontend/src/components/TerminalDemo.tsx:61-64 | every step before the current one is shown in full |

## Left out

- The LLM call (`generate_response`, `invoke_chat` after its file-name shortcut, `get_llm_instance`): model output is an input string.
- Subprocess execution, the file system, the environment, the clock: parameters (process result, path-existence function, read and write outcomes, timestamps).
- Console printing, colours, voice input and output (`voice_handler.py`), the LangGraph runtime itself: not behaviour the core computes.
- `main` in `cli.py` beyond the path extraction for undo and reporting: its option handling and the history-adding loop are glue around the modelled operations.
- The file-existence check that `execute_parsed_commands` in `nodes.py` prints after running: it only prints.
- The exception path of `format_final_output` (an error message as output): no modelled step raises there.
- `os.path.join` and `os.path.isabs` follow POSIX only; Windows drive-letter paths are not modelled.
- `str.lower()` is ASCII-only; `\w` in the file-name regex is ASCII `[A-Za-z0-9_]`.
- The regexes are hand-written scanners that match what the two patterns match; the `re` engine is not modelled.
- `get_history` returns the list object itself, so callers alias it; the model returns a value.
- A missing `"output"` key in a result dictionary reads as the empty string.
- React's batching and the order of deferred state updates: each timer callback is one atomic method, and the cleanup of a cancelled interval is not modelled.
- Cli.CleanedContent: states only that the written text is stripped, not that it has no `EOF` line after the final strip and re-split.
- Nodes.ValidateFileCreationCommand: the checks that return the same verdict are folded into one predicate, and the printed diagnostics are dropped.
- TerminalDemo.Demo.constructor: the source allows an empty script (`stepIndex < terminalSteps.length` guards typing); the model takes the fixed, non-empty script.

## Findings

| source | as written | input that shows it | evidently intended | confidence | as-written member | corrected member |
|---|---|---|---|---|---|---|
| vibe-terminal/vibe-terminal/agent/tools.py:46-58 | the body scan starts at `lines[1:]`, so the opening `<< 'EOF'` on the first line is never seen and no body line is collected | `cat > hello.py << 'EOF'\nprint("hi")\nEOF` writes `hello.py` empty | the body between the header and `EOF` is written | not executed | Tools.CreationWritesEmptyAsWritten | Tools.CreationWritesBody |
| vibe-terminal/vibe-terminal/command_translator.py:58-66 | the same `lines[1:]` scan, so a heredoc is translated with an empty body | `cat > hello.py << 'EOF'\nprint("hi")\nEOF` on Windows gives `Set-Content -Path "hello.py" -Value @""@` | the body is carried into the translated command | not executed | Translator.CreationTranslatedAsWritten | Translator.CreationTranslated |
| vibe-terminal/vibe-terminal/agent/nodes.py:243-258 | the file name keeps its quotes and must end in `.py`, so the quoted form the system prompt requires is rejected | `cat > "hello.py" << 'EOF'\nprint("hello world")\nEOF` | the quoted name from the prompt's example is accepted | not executed | Nodes.PromptExampleRejected | Nodes.PromptExampleAccepted |
