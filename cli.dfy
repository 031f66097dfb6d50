/**
 * The command-line helpers of `cli.py`: the reassembly of an unquoted file path from the
 * remaining arguments, the path a file-creation command names (for undo and for the report),
 * the cleaning of a file body before it is written, the split of a command into a file write or
 * a shell run, and the result list the command-line `execute_parsed_commands` builds.
 */
module Cli {
  import opened Wrappers
  import opened PyStrings
  import opened Heredoc
  import Nodes

  // ---------------------------------------------------------------------------------------
  // POSIX paths

  /** `os.path.isabs(path)` on POSIX. */
  predicate IsAbs(path: string) {
    StartsWith(path, "/")
  }

  /** `os.path.join(base, path)` on POSIX, for two components. */
  function PosixJoin(base: string, path: string): (r: string)
    ensures IsAbs(path) ==> r == path
    ensures !IsAbs(path) ==> StartsWith(r, base) && EndsWith(r, path) && |r| <= |base| + 1 + |path|
    ensures !IsAbs(path) && base != [] ==> EndsWith(r[..|r| - |path|], "/")
  {
    if IsAbs(path) then path
    else if base == [] || EndsWith(base, "/") then base + path
    else base + "/" + path
  }

  /** The path made absolute the way `cli.py` does: kept when absolute, joined to `cwd` otherwise. */
  function Absolute(cwd: string, path: string): (r: string)
    ensures IsAbs(path) ==> r == path
    ensures !IsAbs(path) ==> r == PosixJoin(cwd, path)
  {
    if IsAbs(path) then path else PosixJoin(cwd, path)
  }

  // ---------------------------------------------------------------------------------------
  // parse_file_path

  /** The part of Typer's callback context `parse_file_path` uses: the extra arguments, a list it edits in place. */
  class CallbackContext {
    var args: seq<string>

    constructor (args: seq<string>)
      ensures this.args == args
    {
      this.args := args;
    }
  }

  /** The number of leading arguments that do not start with `-`: the candidate path parts. */
  function LeadingPathArgs(args: seq<string>): (n: nat)
    ensures n <= |args|
    ensures forall j :: 0 <= j < n ==> !StartsWith(args[j], "-")
    ensures n < |args| ==> StartsWith(args[n], "-")
    decreases |args|
  {
    if args == [] || StartsWith(args[0], "-") then 0 else 1 + LeadingPathArgs(args[1..])
  }

  /** `value[1:-1]` */
  function Unquoted(v: string): (r: string)
    ensures |v| >= 2 ==> v == v[..1] + r + v[|v| - 1..]
    ensures |v| < 2 ==> r == ""
  {
    if |v| >= 2 then v[1..|v| - 1] else ""
  }

  /**
   * What `parse_file_path` returns and what it leaves in `ctx.args`: nothing for a missing or
   * empty value; the inside of a double-quoted value; the value itself when there are no extra
   * arguments; otherwise the leading non-option arguments joined with spaces, consumed from the
   * arguments, when that path exists, and the value when it does not.
   */
  function ParsedPath(args: seq<string>, value: Option<string>, pathExists: string -> bool): (res: (Option<string>, seq<string>))
    ensures res.0.None? <==> value.None? || value == Some("")
    ensures res.1 == args || (res.1 == args[LeadingPathArgs(args)..] && LeadingPathArgs(args) > 0)
    ensures res.1 != args ==>
      res.0 == Some(Join(" ", args[..LeadingPathArgs(args)])) && pathExists(res.0.value)
  {
    match value
    case None => (None, args)
    case Some(v) =>
      if v == "" then (None, args)
      else if StartsWith(v, "\"") && EndsWith(v, "\"") then (Some(Unquoted(v)), args)
      else if args == [] then (Some(v), args)
      else
        var n := LeadingPathArgs(args);
        var path := Join(" ", args[..n]);
        if n > 0 && pathExists(path) then (Some(path), args[n..]) else (Some(v), args)
  }

  /** `list.remove(x)`: the list without the first occurrence of `x`. */
  function RemoveFirst(xs: seq<string>, x: string): (r: seq<string>)
    ensures x !in xs ==> r == xs
    ensures x in xs ==> |r| == |xs| - 1 && multiset(r) + multiset{x} == multiset(xs)
    ensures xs != [] && xs[0] == x ==> r == xs[1..]
  {
    if xs == [] then []
    else if xs[0] == x then
      assert xs == [xs[0]] + xs[1..];
      xs[1..]
    else
      assert xs == [xs[0]] + xs[1..];
      [xs[0]] + RemoveFirst(xs[1..], x)
  }

  /** `parse_file_path(ctx, param, value)`, with `os.path.exists` as `pathExists`. */
  method ParseFilePath(ctx: CallbackContext, value: Option<string>, pathExists: string -> bool) returns (r: Option<string>)
    modifies ctx
    ensures (r, ctx.args) == ParsedPath(old(ctx.args), value, pathExists)
  {
    if value.None? || value.value == "" {
      return None;
    }
    var v := value.value;
    if StartsWith(v, "\"") && EndsWith(v, "\"") {
      return Some(Unquoted(v));
    }
    var args := ctx.args;
    if args == [] {
      return value;
    }
    var parts: seq<string> := [];
    var i := 0;
    while i < |args| && !StartsWith(args[i], "-")
      invariant 0 <= i <= |args| && i <= LeadingPathArgs(args)
      invariant parts == args[..i]
      decreases |args| - i
    {
      parts := parts + [args[i]];
      i := i + 1;
    }
    assert i == LeadingPathArgs(args);
    if parts != [] {
      var path := Join(" ", parts);
      if pathExists(path) {
        var k := 0;
        while k < |parts|
          invariant 0 <= k <= |parts|
          invariant ctx.args == args[k..]
        {
          if parts[k] in ctx.args {
            ctx.args := RemoveFirst(ctx.args, parts[k]);
          }
          k := k + 1;
        }
        return Some(path);
      }
    }
    return value;
  }

  /** The arguments `parse_file_path` consumes are the path's parts: they and what is left make up the old arguments. */
  lemma ConsumedArgs(args: seq<string>, value: Option<string>, pathExists: string -> bool)
    ensures var n := LeadingPathArgs(args);
      ParsedPath(args, value, pathExists).1 == args ||
      (args[..n] + ParsedPath(args, value, pathExists).1 == args &&
       ParsedPath(args, value, pathExists).0 == Some(Join(" ", args[..n])))
  {
    var n := LeadingPathArgs(args);
    assert args[..n] + args[n..] == args;
  }

  /** A path written as words, followed by an option, is reassembled and consumed when it exists. */
  lemma {:induction false} PathReassembled(words: seq<string>, rest: seq<string>, v: string, pathExists: string -> bool)
    requires words != [] && forall j :: 0 <= j < |words| ==> !StartsWith(words[j], "-")
    requires rest == [] || StartsWith(rest[0], "-")
    requires v != "" && !(StartsWith(v, "\"") && EndsWith(v, "\""))
    requires pathExists(Join(" ", words))
    ensures ParsedPath(words + rest, Some(v), pathExists) == (Some(Join(" ", words)), rest)
  {
    LeadingOfWords(words, rest);
    var args := words + rest;
    assert args[..|words|] == words && args[|words|..] == rest;
  }

  /** The leading non-option arguments of `words + rest` are `words`. */
  lemma {:induction false} LeadingOfWords(words: seq<string>, rest: seq<string>)
    requires forall j :: 0 <= j < |words| ==> !StartsWith(words[j], "-")
    requires rest == [] || StartsWith(rest[0], "-")
    ensures LeadingPathArgs(words + rest) == |words|
    decreases |words|
  {
    if words == [] {
      assert words + rest == rest;
    } else {
      assert (words + rest)[1..] == words[1..] + rest;
      LeadingOfWords(words[1..], rest);
    }
  }

  // ---------------------------------------------------------------------------------------
  // The path of a file-creation command, for undo and for the report after a run

  /** The characters `strip('"\'')` removes. */
  const QuoteChars: set<char> := {'"', '\''}

  /**
   * The path `main` takes from a file-creation command when undoing it or reporting it: the
   * first line's text between `cat >` and `<<`, stripped of whitespace and then of quotes, and
   * made absolute. An IndexError when the first line has no `cat >`.
   */
  function CommandFilePath(command: string, cwd: string): (r: Outcome<string>)
    ensures r.Raised? <==> !Contains(Lines(command)[0], "cat >")
    ensures r.Returned? ==> r.value == Absolute(cwd, StripChars(PathBetween(Lines(command)[0]).value, QuoteChars))
  {
    match PathBetween(Lines(command)[0])
    case Raised(e) => Raised(e)
    case Returned(p) => Returned(Absolute(cwd, StripChars(p, QuoteChars)))
  }

  /** The path of a canonical creation of a relative, unquoted name is that name under `cwd`. */
  lemma CreationFilePath(f: string, c: string, cwd: string)
    requires PlainName(f) && !IsAbs(f) && f[0] !in QuoteChars && f[|f| - 1] !in QuoteChars
    ensures CommandFilePath(UnixCreation(f, c), cwd) == Returned(PosixJoin(cwd, f))
  {
    CreationLines(f, c);
    CreationPath(f);
    StripNoop(f, QuoteChars);
  }

  /** The quotes around a name are dropped: `cat > 'NAME'` and `cat > NAME` name the same file. */
  lemma QuotedFilePath(f: string, c: string, cwd: string)
    requires PlainName(f) && !IsAbs(f) && f[0] !in QuoteChars && f[|f| - 1] !in QuoteChars
    ensures CommandFilePath(UnixCreation("'" + f + "'", c), cwd) == Returned(PosixJoin(cwd, f))
  {
    var q := "'" + f + "'";
    assert q[0] == '\'' && q[|q| - 1] == '\'';
    assert q[1..|q| - 1] == f;
    assert forall j :: 0 <= j < |q| ==> q[j] == '\'' || q[j] in f;
    assert PlainName(q);
    CreationLines(q, c);
    CreationPath(q);
    StripPadded("'", f, "'", QuoteChars);
    assert "'" + f + "'" == q;
    assert !IsAbs(f);
  }

  // ---------------------------------------------------------------------------------------
  // create_file_with_content: the body cleaning

  /** The lines the cleaning loop keeps: those whose strip is not `EOF`, in order. */
  function KeptLines(lines: seq<string>): (kept: seq<string>)
    ensures |kept| <= |lines|
    ensures forall k :: 0 <= k < |kept| ==> !IsEofLine(kept[k])
    decreases |lines|
  {
    if lines == [] then []
    else
      var last := lines[|lines| - 1];
      var rest := KeptLines(lines[..|lines| - 1]);
      if IsEofLine(last) then rest else rest + [last]
  }

  /** Every kept line is one of the input lines. */
  lemma {:induction false} KeptFromLines(lines: seq<string>)
    ensures forall x :: x in KeptLines(lines) ==> x in lines
    decreases |lines|
  {
    if lines != [] {
      var init := lines[..|lines| - 1];
      KeptFromLines(init);
      assert forall x :: x in init ==> x in lines;
    }
  }

  /** Lines none of which is an `EOF` line are all kept. */
  lemma {:induction false} KeptAll(lines: seq<string>)
    requires forall k :: 0 <= k < |lines| ==> !IsEofLine(lines[k])
    ensures KeptLines(lines) == lines
    decreases |lines|
  {
    if lines != [] {
      var init := lines[..|lines| - 1];
      KeptAll(init);
      assert init + [lines[|lines| - 1]] == lines;
    }
  }

  /** The text `create_file_with_content` writes for `content`. */
  function CleanedContent(content: string): (r: string)
    ensures Strip(r) == r
  {
    var text := Strip(Join("\n", KeptLines(Split(Strip(content), "\n"))));
    StripIdempotent(Join("\n", KeptLines(Split(Strip(content), "\n"))));
    text
  }

  /** One more line is kept unless it is an `EOF` line. */
  lemma KeptStep(lines: seq<string>, i: nat)
    requires i < |lines|
    ensures KeptLines(lines[..i + 1]) ==
      if IsEofLine(lines[i]) then KeptLines(lines[..i]) else KeptLines(lines[..i]) + [lines[i]]
  {
    assert lines[..i + 1][..i] == lines[..i];
  }

  /** The cleaning loop of `create_file_with_content`: the lines whose strip is not `EOF`. */
  method KeepLines(lines: seq<string>) returns (kept: seq<string>)
    ensures kept == KeptLines(lines)
  {
    kept := [];
    var i := 0;
    while i < |lines|
      invariant 0 <= i <= |lines|
      invariant kept == KeptLines(lines[..i])
    {
      KeptStep(lines, i);
      if !IsEofLine(lines[i]) {
        kept := kept + [lines[i]];
      }
      i := i + 1;
    }
    assert lines[..|lines|] == lines;
  }

  /** The body cleaning of `create_file_with_content`. */
  method CleanFileContent(content: string) returns (cleaned: string)
    ensures cleaned == CleanedContent(content)
  {
    var lines := Split(Strip(content), "\n");
    var kept := KeepLines(lines);
    cleaned := Strip(Join("\n", kept));
  }

  /** A stripped non-empty body followed by a closing line is stripped. */
  lemma ClosedBodyStripped(c: string)
    requires c != [] && Strip(c) == c
    ensures Strip(c + "\nEOF") == c + "\nEOF"
  {
    var t := c + "\nEOF";
    assert t[0] == c[0] && t[|t| - 1] == 'F';
    assert c[0] !in Whitespace by {
      assert StripChars(c, Whitespace) == c;
    }
    StripNoop(t, Whitespace);
  }

  /** The lines of a body followed by a line `e` are the body's lines and `e`. */
  lemma ClosedBodyLines(c: string, e: string)
    requires '\n' !in e
    ensures Split(c + "\n" + e, "\n") == Split(c, "\n") + [e]
  {
    SplitConcatChar(c, '\n', e);
    ContainsChar(e, '\n');
  }

  /** The closing line written as one literal or as a newline and `EOF`. */
  lemma CloseLiteral(c: string)
    ensures c + "\nEOF" == c + "\n" + "EOF"
  {
    var t, u := c + "\nEOF", c + "\n" + "EOF";
    assert |t| == |u|;
    forall i | 0 <= i < |t| ensures t[i] == u[i] {
      if i >= |c| {
        assert t[i] == "\nEOF"[i - |c|];
      }
    }
  }

  /** A body without `EOF` lines followed by a closing `EOF` line is cleaned back to the body. */
  lemma CleanedDropsClose(c: string)
    requires c != [] && Strip(c) == c
    requires forall k :: 0 <= k < |Split(c, "\n")| ==> !IsEofLine(Split(c, "\n")[k])
    ensures CleanedContent(c + "\nEOF") == c
  {
    var t := c + "\nEOF";
    CloseLiteral(c);
    ClosedBodyStripped(c);
    ClosedBodyLines(c, "EOF");
    var lines := Split(c, "\n");
    var all := Split(t, "\n");
    assert all == lines + ["EOF"];
    EofCloses();
    KeptDropsLast(lines, "EOF");
    assert KeptLines(all) == lines;
    assert CleanedContent(t) == Strip(Join("\n", lines));
  }

  /** Dropping a final `EOF` line from lines that have no other. */
  lemma KeptDropsLast(lines: seq<string>, close: string)
    requires IsEofLine(close)
    requires forall k :: 0 <= k < |lines| ==> !IsEofLine(lines[k])
    ensures KeptLines(lines + [close]) == lines
  {
    assert (lines + [close])[..|lines|] == lines;
    KeptAll(lines);
  }

  // ---------------------------------------------------------------------------------------
  // process_command

  /** What `process_command` does with one command. */
  datatype CliAction =
    | InvalidFormat                         // prints "Invalid command format"
    | WriteFile(path: string, text: string) // create_file_with_content(path, ...)
    | RunShell(command: string, shell: string)

  /** The file-creation test of `process_command`. */
  predicate CreatesFile(command: string) {
    Contains(command, "cat >") && Contains(command, OpenMarker)
  }

  /**
   * `process_command(command, shell)` in the directory `cwd`: a command holding `cat >` and
   * `<< 'EOF'` is split on `<< 'EOF'`; with exactly two parts, the path is the first part
   * without `cat >`, stripped and made absolute, and the text is the cleaned second part.
   */
  function ProcessCommand(command: string, shell: string, cwd: string): (a: CliAction)
    ensures a.RunShell? <==> !CreatesFile(command)
    ensures a.RunShell? ==> a == RunShell(command, shell)
    ensures a == InvalidFormat <==> CreatesFile(command) && |Split(command, OpenMarker)| != 2
    ensures a.WriteFile? ==> Strip(a.text) == a.text
  {
    if CreatesFile(command) then
      var parts := Split(command, OpenMarker);
      if |parts| != 2 then InvalidFormat
      else WriteFile(Absolute(cwd, Strip(Replace(parts[0], "cat >", ""))), CleanedContent(Strip(parts[1])))
    else RunShell(command, shell)
  }

  /** The canonical creation splits on its marker into the header text and the body with the closing line. */
  lemma CreationParts(f: string, c: string)
    requires PlainName(f) && !Contains(c, OpenMarker)
    ensures Split(UnixCreation(f, c), OpenMarker) == ["cat > " + f + " ", "\n" + c + "\nEOF"]
  {
    var a := "cat > " + f + " ";
    var b := "\n" + c + "\nEOF";
    var s := a + OpenMarker + b;
    assert UnixCreation(f, c) == s;
    assert OpenMarker[0] !in a;
    FirstAfterCharFree(a, OpenMarker, b);
    NotContainsFramed(c, OpenMarker, "EOF");
    assert ("\n" + c + "\n") + "EOF" == b;
    SplitAtFirst(a, OpenMarker, b);
  }

  /** The header text loses `cat >` and its spaces: the path is the name. */
  lemma HeaderName(f: string)
    requires PlainName(f)
    ensures Strip(Replace("cat > " + f + " ", "cat >", "")) == f
  {
    var b := " " + f + " ";
    assert "cat > " + f + " " == "" + "cat >" + b;
    assert '>' !in b;
    NotContainsByChar(b, "cat >", '>');
    IndexOfUnique("" + "cat >" + b, "cat >", 0);
    SplitAtFirst("", "cat >", b);
    assert Join("", ["", b]) == b;
    StripPadded(" ", f, " ", Whitespace);
  }

  /** The body text loses its leading newline: what is cleaned is the body and the closing line. */
  lemma BodyText(c: string)
    requires c != [] && Strip(c) == c
    ensures Strip("\n" + c + "\nEOF") == c + "\nEOF"
  {
    assert c[0] !in Whitespace && c[|c| - 1] !in Whitespace by {
      assert StripChars(c, Whitespace) == c;
    }
    var t := c + "\nEOF";
    assert t[0] == c[0] && t[|t| - 1] == 'F';
    assert "\n" + c + "\nEOF" == "\n" + t + "";
    StripPadded("\n", t, "", Whitespace);
  }

  /**
   * `process_command` writes a canonical creation `cat > NAME << 'EOF'` / BODY / `EOF` to NAME
   * under `cwd`, with BODY as the text, when NAME is relative and plain and BODY is stripped,
   * non-empty, without the marker and without `EOF` lines.
   */
  lemma ProcessCreation(f: string, c: string, shell: string, cwd: string)
    requires PlainName(f) && !IsAbs(f)
    requires c != [] && Strip(c) == c && !Contains(c, OpenMarker)
    requires forall k :: 0 <= k < |Split(c, "\n")| ==> !IsEofLine(Split(c, "\n")[k])
    ensures ProcessCommand(UnixCreation(f, c), shell, cwd) == WriteFile(PosixJoin(cwd, f), c)
  {
    var cmd := UnixCreation(f, c);
    CreationDetected(f, c);
    CreationParts(f, c);
    assert Contains(cmd, OpenMarker) by {
      assert |Split(cmd, OpenMarker)| == 2;
    }
    HeaderName(f);
    BodyText(c);
    CleanedDropsClose(c);
  }

  // ---------------------------------------------------------------------------------------
  // execute_parsed_commands of cli.py

  /** The shell `execute_parsed_commands` passes: `zsh` on macOS, `bash` elsewhere. */
  function ShellFor(platform: string): string {
    if platform == "darwin" then "zsh" else "bash"
  }

  /**
   * `execute_parsed_commands(state)` of `cli.py`: with no commands the state is unchanged;
   * otherwise every command is processed in order and recorded as `executed`, since
   * `process_command` reports its own errors and never raises. `actions` lists what each
   * `process_command` call does.
   */
  method ExecuteParsedCommands(state: Nodes.AgentState, platform: string, cwd: string) returns (actions: seq<CliAction>)
    modifies state
    ensures old(state.extractedCommands) == [] ==> state.commandExecutionResults == old(state.commandExecutionResults)
    ensures old(state.extractedCommands) != [] ==>
      |state.commandExecutionResults| == |state.extractedCommands| &&
      forall k :: 0 <= k < |state.extractedCommands| ==>
        state.commandExecutionResults[k] == Nodes.CliResult(state.extractedCommands[k], "executed", None)
    ensures |actions| == |state.extractedCommands|
    ensures forall k :: 0 <= k < |actions| ==> actions[k] == ProcessCommand(state.extractedCommands[k], ShellFor(platform), cwd)
    ensures state.extractedCommands == old(state.extractedCommands)
    ensures state.originalQuery == old(state.originalQuery) && state.llmResponseRaw == old(state.llmResponseRaw)
    ensures state.isAgentMode == old(state.isAgentMode) && state.finalOutput == old(state.finalOutput)
  {
    var commands := state.extractedCommands;
    actions := [];
    if commands == [] {
      return;
    }
    var results;
    actions, results := ProcessAll(commands, ShellFor(platform), cwd);
    state.commandExecutionResults := results;
  }

  /** The loop of `execute_parsed_commands`: each command is processed in order and recorded as `executed`. */
  method ProcessAll(commands: seq<string>, shell: string, cwd: string) returns (actions: seq<CliAction>, results: seq<Nodes.ExecRecord>)
    ensures |actions| == |commands| && |results| == |commands|
    ensures forall k :: 0 <= k < |commands| ==> results[k] == Nodes.CliResult(commands[k], "executed", None)
    ensures forall k :: 0 <= k < |commands| ==> actions[k] == ProcessCommand(commands[k], shell, cwd)
  {
    var process := command => ProcessCommand(command, shell, cwd);
    actions, results := [], [];
    var i := 0;
    while i < |commands|
      invariant 0 <= i <= |commands|
      invariant |results| == i && |actions| == i
      invariant forall k :: 0 <= k < i ==> results[k] == Nodes.CliResult(commands[k], "executed", None)
      invariant forall k :: 0 <= k < i ==> actions[k] == process(commands[k])
    {
      actions := actions + [process(commands[i])];
      results := results + [Nodes.CliResult(commands[i], "executed", None)];
      i := i + 1;
    }
  }
}
