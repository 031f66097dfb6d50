/**
 * The agent nodes of `agent/nodes.py`: the state the graph passes between nodes, the check
 * of a file-creation command, the extraction of fenced command blocks from the model's reply,
 * the default command built from a "create a file called NAME" request, the execution of the
 * commands (the process outcome is a parameter) and the formatting of the final output.
 */
module Nodes {
  import opened Wrappers
  import opened PyStrings
  import opened Heredoc

  /** One entry of `command_execution_results`: the dictionary `nodes.py` builds, or the one `cli.py` builds. */
  datatype ExecRecord =
    | NodeResult(command: string, success: bool, output: string, error: string, returnCode: int)
    | CliResult(command: string, status: string, cliError: Option<string>)

  /** `result.get("success", False)` */
  predicate Succeeded(r: ExecRecord) {
    r.NodeResult? && r.success
  }

  /** `result.get("output")`, with a missing key read as the empty string. */
  function OutputOf(r: ExecRecord): string {
    if r.NodeResult? then r.output else ""
  }

  /** `result.get("error")`, with a missing key read as the empty string. */
  function ErrorOf(r: ExecRecord): string {
    match r
    case NodeResult(_, _, _, error, _) => error
    case CliResult(_, _, e) => if e.Some? then e.value else ""
  }

  /** `AgentState`: the fields the modelled nodes read and write. */
  class AgentState {
    var originalQuery: string
    var llmResponseRaw: string
    var extractedCommands: seq<string>
    var commandExecutionResults: seq<ExecRecord>
    var isAgentMode: bool
    var finalOutput: string

    constructor (query: string, agentMode: bool)
      ensures originalQuery == query && isAgentMode == agentMode
      ensures llmResponseRaw == "" && extractedCommands == [] && commandExecutionResults == [] && finalOutput == ""
    {
      originalQuery := query;
      llmResponseRaw := "";
      extractedCommands := [];
      commandExecutionResults := [];
      isAgentMode := agentMode;
      finalOutput := "";
    }
  }

  // ---------------------------------------------------------------------------------------
  // validate_file_creation_command

  /** `print(` or `print ` occurs in `content`. */
  predicate HasPrint(content: string) {
    Contains(content, "print(") || Contains(content, "print ")
  }

  /** The file name checks: no `{` or `}`, and a `.py` ending. */
  predicate AcceptableName(filename: string) {
    '{' !in filename && '}' !in filename && EndsWith(filename, ".py")
  }

  /**
   * What `validate_file_creation_command` accepts: a non-blank command holding `cat >`, `<<`
   * and `EOF`, whose file name (read from the whole command) passes the name checks, and whose
   * heredoc body, scanned over every line, holds a print statement.
   */
  predicate ValidCreation(command: string) {
    Strip(command) != [] && IsFileCreation(command) &&
    AcceptableName(PathBetween(command).value) &&
    HasPrint(Content(Lines(command)))
  }

  /** The content step of `validate_file_creation_command`: every line scanned, the collected lines joined and stripped. */
  method ExtractContent(command: string) returns (content: string)
    ensures content == Content(Lines(command))
  {
    var lines := Lines(command);
    var contentLines := ScanEofFirst(lines);
    content := Strip(Join("\n", contentLines));
  }

  /** `validate_file_creation_command(command)` */
  method ValidateFileCreationCommand(command: string) returns (ok: bool)
    ensures ok == ValidCreation(command)
    ensures Strip(command) == [] ==> !ok
    ensures ok ==> IsFileCreation(command) && EndsWith(PathBetween(command).value, ".py")
  {
    if Strip(command) == [] {
      return false;
    }
    if !Contains(command, "cat >") || !Contains(command, "<<") || !Contains(command, "EOF") {
      return false;
    }
    var filename := PathBetween(command).value;
    if !AcceptableName(filename) {
      return false;
    }
    var content := ExtractContent(command);
    ok := HasPrint(content);
  }

  /** A canonical file creation of a `.py` file whose body prints passes validation. */
  lemma CanonicalCreationValid(f: string, c: string)
    requires PlainName(f) && AcceptableName(f)
    requires PlainBody(c) && HasPrint(Strip(c))
    ensures ValidCreation(UnixCreation(f, c))
  {
    var cmd := UnixCreation(f, c);
    CreationStripped(f, c);
    assert cmd[0] == 'c';
    CreationDetected(f, c);
    CreationPathWhole(f, c);
    CreationContent(f, c);
  }

  /** Any file name that ends in a quote fails the `.py` check, however the body reads. */
  lemma QuotedNameRejected(f: string, c: string)
    requires PlainName(f) && f[|f| - 1] == '"'
    ensures !ValidCreation(UnixCreation(f, c))
  {
    CreationPathWhole(f, c);
    assert !EndsWith(f, ".py") by {
      if |f| >= 3 {
        assert f[|f| - 3..][2] == '"';
      }
    }
  }

  /** The agent prompt's own example, `cat > "hello.py" << 'EOF'` / `print("hello world")` / `EOF`, is rejected. */
  lemma PromptExampleRejected()
    ensures !ValidCreation(UnixCreation("\"hello.py\"", "print(\"hello world\")"))
  {
    var f := "\"hello.py\"";
    PromptNamePlain(f);
    QuotedNameRejected(f, "print(\"hello world\")");
  }

  /** The quote characters `cli.py` strips from a file name. */
  const Quotes: set<char> := {'"', '\''}

  /** Validation as evidently intended: the name checks apply to the file name with its quotes stripped. */
  predicate ValidCreationUnquoted(command: string) {
    Strip(command) != [] && IsFileCreation(command) &&
    AcceptableName(StripChars(PathBetween(command).value, Quotes)) &&
    HasPrint(Content(Lines(command)))
  }

  /** A canonical file creation whose name, unquoted, ends in `.py` and whose body prints passes the corrected validation. */
  lemma CanonicalCreationValidUnquoted(f: string, c: string)
    requires PlainName(f) && AcceptableName(StripChars(f, Quotes))
    requires PlainBody(c) && HasPrint(Strip(c))
    ensures ValidCreationUnquoted(UnixCreation(f, c))
  {
    var cmd := UnixCreation(f, c);
    CreationStripped(f, c);
    assert cmd[0] == 'c';
    CreationDetected(f, c);
    CreationPathWhole(f, c);
    CreationContent(f, c);
  }

  /** A one-line body that starts with `print(` and ends with `)` is plain and holds a print statement. */
  lemma PrintCallBody(c: string)
    requires '\n' !in c && |c| >= 6 && c[..6] == "print(" && c[|c| - 1] == ')'
    ensures PlainBody(c) && Strip(c) == c && HasPrint(c)
  {
    ContainsChar(c, '\n');
    assert Split(c, "\n") == [c];
    StripNoop(c, Whitespace);
    assert c != "EOF" by {
      assert c[0] == 'p';
    }
    assert !EndsWith(c, OpenMarker) by {
      if |c| >= 8 {
        assert c[|c| - 8..][7] == ')';
      }
    }
    assert PlainLine(c);
    ContainsAt(c, "print(", 0);
  }

  /** The prompt's quoted file name is a plain name. */
  lemma PromptNamePlain(f: string)
    requires f == "\"hello.py\""
    ensures PlainName(f)
  {
    assert forall j :: 0 <= j < |f| ==> f[j] !in "\n<>";
  }

  /** The prompt's quoted file name, unquoted, is `hello.py`. */
  lemma PromptNameUnquoted(f: string)
    requires f == "\"hello.py\""
    ensures StripChars(f, Quotes) == "hello.py"
  {
    assert f == "\"" + "hello.py" + "\"";
    StripPadded("\"", "hello.py", "\"", Quotes);
  }

  /** `hello.py` passes the name checks. */
  lemma HelloPyAcceptable(name: string)
    requires name == "hello.py"
    ensures AcceptableName(name)
  {
    assert name[|name| - 3..] == ".py";
    assert '{' !in name && '}' !in name;
  }

  /** Under the corrected validation the prompt's own example is accepted. */
  lemma PromptExampleAccepted()
    ensures ValidCreationUnquoted(UnixCreation("\"hello.py\"", "print(\"hello world\")"))
  {
    PromptExampleValid("\"hello.py\"", "print(\"hello world\")");
  }

  /** The name and body of the prompt's example meet the premises of the corrected validation. */
  lemma PromptExampleValid(f: string, c: string)
    requires f == "\"hello.py\"" && c == "print(\"hello world\")"
    ensures ValidCreationUnquoted(UnixCreation(f, c))
  {
    PromptNameFacts(f);
    PromptBodyFacts(c);
    CanonicalCreationValidUnquoted(f, c);
  }

  /** The prompt's quoted name is a plain name that, unquoted, is acceptable. */
  lemma PromptNameFacts(f: string)
    requires f == "\"hello.py\""
    ensures PlainName(f) && AcceptableName(StripChars(f, Quotes))
  {
    PromptNamePlain(f);
    PromptNameUnquoted(f);
    HelloPyAcceptable(StripChars(f, Quotes));
  }

  /** The prompt's body is a plain line that prints. */
  lemma PromptBodyFacts(c: string)
    requires c == "print(\"hello world\")"
    ensures PlainBody(c) && HasPrint(Strip(c))
  {
    PrintCallBody(c);
  }

  // ---------------------------------------------------------------------------------------
  // parse_commands

  /** The fence that opens and closes a command block. */
  const Fence: string := "```"

  /** The text after an opening fence, without the optional `bash`. */
  function SkipBash(rest: string): (body: string)
    ensures |body| <= |rest|
  {
    if StartsWith(rest, "bash") then rest[4..] else rest
  }

  /**
   * One match of `r'```(?:bash)?\s*(.*?)\s*```'` with `re.DOTALL`, searched from the start of
   * `s`: from the first fence, an optional `bash` is skipped; the block then runs to the next
   * fence. The result pairs that text with the text after the closing fence. An opening fence
   * without a closing one gives no match.
   */
  function FirstBlock(s: string): (r: Option<(string, string)>)
    ensures !Contains(s, Fence) ==> r.None?
    ensures r.Some? ==> |r.value.1| < |s|
  {
    match IndexOf(s, Fence)
    case None => None
    case Some(i) =>
      var body := SkipBash(s[i + 3..]);
      match IndexOf(body, Fence)
      case None => None
      case Some(k) => Some((body[..k], body[k + 3..]))
  }

  /**
   * `re.findall(r'```(?:bash)?\s*(.*?)\s*```', s, re.DOTALL)`: the first match, then the
   * matches in the text after it. The captured group is the matched text without its leading
   * and trailing whitespace (the greedy `\s*` on either side of the lazy group). An opening
   * fence without a closing one ends the search, as no later match is possible.
   */
  function FencedBlocks(s: string): (blocks: seq<string>)
    ensures !Contains(s, Fence) ==> blocks == []
    ensures forall k :: 0 <= k < |blocks| ==> Strip(blocks[k]) == blocks[k]
    decreases |s|
  {
    match FirstBlock(s)
    case None => []
    case Some((text, rest)) =>
      StripIdempotent(text);
      [Strip(text)] + FencedBlocks(rest)
  }

  /** The loop of `parse_commands`: every block, stripped, in order. */
  method StripEach(blocks: seq<string>) returns (commands: seq<string>)
    ensures |commands| == |blocks|
    ensures forall k :: 0 <= k < |blocks| ==> commands[k] == Strip(blocks[k])
  {
    commands := [];
    var i := 0;
    while i < |blocks|
      invariant 0 <= i <= |blocks| && |commands| == i
      invariant forall k :: 0 <= k < i ==> commands[k] == Strip(blocks[k])
    {
      commands := commands + [Strip(blocks[i])];
      i := i + 1;
    }
  }

  /** `parse_commands(state)`: one stripped command per fenced block of the reply, none for an empty reply. */
  method ParseCommands(state: AgentState)
    modifies state
    ensures state.extractedCommands == FencedBlocks(old(state.llmResponseRaw))
    ensures state.originalQuery == old(state.originalQuery) && state.llmResponseRaw == old(state.llmResponseRaw)
    ensures state.commandExecutionResults == old(state.commandExecutionResults)
    ensures state.isAgentMode == old(state.isAgentMode) && state.finalOutput == old(state.finalOutput)
  {
    var response := state.llmResponseRaw;
    if response == [] {
      assert !Contains(response, Fence);
      state.extractedCommands := [];
      return;
    }
    var blocks := FencedBlocks(response);
    var commands := StripEach(blocks);
    assert commands == blocks;
    state.extractedCommands := commands;
  }

  /** A command written as a `bash` block, one newline inside each fence. */
  function BashBlock(c: string): string {
    Fence + "bash\n" + c + "\n" + Fence
  }

  /** A reply made of the commands as `bash` blocks, each on a new line. */
  function Reply(cmds: seq<string>): string {
    if cmds == [] then "" else "\n" + BashBlock(cmds[0]) + Reply(cmds[1..])
  }

  /** A command that fits in a block and comes back out of it unchanged. */
  predicate BlockSafe(c: string) {
    '`' !in c && Strip(c) == c
  }

  /** The body between `bash` and the closing fence of a block is the command with its two newlines. */
  lemma BlockBody(c: string, rest: string)
    requires BlockSafe(c)
    ensures var body := "\n" + c + "\n" + Fence + rest;
      IndexOf(body, Fence) == Some(|c| + 2) && Strip(body[..|c| + 2]) == c && body[|c| + 5..] == rest
  {
    var body := "\n" + c + "\n" + Fence + rest;
    var inner := "\n" + c + "\n";
    assert body == inner + (Fence + rest);
    assert OccursAt(body, Fence, |c| + 2);
    assert forall j :: 0 <= j < |inner| ==> inner[j] != '`' by {
      forall j | 0 <= j < |inner| ensures inner[j] != '`' {
        if 1 <= j <= |c| {
          assert inner[j] == c[j - 1];
          assert c[j - 1] in c;
        }
      }
    }
    forall j: nat | j < |c| + 2 ensures !OccursAt(body, Fence, j) {
      assert body[j..j + 3][0] == body[j] == inner[j];
    }
    IndexOfUnique(body, Fence, |c| + 2);
    assert body[..|c| + 2] == inner;
    if c == [] {
      StripBlank(inner);
    } else {
      StripPadded("\n", c, "\n", Whitespace);
    }
  }

  /** Prose without a backtick, a block and anything after: the block's command comes first. */
  lemma BlockStep(p: string, c: string, rest: string)
    requires '`' !in p && BlockSafe(c)
    ensures FencedBlocks(p + BashBlock(c) + rest) == [c] + FencedBlocks(rest)
  {
    var s := p + BashBlock(c) + rest;
    BlockOpens(p, c, rest);
    BlockBody(c, rest);
    FencedBashStep(s, |p|, |c| + 2);
  }

  /** A fence at `i`, `bash`, and the closing fence `k` characters after it: the first match. */
  lemma FencedBashStep(s: string, i: nat, k: nat)
    requires IndexOf(s, Fence) == Some(i) && StartsWith(s[i + 3..], "bash")
    requires IndexOf(s[i + 3..][4..], Fence) == Some(k)
    ensures var body := s[i + 3..][4..];
      FirstBlock(s) == Some((body[..k], body[k + 3..]))
  {
    assert SkipBash(s[i + 3..]) == s[i + 3..][4..];
  }

  /** The first fence of `p + BashBlock(c) + rest` is the block's opening one. */
  lemma BlockOpens(p: string, c: string, rest: string)
    requires '`' !in p
    ensures var s := p + BashBlock(c) + rest;
      IndexOf(s, Fence) == Some(|p|) && StartsWith(s[|p| + 3..], "bash") &&
      s[|p| + 3..][4..] == "\n" + c + "\n" + Fence + rest
  {
    var after := "bash" + ("\n" + c + "\n" + Fence + rest);
    var s := p + BashBlock(c) + rest;
    assert s == p + Fence + after;
    assert Fence[0] == '`';
    FirstAfterCharFree(p, Fence, after);
    assert s[|p| + 3..] == after;
    assert StartsWith(after, "bash");
    assert after[4..] == "\n" + c + "\n" + Fence + rest;
  }

  /** Rendering commands as `bash` blocks and parsing the reply gives the commands back. */
  lemma {:induction false} ReplyRoundTrip(cmds: seq<string>)
    requires forall k :: 0 <= k < |cmds| ==> BlockSafe(cmds[k])
    ensures FencedBlocks(Reply(cmds)) == cmds
  {
    if cmds == [] {
      assert !Contains("", Fence);
    } else {
      ReplyRoundTrip(cmds[1..]);
      BlockStep("\n", cmds[0], Reply(cmds[1..]));
      assert Reply(cmds) == "\n" + BashBlock(cmds[0]) + Reply(cmds[1..]);
      assert cmds == [cmds[0]] + cmds[1..];
    }
  }

  // ---------------------------------------------------------------------------------------
  // The requested file name and the default command

  /** `\w` on the ASCII range: a letter, a digit or `_`. */
  predicate WordChar(c: char) {
    'a' <= c <= 'z' || 'A' <= c <= 'Z' || '0' <= c <= '9' || c == '_'
  }

  /** The length of the run of word characters starting at `i`. */
  function WordRun(s: string, i: nat): (k: nat)
    requires i <= |s|
    ensures i + k <= |s|
    ensures forall j :: i <= j < i + k ==> WordChar(s[j])
    ensures i + k < |s| ==> !WordChar(s[i + k])
    decreases |s| - i
  {
    if i < |s| && WordChar(s[i]) then 1 + WordRun(s, i + 1) else 0
  }

  /** A name of the form `\w+\.\w+`. */
  predicate DottedName(n: string) {
    exists d :: 0 < d < |n| - 1 && n[d] == '.' &&
      (forall j :: 0 <= j < |n| && j != d ==> WordChar(n[j]))
  }

  /** Two word runs around a dot make a dotted name. */
  lemma DottedSliceName(s: string, q: nat, a: nat, b: nat)
    requires a > 0 && b > 0 && q + a + 1 + b <= |s| && s[q + a] == '.'
    requires forall j :: q <= j < q + a ==> WordChar(s[j])
    requires forall j :: q + a + 1 <= j < q + a + 1 + b ==> WordChar(s[j])
    ensures DottedName(s[q..q + a + 1 + b])
  {
    var n := s[q..q + a + 1 + b];
    forall j | 0 <= j < |n| && j != a ensures WordChar(n[j]) {
      assert n[j] == s[q + j];
    }
    assert n[a] == '.';
  }

  /** Where the name starts if `s` has `file called ` or `file named ` at `p`. */
  function NameStart(s: string, p: nat): Option<nat>
    requires p <= |s|
  {
    if StartsWith(s[p..], "file called ") then Some(p + 12)
    else if StartsWith(s[p..], "file named ") then Some(p + 11)
    else None
  }

  /**
   * The group of `file (?:called|named) (\w+\.\w+)` matched at `p`: the word run after the
   * keyword, a dot, and the word run after the dot, each of at least one character. Neither run
   * can end earlier, as the character after a shorter run is a word character, not a dot.
   */
  function MentionAt(s: string, p: nat): (r: Option<string>)
    requires p <= |s|
    ensures r.Some? ==> DottedName(r.value)
  {
    match NameStart(s, p)
    case None => None
    case Some(q) =>
      var a := WordRun(s, q);
      if a > 0 && q + a < |s| && s[q + a] == '.' then
        var b := WordRun(s, q + a + 1);
        if b > 0 then
          DottedSliceName(s, q, a, b);
          Some(s[q..q + a + 1 + b])
        else None
      else None
  }

  /** `re.search` from position `p` on: the match that starts first. */
  function SearchFrom(s: string, p: nat): (r: Option<string>)
    requires p <= |s|
    ensures r.Some? ==> DottedName(r.value)
    decreases |s| - p
  {
    if MentionAt(s, p).Some? then MentionAt(s, p)
    else if p == |s| then None
    else SearchFrom(s, p + 1)
  }

  /**
   * The `requested_filename` of `execute_parsed_commands` and `invoke_chat`: when the lower-cased
   * query asks to "create a file", the group of the first `file called NAME` or `file named NAME`.
   */
  function RequestedFilename(query: string): (r: Option<string>)
    ensures r.Some? ==> Contains(Lower(query), "create a file") && DottedName(r.value)
  {
    var q := Lower(query);
    if Contains(q, "create a file") then SearchFrom(q, 0) else None
  }

  /** The command used when a file was requested and no command was found. */
  function DefaultCommand(name: string): string {
    UnixCreation(name, "print(\"hello sadain\")")
  }

  /** A run of word characters of length `k` stopped by a non-word character or the end is the word run. */
  lemma WordRunExact(s: string, i: nat, k: nat)
    requires i + k <= |s|
    requires forall j :: i <= j < i + k ==> WordChar(s[j])
    requires i + k == |s| || !WordChar(s[i + k])
    ensures WordRun(s, i) == k
  {
  }

  /** The search from `p` returns the first mention at or after `p`. */
  lemma {:induction false} SearchFinds(s: string, p: nat, at: nat)
    requires p <= at <= |s| && MentionAt(s, at).Some?
    requires forall j :: p <= j < at ==> MentionAt(s, j).None?
    ensures SearchFrom(s, p) == MentionAt(s, at)
    decreases at - p
  {
    if p < at {
      SearchPasses(s, p);
      SearchFinds(s, p + 1, at);
    } else {
      SearchStops(s, p);
    }
  }

  /** The search passes over a position where nothing matches. */
  lemma SearchPasses(s: string, p: nat)
    requires p < |s| && MentionAt(s, p).None?
    ensures SearchFrom(s, p) == SearchFrom(s, p + 1)
  {
  }

  /** The search stops at a position where something matches. */
  lemma SearchStops(s: string, p: nat)
    requires p <= |s| && MentionAt(s, p).Some?
    ensures SearchFrom(s, p) == MentionAt(s, p)
  {
  }

  /** The characters of a word are word characters and so not a dot. */
  predicate Word(w: string) {
    w != [] && forall j :: 0 <= j < |w| ==> WordChar(w[j])
  }

  /** A word found at `q` makes every character from `q` on up to its length a word character. */
  lemma WordAt(s: string, q: nat, w: string)
    requires Word(w) && q + |w| <= |s| && s[q..q + |w|] == w
    ensures forall j :: q <= j < q + |w| ==> WordChar(s[j])
  {
    forall j | q <= j < q + |w| ensures WordChar(s[j]) {
      assert s[j] == s[q..q + |w|][j - q];
    }
  }

  /** The pieces of `NAME.EXT` followed by `rest` at `q`. */
  lemma DottedSlices(s: string, q: nat, n: string, e: string, rest: string)
    requires q <= |s| && s[q..] == n + "." + e + rest
    ensures var m := |n| + 1 + |e|;
      q + m <= |s| && s[q..q + m] == n + "." + e && s[q..q + |n|] == n && s[q + |n|] == '.' &&
      s[q + |n| + 1..q + m] == e && (q + m < |s| ==> s[q + m] == rest[0])
  {
    var m := |n| + 1 + |e|;
    var t := s[q..];
    assert t[..m] == n + "." + e;
    assert s[q..q + m] == t[..m];
    assert s[q..q + |n|] == t[..m][..|n|] == n;
    assert s[q + |n|] == t[..m][|n|] == '.';
    assert s[q + |n| + 1..q + m] == t[..m][|n| + 1..] == e;
    assert q + m < |s| ==> s[q + m] == t[m] == rest[0];
  }

  /** `NAME.EXT` at `q`, stopped by the end or a non-word character, is read as two word runs. */
  lemma DottedRuns(s: string, q: nat, n: string, e: string, rest: string)
    requires Word(n) && Word(e) && q <= |s|
    requires s[q..] == n + "." + e + rest
    requires rest == [] || !WordChar(rest[0])
    ensures WordRun(s, q) == |n| && q + |n| < |s| && s[q + |n|] == '.'
    ensures WordRun(s, q + |n| + 1) == |e|
    ensures s[q..q + |n| + 1 + |e|] == n + "." + e
  {
    DottedSlices(s, q, n, e, rest);
    WordAt(s, q, n);
    WordAt(s, q + |n| + 1, e);
    WordRunExact(s, q, |n|);
    WordRunExact(s, q + |n| + 1, |e|);
  }

  /** `file called NAME.EXT` at `at`, stopped by the end or a non-word character, is matched there. */
  lemma MentionMatches(s: string, at: nat, n: string, e: string, rest: string)
    requires Word(n) && Word(e) && at <= |s|
    requires s[at..] == "file called " + (n + "." + e + rest)
    requires rest == [] || !WordChar(rest[0])
    ensures MentionAt(s, at) == Some(n + "." + e)
  {
    CalledAt(s, at, n + "." + e + rest);
    MentionAfterStart(s, at, at + 12, n, e, rest);
  }

  /** `NAME.EXT` right where a name starts, stopped by the end or a non-word character, is matched. */
  lemma MentionAfterStart(s: string, at: nat, q: nat, n: string, e: string, rest: string)
    requires Word(n) && Word(e) && at <= q <= |s| && NameStart(s, at) == Some(q)
    requires s[q..] == n + "." + e + rest
    requires rest == [] || !WordChar(rest[0])
    ensures MentionAt(s, at) == Some(n + "." + e)
  {
    DottedRuns(s, q, n, e, rest);
    MentionAtDotted(s, at, q, |n|, |e|);
  }

  /** `file called ` at `at` starts a name right after it. */
  lemma CalledAt(s: string, at: nat, t: string)
    requires at <= |s| && s[at..] == "file called " + t
    ensures NameStart(s, at) == Some(at + 12) && s[at + 12..] == t
  {
    assert s[at..][..12] == "file called ";
    assert s[at + 12..] == s[at..][12..];
  }

  /** A name start followed by a word run, a dot and a word run is a match of the two runs. */
  lemma MentionAtDotted(s: string, p: nat, q: nat, a: nat, b: nat)
    requires p <= |s| && NameStart(s, p) == Some(q)
    requires a > 0 && WordRun(s, q) == a && q + a < |s| && s[q + a] == '.'
    requires b > 0 && WordRun(s, q + a + 1) == b
    ensures MentionAt(s, p) == Some(s[q..q + a + 1 + b])
  {
  }

  /** No match starts at a character other than `f`. */
  lemma NoMentionAt(s: string, j: nat)
    requires j < |s| && s[j] != 'f'
    ensures MentionAt(s, j).None?
  {
    assert s[j..][0] == s[j];
  }

  /** A text with `file called NAME.EXT` and no `f` before it yields `NAME.EXT`. */
  lemma MentionFound(pre: string, n: string, e: string, post: string)
    requires 'f' !in pre && Word(n) && Word(e)
    requires post == [] || !WordChar(post[0])
    ensures SearchFrom(pre + "file called " + n + "." + e + post, 0) == Some(n + "." + e)
  {
    var x := "file called " + (n + "." + e + post);
    var s := pre + x;
    Regroup(pre, "file called ", n, ".", e, post);
    NoMentionBefore(pre, x);
    assert s[|pre|..] == x;
    MentionMatches(s, |pre|, n, e, post);
    SearchFinds(s, 0, |pre|);
  }

  /** No match starts inside a prefix without `f`. */
  lemma NoMentionBefore(pre: string, x: string)
    requires 'f' !in pre
    ensures forall j :: 0 <= j < |pre| ==> MentionAt(pre + x, j).None?
  {
    forall j | 0 <= j < |pre| ensures MentionAt(pre + x, j).None? {
      assert (pre + x)[j] == pre[j];
      NoMentionAt(pre + x, j);
    }
  }

  /** Concatenation regrouped to the right after the first piece. */
  lemma Regroup(a: string, b: string, c: string, d: string, e: string, f: string)
    ensures a + b + c + d + e + f == a + (b + (c + d + e + f))
  {
  }

  /** A request `create a file called NAME.EXT` in lower case asks to create a file. */
  lemma CreateRequestFacts(query: string, n: string, e: string)
    requires Lower(n) == n && Lower(e) == e
    requires query == "create a " + "file called " + n + "." + e
    ensures Lower(query) == query && Contains(query, "create a file")
  {
    var head := "create a " + "file called ";
    assert forall j :: 0 <= j < |head| ==> !('A' <= head[j] <= 'Z');
    assert forall j :: 0 <= j < |n| ==> LowerChar(n[j]) == Lower(n)[j] == n[j];
    assert forall j :: 0 <= j < |e| ==> LowerChar(e[j]) == Lower(e)[j] == e[j];
    assert forall j :: 0 <= j < |query| ==> !('A' <= query[j] <= 'Z') by {
      forall j | 0 <= j < |query| ensures !('A' <= query[j] <= 'Z') {
        if j < |head| {
          assert query[j] == head[j];
        } else if j < |head| + |n| {
          assert query[j] == n[j - |head|];
        } else if j > |head| + |n| {
          assert query[j] == e[j - |head| - |n| - 1];
        }
      }
    }
    LowerNoUpper(query);
    assert query[..13] == "create a file";
    ContainsAt(query, "create a file", 0);
  }

  /** For a lower-case query that asks to create a file, the requested name is the first mention. */
  lemma LowerQuerySearched(query: string)
    requires Lower(query) == query && Contains(query, "create a file")
    ensures RequestedFilename(query) == SearchFrom(query, 0)
  {
  }

  /** The query `create a file called NAME.EXT`, in lower case, requests `NAME.EXT`. */
  lemma CreateRequest(n: string, e: string)
    requires Word(n) && Word(e) && Lower(n) == n && Lower(e) == e
    ensures RequestedFilename("create a file called " + n + "." + e) == Some(n + "." + e)
  {
    var query := "create a " + "file called " + n + "." + e;
    assert query == "create a file called " + n + "." + e;
    CreateRequestFacts(query, n, e);
    LowerQuerySearched(query);
    assert 'f' !in "create a ";
    assert query == "create a " + "file called " + n + "." + e + "";
    MentionFound("create a ", n, e, "");
  }

  /** A requested name is a plain file name: word characters around one dot. */
  lemma DottedNamePlain(name: string)
    requires DottedName(name)
    ensures PlainName(name) && '{' !in name && '}' !in name
  {
    var d :| 0 < d < |name| - 1 && name[d] == '.' && forall j :: 0 <= j < |name| && j != d ==> WordChar(name[j]);
    assert forall j :: 0 <= j < |name| ==> name[j] !in "\n<>{}";
  }

  /** The default command for a requested `.py` name passes `validate_file_creation_command`. */
  lemma DefaultCommandValid(name: string)
    requires DottedName(name) && EndsWith(name, ".py")
    ensures ValidCreation(DefaultCommand(name))
  {
    DottedNamePlain(name);
    PrintCallBody("print(\"hello sadain\")");
    CanonicalCreationValid(name, "print(\"hello sadain\")");
  }

  /** A requested `.py` name gives a default command that passes `validate_file_creation_command`. */
  lemma RequestedCommandValid(query: string)
    requires RequestedFilename(query).Some? && EndsWith(RequestedFilename(query).value, ".py")
    ensures ValidCreation(DefaultCommand(RequestedFilename(query).value))
  {
    DefaultCommandValid(RequestedFilename(query).value);
  }

  /** Run by the shell, the default command for a plain name writes `print("hello sadain")` to that file. */
  lemma DefaultCommandCreates(name: string)
    requires DottedName(name)
    ensures PathBetween(DefaultCommand(name)) == Returned(name)
    ensures Content(Lines(DefaultCommand(name))) == "print(\"hello sadain\")"
  {
    DottedNamePlain(name);
    var c := "print(\"hello sadain\")";
    PrintCallBody(c);
    CreationPathWhole(name, c);
    CreationContent(name, c);
  }

  // ---------------------------------------------------------------------------------------
  // execute_parsed_commands

  /** What running one command gave: the completed process, or the exception `subprocess.run` raised. */
  datatype RunOutcome = Ran(returncode: int, stdout: string, stderr: string) | RunFailed(message: string)

  /** The record `execute_parsed_commands` appends for one command. */
  function RecordOf(command: string, o: RunOutcome): (r: ExecRecord)
    ensures r.NodeResult? && r.command == command
    ensures Succeeded(r) <==> o.Ran? && o.returncode == 0
    ensures o.Ran? ==> r.returnCode == o.returncode && OutputOf(r) == o.stdout && ErrorOf(r) == o.stderr
    ensures o.RunFailed? ==> r.returnCode == -1 && ErrorOf(r) == o.message
  {
    match o
    case Ran(rc, out, err) => NodeResult(command, rc == 0, out, err, rc)
    case RunFailed(m) => NodeResult(command, false, "", m, -1)
  }

  /** The records of running `cmds` in order, the k-th command having ended as `outcomes[k]`. */
  function Records(cmds: seq<string>, outcomes: seq<RunOutcome>): (rs: seq<ExecRecord>)
    requires |outcomes| == |cmds|
    ensures |rs| == |cmds|
    ensures forall k :: 0 <= k < |cmds| ==> rs[k] == RecordOf(cmds[k], outcomes[k])
  {
    seq(|cmds|, k requires 0 <= k < |cmds| => RecordOf(cmds[k], outcomes[k]))
  }

  /** The commands `execute_parsed_commands` runs: the extracted ones, or the default command when a file was requested and none was extracted. */
  function CommandsToRun(query: string, cmds: seq<string>): (r: seq<string>)
    ensures cmds != [] ==> r == cmds
    ensures cmds == [] ==> (r == [] <==> RequestedFilename(query).None?)
    ensures r != cmds ==> r == [DefaultCommand(RequestedFilename(query).value)]
  {
    match RequestedFilename(query)
    case Some(name) => if cmds == [] then [DefaultCommand(name)] else cmds
    case None => cmds
  }

  /**
   * `execute_parsed_commands(state)`: runs every command through `subprocess.run` with the
   * shell and records each outcome in order. `outcomes[k]` is how the k-th run ended, so two
   * runs of the same command may end differently.
   */
  method ExecuteParsedCommands(state: AgentState, outcomes: seq<RunOutcome>)
    requires |outcomes| == |CommandsToRun(state.originalQuery, state.extractedCommands)|
    modifies state
    ensures state.extractedCommands == CommandsToRun(old(state.originalQuery), old(state.extractedCommands))
    ensures state.commandExecutionResults == Records(state.extractedCommands, outcomes)
    ensures state.originalQuery == old(state.originalQuery) && state.llmResponseRaw == old(state.llmResponseRaw)
    ensures state.isAgentMode == old(state.isAgentMode) && state.finalOutput == old(state.finalOutput)
  {
    var commands := state.extractedCommands;
    var requested := RequestedFilename(state.originalQuery);
    if requested.Some? && commands == [] {
      commands := [DefaultCommand(requested.value)];
      state.extractedCommands := commands;
    }
    var results := RecordAll(commands, outcomes);
    state.commandExecutionResults := results;
  }

  /** The loop of `execute_parsed_commands`: one record per command, appended in order. */
  method RecordAll(commands: seq<string>, outcomes: seq<RunOutcome>) returns (results: seq<ExecRecord>)
    requires |outcomes| == |commands|
    ensures results == Records(commands, outcomes)
  {
    results := [];
    var i := 0;
    while i < |commands|
      invariant 0 <= i <= |commands|
      invariant |results| == i
      invariant forall k :: 0 <= k < i ==> results[k] == RecordOf(commands[k], outcomes[k])
    {
      results := results + [RecordOf(commands[i], outcomes[i])];
      i := i + 1;
    }
  }

  /** Every command run is recorded, in order, and a record is a success exactly when its process exited with 0. */
  lemma RecordsReportExitCodes(cmds: seq<string>, outcomes: seq<RunOutcome>, k: nat)
    requires |outcomes| == |cmds| && k < |cmds|
    ensures Records(cmds, outcomes)[k].command == cmds[k]
    ensures Succeeded(Records(cmds, outcomes)[k]) <==> outcomes[k].Ran? && outcomes[k].returncode == 0
  {
  }

  // ---------------------------------------------------------------------------------------
  // invoke_chat, up to the call of the model

  /**
   * The part of `invoke_chat` that does not reach the model: a missing query raises, and a
   * "create a file called NAME" request stores the default command and returns at once
   * (`Returned(true)`). `Returned(false)` means the model would be asked next.
   */
  method InvokeChatShortcut(state: AgentState) returns (r: Outcome<bool>)
    modifies state
    ensures old(state.originalQuery) == "" ==> r == Raised("ValueError: No user request found in state")
    ensures old(state.originalQuery) != "" ==> r.Returned?
    ensures r == Returned(true) <==> old(state.originalQuery) != "" && RequestedFilename(old(state.originalQuery)).Some?
    ensures r == Returned(true) ==> state.extractedCommands == [DefaultCommand(RequestedFilename(old(state.originalQuery)).value)]
    ensures r != Returned(true) ==> state.extractedCommands == old(state.extractedCommands)
    ensures state.originalQuery == old(state.originalQuery) && state.llmResponseRaw == old(state.llmResponseRaw)
    ensures state.commandExecutionResults == old(state.commandExecutionResults)
    ensures state.isAgentMode == old(state.isAgentMode) && state.finalOutput == old(state.finalOutput)
  {
    var request := state.originalQuery;
    if request == "" {
      return Raised("ValueError: No user request found in state");
    }
    match RequestedFilename(request)
    case Some(name) =>
      state.extractedCommands := [DefaultCommand(name)];
      r := Returned(true);
    case None =>
      r := Returned(false);
  }

  // ---------------------------------------------------------------------------------------
  // format_final_output

  /** The decimal digit of `d`. */
  function Digit(d: nat): char
    requires d < 10
  {
    "0123456789"[d]
  }

  /** The value of a string of decimal digits. */
  function DecimalValue(s: string): nat
    requires Decimal(s)
  {
    if s == [] then 0 else 10 * DecimalValue(s[..|s| - 1]) + (s[|s| - 1] as int - '0' as int)
  }

  /** `str(n)` for a natural number. */
  function NatToString(n: nat): (r: string)
    ensures r != []
    decreases n
  {
    var last := [Digit(n % 10)];
    if n < 10 then last else NatToString(n / 10) + last
  }

  /** `str(n)` is made of decimal digits. */
  predicate Decimal(s: string) {
    forall j :: 0 <= j < |s| ==> '0' <= s[j] <= '9'
  }

  /** `str(n)` is a non-empty string of decimal digits that reads back as `n`. */
  lemma {:induction false} NatToStringValue(n: nat)
    ensures Decimal(NatToString(n)) && DecimalValue(NatToString(n)) == n
    decreases n
  {
    var r := NatToString(n);
    if n >= 10 {
      NatToStringValue(n / 10);
      assert r[..|r| - 1] == NatToString(n / 10);
    }
  }

  /** The lines `format_final_output` writes for the `i`-th result. */
  function ResultBlock(r: ExecRecord, i: nat): seq<string> {
    var head := ["\nCommand " + NatToString(i) + ":", "Command: " + r.command];
    if Succeeded(r) then
      head + ["Status: Success"] + (if OutputOf(r) != "" then ["Output:\n" + OutputOf(r)] else [])
    else
      head + ["Status: Failed"] + (if ErrorOf(r) != "" then ["Error: " + ErrorOf(r)] else [])
  }

  /**
   * The block of a result is its number, its command and its status, then the output of a
   * success or the error of a failure when there is one.
   */
  lemma ResultBlockShape(r: ExecRecord, i: nat)
    ensures var b := ResultBlock(r, i);
      3 <= |b| <= 4 &&
      b[0] == "\nCommand " + NatToString(i) + ":" && b[1] == "Command: " + r.command &&
      b[2] == (if Succeeded(r) then "Status: Success" else "Status: Failed") &&
      (|b| == 4 <==> (if Succeeded(r) then OutputOf(r) != "" else ErrorOf(r) != "")) &&
      (|b| == 4 ==> b[3] == (if Succeeded(r) then "Output:\n" + OutputOf(r) else "Error: " + ErrorOf(r)))
  {
  }

  /** The blocks `block` gives for `results`, numbered from `i`. */
  function Numbered(results: seq<ExecRecord>, i: nat, block: (ExecRecord, nat) -> seq<string>): seq<string>
    decreases |results|
  {
    if results == [] then [] else block(results[0], i) + Numbered(results[1..], i + 1, block)
  }

  /** The lines for `results`, numbered from `i`. */
  function ResultParts(results: seq<ExecRecord>, i: nat): seq<string> {
    Numbered(results, i, ResultBlock)
  }

  const ResultsHeader: string := "\nCommand Execution Results:"
  const NoCommandsNote: string := "\nNo commands were executed."

  /** Adding a result adds its block, numbered after the others. */
  lemma {:induction false} NumberedAppend(results: seq<ExecRecord>, r: ExecRecord, i: nat, block: (ExecRecord, nat) -> seq<string>)
    ensures Numbered(results + [r], i, block) == Numbered(results, i, block) + block(r, i + |results|)
    decreases |results|
  {
    var t := results + [r];
    if results == [] {
      assert t == [r] && t[1..] == [];
      assert Numbered(t, i, block) == block(r, i) + Numbered([], i + 1, block);
    } else {
      assert t[0] == results[0];
      assert t[1..] == results[1..] + [r];
      NumberedAppend(results[1..], r, i + 1, block);
    }
  }

  /** The `k`-th result is given number `i + k`, between the blocks of the results before and after it. */
  lemma {:induction false} NumberedAt(results: seq<ExecRecord>, k: nat, i: nat, block: (ExecRecord, nat) -> seq<string>)
    requires k < |results|
    ensures Numbered(results, i, block) ==
      Numbered(results[..k], i, block) + block(results[k], i + k) + Numbered(results[k + 1..], i + k + 1, block)
    decreases k
  {
    var a := block(results[0], i);
    if k == 0 {
      assert results[..0] == [];
      assert Numbered(results[..0], i, block) == [];
    } else {
      var tail := results[1..];
      NumberedAt(tail, k - 1, i + 1, block);
      assert tail[..k - 1] == results[1..k] && tail[k - 1] == results[k] && tail[k..] == results[k + 1..];
      NumberedPrefix(results, k, i, block);
      var x := Numbered(results[1..k], i + 1, block);
      var b := block(results[k], i + k);
      var y := Numbered(results[k + 1..], i + k + 1, block);
      assert Numbered(results, i, block) == a + Numbered(tail, i + 1, block);
      Regroup4(a, x, b, y);
    }
  }

  /** Concatenation of four pieces regrouped. */
  lemma Regroup4(a: seq<string>, x: seq<string>, b: seq<string>, y: seq<string>)
    ensures a + (x + b + y) == (a + x) + b + y
  {
  }

  /** A non-empty prefix is numbered as its first block and the rest of the prefix. */
  lemma NumberedPrefix(results: seq<ExecRecord>, k: nat, i: nat, block: (ExecRecord, nat) -> seq<string>)
    requires 0 < k <= |results|
    ensures Numbered(results[..k], i, block) == block(results[0], i) + Numbered(results[1..k], i + 1, block)
  {
    var pre := results[..k];
    assert pre[0] == results[0] && pre[1..] == results[1..k];
  }

  /** Adding a result adds its lines, numbered after the others. */
  lemma ResultPartsAppend(results: seq<ExecRecord>, r: ExecRecord, i: nat)
    ensures ResultParts(results + [r], i) == ResultParts(results, i) + ResultBlock(r, i + |results|)
  {
    NumberedAppend(results, r, i, ResultBlock);
  }

  /** The `k`-th result is reported as command `i + k`, between the lines of the results before and after it. */
  lemma ResultNumbered(results: seq<ExecRecord>, k: nat, i: nat)
    requires k < |results|
    ensures ResultParts(results, i) ==
      ResultParts(results[..k], i) + ResultBlock(results[k], i + k) + ResultParts(results[k + 1..], i + k + 1)
  {
    NumberedAt(results, k, i, ResultBlock);
  }

  /** No result line is the "no commands" note. */
  lemma BlockNotNote(r: ExecRecord, i: nat)
    ensures NoCommandsNote !in ResultBlock(r, i)
  {
    var b := ResultBlock(r, i);
    ResultBlockShape(r, i);
    assert b[0][1] == 'C' && NoCommandsNote[1] == 'N';
    assert b[1][0] == 'C' && b[2][0] == 'S';
    assert |b| == 4 ==> b[3][0] == 'O' || b[3][0] == 'E';
  }

  /** The result lines never hold the "no commands" note. */
  lemma {:induction false} PartsNotNote(results: seq<ExecRecord>, i: nat)
    ensures NoCommandsNote !in Numbered(results, i, ResultBlock)
    decreases |results|
  {
    if results != [] {
      BlockNotNote(results[0], i);
      PartsNotNote(results[1..], i + 1);
    }
  }

  /** The lines `format_final_output` joins in agent mode. */
  function OutputParts(query: string, results: seq<ExecRecord>): (parts: seq<string>)
    ensures |parts| >= 1
    ensures query != "" ==> parts[0] == "Query: " + query
    ensures query == "" ==> parts[0] == (if results == [] then NoCommandsNote else ResultsHeader)
    ensures NoCommandsNote in parts <==> results == []
  {
    var head := if query != "" then ["Query: " + query] else [];
    PartsNotNote(results, 1);
    assert query != "" ==> ("Query: " + query)[0] == 'Q';
    if results != [] then head + [ResultsHeader] + ResultParts(results, 1) else head + [NoCommandsNote]
  }

  /** The loop of `format_final_output`: the lines of every result, numbered from 1, after `parts`. */
  method AppendResultParts(start: seq<string>, results: seq<ExecRecord>) returns (parts: seq<string>)
    ensures parts == start + ResultParts(results, 1)
  {
    parts := start;
    var i := 0;
    while i < |results|
      invariant 0 <= i <= |results|
      invariant parts == start + ResultParts(results[..i], 1)
    {
      var done := results[..i];
      ResultPartsAppend(done, results[i], 1);
      assert results[..i + 1] == done + [results[i]];
      parts := parts + ResultBlock(results[i], i + 1);
      i := i + 1;
    }
    assert results[..|results|] == results;
  }

  /** The lines of `format_final_output` in agent mode, built one result at a time. */
  method BuildOutputParts(query: string, results: seq<ExecRecord>) returns (parts: seq<string>)
    ensures parts == OutputParts(query, results)
  {
    parts := [];
    if query != "" {
      parts := parts + ["Query: " + query];
    }
    assert parts == (if query != "" then ["Query: " + query] else []);
    if results == [] {
      parts := parts + [NoCommandsNote];
      return;
    }
    parts := AppendResultParts(parts + [ResultsHeader], results);
  }

  /** `format_final_output(state)` */
  method FormatFinalOutput(state: AgentState)
    modifies state
    ensures !old(state.isAgentMode) ==> state.finalOutput == old(state.llmResponseRaw)
    ensures old(state.isAgentMode) ==>
      state.finalOutput == Join("\n", OutputParts(old(state.originalQuery), old(state.commandExecutionResults)))
    ensures state.originalQuery == old(state.originalQuery) && state.llmResponseRaw == old(state.llmResponseRaw)
    ensures state.extractedCommands == old(state.extractedCommands)
    ensures state.commandExecutionResults == old(state.commandExecutionResults)
    ensures state.isAgentMode == old(state.isAgentMode)
  {
    if !state.isAgentMode {
      state.finalOutput := state.llmResponseRaw;
      return;
    }
    var parts := BuildOutputParts(state.originalQuery, state.commandExecutionResults);
    state.finalOutput := Join("\n", parts);
  }
}
