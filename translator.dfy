/**
 * `CommandTranslator` of `command_translator.py`: rewriting a shell command for the platform
 * it runs on, and building file creation, deletion and append commands per operating system
 * and shell. The platform is a parameter (`get_os_info()` in the source).
 */
module Translator {
  import opened Wrappers
  import opened PyStrings
  import opened OsDetection
  import opened Heredoc
  import Safety

  /** `f'Set-Content -Path "{file_path}" -Value @"{content}"@'` */
  function SetContentHereString(path: string, content: string): string {
    "Set-Content -Path \"" + path + "\" -Value @\"" + content + "\"@"
  }

  /** `f"cat > '{file_path}' << 'EOF'\n{content}\nEOF"` */
  function QuotedCreation(path: string, content: string): string {
    "cat > '" + path + "' << 'EOF'\n" + content + "\nEOF"
  }

  /** What `translate_command` produces from a heredoc whose path is `path` and whose body is `content`. */
  function CreationFor(os: OsType, path: string, content: string): string {
    if os == Windows then SetContentHereString(path, content) else QuotedCreation(path, content)
  }

  /** The Windows rules of `translate_command` for `rm `, `mkdir ` and `touch `; nothing otherwise. */
  function WindowsRule(command: string): (r: Option<string>)
    ensures r.Some? <==> StartsWith(command, "rm ") || StartsWith(command, "mkdir ") || StartsWith(command, "touch ")
  {
    if StartsWith(command, "rm ") then Some("Remove-Item -Path \"" + command[3..] + "\" -Force")
    else if StartsWith(command, "mkdir ") then Some("New-Item -Path \"" + command[6..] + "\" -ItemType Directory -Force")
    else if StartsWith(command, "touch ") then Some("New-Item -Path \"" + command[6..] + "\" -ItemType File -Force")
    else None
  }

  /** The heredoc branch of `translate_command` applies: the markers are present and there are at least 3 lines. */
  predicate TakesHeredocBranch(command: string) {
    IsFileCreation(command) && |Lines(command)| >= 3
  }

  /**
   * `translate_command(command)` on `os`, with the body scan starting at line `first`: 1 as the
   * source has it, 0 for the corrected scan. `None` is the source's implicit `None` for a
   * Windows command that no rule matches; `Raised` is the IndexError of a heredoc whose first
   * line has no `cat >`.
   */
  function Translation(os: OsType, command: string, first: nat): Outcome<Option<string>>
    requires first <= 1
  {
    if TakesHeredocBranch(command) then
      var lines := Lines(command);
      match PathBetween(lines[0])
      case Raised(e) => Raised(e)
      case Returned(path) => Returned(Some(CreationFor(os, path, Content(lines[first..]))))
    else if os == Windows then Returned(WindowsRule(command))
    else Returned(Some(command))
  }

  /** The heredoc branch: the file path from the first line, then the opener-first scan over `body`. */
  method TranslateCreation(os: OsType, lines: seq<string>, body: seq<string>) returns (r: Outcome<Option<string>>)
    requires lines != []
    ensures PathBetween(lines[0]).Raised? ==> r == Raised(PathBetween(lines[0]).error)
    ensures PathBetween(lines[0]).Returned? ==> r.Returned? && r.value == Some(CreationFor(os, PathBetween(lines[0]).value, Content(body)))
  {
    var path := PathBetween(lines[0]);
    if path.Raised? {
      return Raised(path.error);
    }
    var contentLines := ScanOpenerFirst(body);
    var content := Strip(Join("\n", contentLines));
    if os == Windows {
      r := Returned(Some(SetContentHereString(path.value, content)));
    } else {
      r := Returned(Some(QuotedCreation(path.value, content)));
    }
  }

  /** `translate_command` as written: the body scan skips the first line. */
  method TranslateCommand(os: OsType, command: string) returns (r: Outcome<Option<string>>)
    ensures r == Translation(os, command, 1)
    ensures !TakesHeredocBranch(command) && os != Windows ==> r == Returned(Some(command))
    ensures !TakesHeredocBranch(command) && os == Windows ==> r == Returned(WindowsRule(command))
  {
    if Contains(command, "cat >") && Contains(command, "<<") && Contains(command, "EOF") {
      var lines := Lines(command);
      if |lines| >= 3 {
        r := TranslateCreation(os, lines, lines[1..]);
        return;
      }
    }
    if os == Windows {
      r := Returned(WindowsRule(command));
    } else {
      r := Returned(Some(command));
    }
  }

  /** `translate_command` with the body scan over every line, so that an opener on the first line counts. */
  method TranslateCommandScanningAll(os: OsType, command: string) returns (r: Outcome<Option<string>>)
    ensures r == Translation(os, command, 0)
    ensures !TakesHeredocBranch(command) && os != Windows ==> r == Returned(Some(command))
    ensures !TakesHeredocBranch(command) && os == Windows ==> r == Returned(WindowsRule(command))
  {
    if Contains(command, "cat >") && Contains(command, "<<") && Contains(command, "EOF") {
      var lines := Lines(command);
      if |lines| >= 3 {
        r := TranslateCreation(os, lines, lines);
        return;
      }
    }
    if os == Windows {
      r := Returned(WindowsRule(command));
    } else {
      r := Returned(Some(command));
    }
  }

  /** `translate_file_creation(filename, content)` */
  function TranslateFileCreation(os: OsType, shell: ShellType, filename: string, content: string): string {
    if os == Windows then
      if shell == PowerShell then "Set-Content -Path \"" + filename + "\" -Value \"" + content + "\" -Encoding UTF8"
      else "echo " + content + " > " + filename
    else UnixCreation(filename, content)
  }

  /** `translate_file_deletion(filename)` */
  function TranslateFileDeletion(os: OsType, shell: ShellType, filename: string): string {
    if os == Windows then
      if shell == PowerShell then "Remove-Item -Path \"" + filename + "\" -Force"
      else "del " + filename
    else "rm " + filename
  }

  /** `translate_file_append(filename, content)`, which always double-quotes the file name. */
  function TranslateFileAppend(os: OsType, shell: ShellType, filename: string, content: string): string {
    var escaped := "\"" + filename + "\"";
    if os == Windows then
      if shell == PowerShell then "Add-Content -Path " + escaped + " -Value \"" + content + "\" -Encoding UTF8"
      else "echo " + content + " >> " + escaped
    else "echo \"" + content + "\" >> " + escaped
  }

  /** `get_safe_commands()` */
  function GetSafeCommands(os: OsType, shell: ShellType): seq<string> {
    if os == Windows then
      if shell == PowerShell then ["Get-ChildItem", "Get-Content", "Get-Location", "Get-Process"]
      else ["dir", "type", "cd", "echo"]
    else ["ls", "cat", "pwd", "echo", "grep", "find"]
  }

  /** `translate_file_deletion` per platform: `rm` on Linux and macOS, `Remove-Item` in PowerShell, `del` in cmd. */
  lemma FileDeletionPerPlatform(os: OsType, shell: ShellType, f: string)
    ensures os != Windows ==> TranslateFileDeletion(os, shell, f) == "rm " + f
    ensures os == Windows && shell == PowerShell ==>
      TranslateFileDeletion(os, shell, f) == "Remove-Item -Path \"" + f + "\" -Force"
    ensures os == Windows && shell != PowerShell ==> TranslateFileDeletion(os, shell, f) == "del " + f
  {
  }

  /**
   * `translate_file_creation` per platform: the Unix heredoc on Linux and macOS, `Set-Content`
   * in PowerShell, an `echo` redirect in cmd.
   */
  lemma FileCreationPerPlatform(os: OsType, shell: ShellType, f: string, c: string)
    ensures os != Windows ==> TranslateFileCreation(os, shell, f, c) == UnixCreation(f, c)
    ensures os == Windows && shell == PowerShell ==>
      TranslateFileCreation(os, shell, f, c) == "Set-Content -Path \"" + f + "\" -Value \"" + c + "\" -Encoding UTF8"
    ensures os == Windows && shell != PowerShell ==> TranslateFileCreation(os, shell, f, c) == "echo " + c + " > " + f
  {
  }

  /** Every Unix safe command is one of the classifier's read-only prefixes. */
  lemma UnixSafeCommandsReadOnly(os: OsType, shell: ShellType)
    requires os != Windows
    ensures forall cmd :: cmd in GetSafeCommands(os, shell) ==> cmd in Safety.ReadOnlyCommandsStart
  {
    var ro := Safety.ReadOnlyCommandsStart;
    assert GetSafeCommands(os, shell) == [ro[0], ro[1], ro[4], ro[8], ro[2], ro[3]];
  }

  /** On Windows, a single-line command never takes the heredoc branch: the three rules decide. */
  lemma WindowsSingleLine(command: string, first: nat)
    requires '\n' !in command && first <= 1
    ensures Translation(Windows, command, first) == Returned(WindowsRule(command))
  {
    SingleLine(command);
  }

  /** On Windows, `rm f` becomes the PowerShell deletion of `f`. */
  lemma WindowsRemoveIsDeletion(f: string, first: nat)
    requires '\n' !in f && first <= 1
    ensures Translation(Windows, "rm " + f, first) == Returned(Some(TranslateFileDeletion(Windows, PowerShell, f)))
  {
    var c := "rm " + f;
    assert '\n' !in c;
    WindowsSingleLine(c, first);
    assert StartsWith(c, "rm ") && c[3..] == f;
  }

  /** On Windows, `mkdir d` becomes `New-Item` of a directory `d`. */
  lemma WindowsMakeDirectory(d: string, first: nat)
    requires '\n' !in d && first <= 1
    ensures Translation(Windows, "mkdir " + d, first) == Returned(Some("New-Item -Path \"" + d + "\" -ItemType Directory -Force"))
  {
    var c := "mkdir " + d;
    assert '\n' !in c;
    WindowsSingleLine(c, first);
    assert !StartsWith(c, "rm ") by {
      assert c[0] != 'r';
    }
    assert StartsWith(c, "mkdir ") && c[6..] == d;
  }

  /** On Windows, `touch f` becomes `New-Item` of a file `f`. */
  lemma WindowsTouchFile(f: string, first: nat)
    requires '\n' !in f && first <= 1
    ensures Translation(Windows, "touch " + f, first) == Returned(Some("New-Item -Path \"" + f + "\" -ItemType File -Force"))
  {
    var c := "touch " + f;
    assert '\n' !in c;
    WindowsSingleLine(c, first);
    assert !StartsWith(c, "rm ") && !StartsWith(c, "mkdir ") by {
      assert c[0] == 't';
    }
    assert StartsWith(c, "touch ") && c[6..] == f;
  }

  /** On Windows, a single-line command matching none of the three rules translates to nothing. */
  lemma WindowsOtherIsNone(command: string, first: nat)
    requires '\n' !in command && first <= 1
    requires !StartsWith(command, "rm ") && !StartsWith(command, "mkdir ") && !StartsWith(command, "touch ")
    ensures Translation(Windows, command, first) == Returned(None)
  {
    WindowsSingleLine(command, first);
  }

  /** The lines of `UnixCreation(f, c)` take the heredoc branch with path `f`. */
  lemma CreationBranch(f: string, c: string)
    requires PlainName(f)
    ensures TakesHeredocBranch(UnixCreation(f, c))
    ensures PathBetween(Lines(UnixCreation(f, c))[0]) == Returned(f)
  {
    CreationDetected(f, c);
    CreationLines(f, c);
    CreationPath(f);
  }

  /**
   * With the corrected scan, a canonical file creation is translated with its path and its
   * stripped body: a `Set-Content` on Windows, a heredoc with the path quoted elsewhere.
   */
  lemma CreationTranslated(os: OsType, f: string, c: string)
    requires PlainName(f) && PlainBody(c)
    ensures Translation(os, UnixCreation(f, c), 0) == Returned(Some(CreationFor(os, f, Strip(c))))
  {
    CreationBranch(f, c);
    CreationContent(f, c);
    assert Lines(UnixCreation(f, c))[0..] == Lines(UnixCreation(f, c));
  }

  /** As written, the scan skips the first line, so a canonical file creation is translated with an empty body. */
  lemma CreationTranslatedAsWritten(os: OsType, f: string, c: string)
    requires PlainName(f) && NoOpenerInBody(c)
    ensures Translation(os, UnixCreation(f, c), 1) == Returned(Some(CreationFor(os, f, "")))
  {
    CreationBranch(f, c);
    CreationContentWithoutHeader(f, c);
  }

  /** The Unix file creation command, translated for Windows, writes the same file with the stripped body. */
  lemma UnixCreationToWindows(shell: ShellType, f: string, c: string, os: OsType)
    requires os != Windows && PlainName(f) && PlainBody(c)
    ensures Translation(Windows, TranslateFileCreation(os, shell, f, c), 0) ==
      Returned(Some(SetContentHereString(f, Strip(c))))
  {
    CreationTranslated(Windows, f, c);
  }

  /** Every append command names the file in double quotes, after `>>` or `-Path`. */
  lemma AppendQuotesFilename(os: OsType, shell: ShellType, f: string, c: string)
    ensures var cmd := TranslateFileAppend(os, shell, f, c);
      (os == Windows && shell == PowerShell ==> StartsWith(cmd, "Add-Content -Path \"" + f + "\""))
      && (!(os == Windows && shell == PowerShell) ==> EndsWith(cmd, ">> \"" + f + "\""))
  {
    var cmd := TranslateFileAppend(os, shell, f, c);
    var q := "\"" + f + "\"";
    if os == Windows && shell == PowerShell {
      assert cmd == ("Add-Content -Path " + q) + (" -Value \"" + c + "\" -Encoding UTF8");
      StartsWithJoin("Add-Content -Path " + q, " -Value \"" + c + "\" -Encoding UTF8");
    } else if os == Windows {
      assert cmd == ("echo " + c + " ") + (">> " + q);
      EndsWithJoin("echo " + c + " ", ">> " + q);
    } else {
      assert cmd == ("echo \"" + c + "\" ") + (">> " + q);
      EndsWithJoin("echo \"" + c + "\" ", ">> " + q);
    }
  }


  /** The Unix safe commands are entries 0, 1, 4, 8, 2 and 3 of the read-only list. */
  lemma UnixSafeCommandsIndexed(os: OsType, shell: ShellType)
    requires os != Windows
    ensures var ro := Safety.ReadOnlyCommandsStart;
      |ro| > 8 && GetSafeCommands(os, shell) == [ro[0], ro[1], ro[4], ro[8], ro[2], ro[3]]
  {
  }

  /** Every command in the Unix safe list is classified safe by `is_command_safe`. */
  lemma UnixSafeCommandsAreSafe(os: OsType, shell: ShellType)
    requires os != Windows
    ensures forall cmd :: cmd in GetSafeCommands(os, shell) ==> Safety.IsCommandSafe(cmd)
  {
    var ro := Safety.ReadOnlyCommandsStart;
    var cmds := GetSafeCommands(os, shell);
    UnixSafeCommandsIndexed(os, shell);
    var ks := [0, 1, 4, 8, 2, 3];
    forall i | 0 <= i < |cmds| ensures Safety.IsCommandSafe(cmds[i]) {
      assert cmds[i] == ro[ks[i]];
      ListedWordSafe(ks[i]);
    }
  }

  /** Entries 0, 1, 2, 3, 4 and 8 of the read-only list are classified safe. */
  lemma ListedWordSafe(k: nat)
    requires k in {0, 1, 2, 3, 4, 8}
    ensures k < |Safety.ReadOnlyCommandsStart| && Safety.IsCommandSafe(Safety.ReadOnlyCommandsStart[k])
  {
    if k == 0 {
      SafeWordIsSafe(0);
    } else if k == 1 {
      SafeWordIsSafe(1);
    } else if k == 2 {
      SafeWordIsSafe(2);
    } else if k == 3 {
      SafeWordIsSafe(3);
    } else if k == 4 {
      SafeWordIsSafe(4);
    } else {
      SafeWordIsSafe(8);
    }
  }


  /** `uk>=:v0 ` picks one character from each dangerous pattern after `rm -rf`. */
  lemma SafeWordWitness(w: string)
    requires w == "uk>=:v0 "
    ensures |w| == |Safety.DangerousCommandPatterns| - 1
    ensures forall i :: 0 <= i < |w| ==> w[i] in Safety.DangerousCommandPatterns[i + 1]
  {
    var ps := Safety.DangerousCommandPatterns;
    assert ps[1][1] == w[0] && ps[2][1] == w[1] && ps[3][0] == w[2] && ps[4][5] == w[3];
    assert ps[5][0] == w[4] && ps[6][1] == w[5] && ps[7][6] == w[6] && ps[8][5] == w[7];
  }

  /** A lower-case letter other than `k`, `u` and `v`. */
  predicate SafeLetter(ch: char) {
    'a' <= ch <= 'z' && ch != 'k' && ch != 'u' && ch != 'v'
  }

  /** A word of lower-case letters other than `k`, `u` and `v` holds no dangerous pattern. */
  lemma SafeWordNoDanger(cmd: string)
    requires forall j :: 0 <= j < |cmd| ==> SafeLetter(cmd[j])
    ensures !Safety.HasDangerousPattern(cmd)
  {
    SafeWordWitness("uk>=:v0 ");
    Safety.NoDangerByWitness(cmd, "uk>=:v0 ");
  }

  /** A word of lower-case letters is inspected as written and holds neither `>` nor `|`. */
  lemma LowerWordFacts(cmd: string)
    requires cmd != [] && forall j :: 0 <= j < |cmd| ==> SafeLetter(cmd[j])
    ensures Safety.Lowered(cmd) == cmd
    ensures !Contains(cmd, ">") && !Contains(cmd, "|")
  {
    Safety.LoweredIdentity(cmd);
    NotContainsByChar(cmd, ">", '>');
    NotContainsByChar(cmd, "|", '|');
  }

  /** A read-only command name of lower-case letters other than `k`, `u` and `v`, used alone, is safe. */
  lemma SafeWordIsSafe(k: nat)
    requires k < |Safety.ReadOnlyCommandsStart|
    requires forall j :: 0 <= j < |Safety.ReadOnlyCommandsStart[k]| ==> SafeLetter(Safety.ReadOnlyCommandsStart[k][j])
    ensures Safety.IsCommandSafe(Safety.ReadOnlyCommandsStart[k])
  {
    var cmd := Safety.ReadOnlyCommandsStart[k];
    assert cmd in Safety.ReadOnlyCommandsStart;
    LowerWordFacts(cmd);
    SafeWordNoDanger(cmd);
    assert StartsWith(cmd, cmd);
    Safety.PlainReadOnlyIsSafe(cmd);
  }
}
