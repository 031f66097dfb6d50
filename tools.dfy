/**
 * The shell tool of `agent/tools.py`: locating PowerShell, and running a command, where a
 * `cat > FILE << 'EOF'` command is carried out by writing the file directly. The file system
 * and the process are parameters: whether a path exists, the error a failed write raises, and
 * what the process returned or raised.
 */
module Tools {
  import opened Wrappers
  import opened PyStrings
  import opened Heredoc
  import OsDetection
  import Translator

  /** The places `get_powershell_path` looks, in order. */
  const PowerShellCandidates: seq<string> := [
    "C:\\Windows\\System32\\WindowsPowerShell\\v1.0\\powershell.exe",
    "C:\\Windows\\System32\\powershell.exe",
    "C:\\Windows\\SysWOW64\\WindowsPowerShell\\v1.0\\powershell.exe"
  ]

  /** The name returned when no candidate exists, left to the `PATH` search. */
  const PowerShellFallback: string := "powershell.exe"

  /** The index of the first path from `i` on that exists. */
  function FirstExistingFrom(paths: seq<string>, pathExists: string -> bool, i: nat): (r: Option<nat>)
    requires i <= |paths|
    ensures r.Some? ==> i <= r.value < |paths| && pathExists(paths[r.value])
    ensures r.Some? ==> forall j :: i <= j < r.value ==> !pathExists(paths[j])
    ensures r.None? ==> forall j :: i <= j < |paths| ==> !pathExists(paths[j])
    decreases |paths| - i
  {
    if i == |paths| then None
    else if pathExists(paths[i]) then Some(i)
    else FirstExistingFrom(paths, pathExists, i + 1)
  }

  /** The index of the first path that exists. */
  function FirstExisting(paths: seq<string>, pathExists: string -> bool): (r: Option<nat>)
    ensures r.Some? ==> r.value < |paths| && pathExists(paths[r.value])
    ensures r.Some? ==> forall j :: 0 <= j < r.value ==> !pathExists(paths[j])
    ensures r.None? ==> forall j :: 0 <= j < |paths| ==> !pathExists(paths[j])
  {
    FirstExistingFrom(paths, pathExists, 0)
  }

  /** `get_powershell_path()`: the first candidate that exists, else the bare executable name. */
  method GetPowershellPath(pathExists: string -> bool) returns (path: string)
    ensures FirstExisting(PowerShellCandidates, pathExists).Some? ==>
      path == PowerShellCandidates[FirstExisting(PowerShellCandidates, pathExists).value]
    ensures FirstExisting(PowerShellCandidates, pathExists).None? ==> path == PowerShellFallback
  {
    var i := 0;
    while i < |PowerShellCandidates|
      invariant 0 <= i <= |PowerShellCandidates|
      invariant forall j :: 0 <= j < i ==> !pathExists(PowerShellCandidates[j])
    {
      if pathExists(PowerShellCandidates[i]) {
        return PowerShellCandidates[i];
      }
      i := i + 1;
    }
    return PowerShellFallback;
  }

  /** The dictionary `execute_shell_command` returns. */
  datatype ShellResult =
    | FileCreated(status: string, filePath: string, content: string)
    | ProcessCompleted(status: string, returncode: int, stdout: string, stderr: string)

  /** What `subprocess.run` returned, or the exception it raised. */
  datatype Completion =
    | Completion(returncode: int, stdout: string, stderr: string)
    | RunRaised(error: string)

  /** The result of an ordinary command: "success" exactly for return code 0, with the output passed through. */
  predicate ReportsRun(res: ShellResult, run: Completion)
    requires run.Completion?
  {
    res.ProcessCompleted? && (res.status == "success" <==> run.returncode == 0) &&
    res.returncode == run.returncode && res.stdout == run.stdout && res.stderr == run.stderr
  }

  const ShortCreationError: string := "ValueError: Invalid file creation command format"

  /**
   * `execute_shell_command(command)`, with the body scan starting at line `first` (1 as the
   * source has it, 0 for the corrected scan). `writeError` is the exception a failed write
   * raises, `run` what the process returned.
   */
  function Execution(command: string, first: nat, writeError: Option<string>, run: Completion): Outcome<ShellResult>
    requires first <= 1
  {
    if IsFileCreation(command) then
      var lines := Lines(command);
      if |lines| < 3 then Raised(ShortCreationError)
      else
        match PathBetween(lines[0])
        case Raised(e) => Raised(e)
        case Returned(path) =>
          if writeError.Some? then Raised(writeError.value)
          else Returned(FileCreated("success", path, Content(lines[first..])))
    else if run.RunRaised? then Raised(run.error)
    else
      Returned(ProcessCompleted(if run.returncode == 0 then "success" else "error", run.returncode, run.stdout, run.stderr))
  }

  /** The file-creation branch once the line count is checked: path, body scan over `body`, write. */
  method CreateFile(lines: seq<string>, body: seq<string>, writeError: Option<string>) returns (r: Outcome<ShellResult>)
    requires lines != []
    ensures PathBetween(lines[0]).Raised? ==> r == Raised(PathBetween(lines[0]).error)
    ensures PathBetween(lines[0]).Returned? && writeError.Some? ==> r == Raised(writeError.value)
    ensures PathBetween(lines[0]).Returned? && writeError.None? ==>
      r == Returned(FileCreated("success", PathBetween(lines[0]).value, Content(body)))
  {
    var filePath := PathBetween(lines[0]);
    if filePath.Raised? {
      return Raised(filePath.error);
    }
    var contentLines := ScanEofFirst(body);
    var content := Strip(Join("\n", contentLines));
    if writeError.Some? {
      return Raised(writeError.value);
    }
    r := Returned(FileCreated("success", filePath.value, content));
  }

  /** `execute_shell_command` as written: the body scan skips the first line. */
  method ExecuteShellCommand(command: string, writeError: Option<string>, run: Completion) returns (r: Outcome<ShellResult>)
    ensures r == Execution(command, 1, writeError, run)
    ensures !IsFileCreation(command) && run.Completion? ==> r.Returned? && ReportsRun(r.value, run)
    ensures !IsFileCreation(command) && run.RunRaised? ==> r == Raised(run.error)
    ensures IsFileCreation(command) && |Lines(command)| < 3 ==> r == Raised(ShortCreationError)
    ensures r.Returned? && r.value.FileCreated? ==> r.value.status == "success" && writeError.None?
  {
    if Contains(command, "cat >") && Contains(command, "<<") && Contains(command, "EOF") {
      var lines := Lines(command);
      if |lines| < 3 {
        return Raised(ShortCreationError);
      }
      r := CreateFile(lines, lines[1..], writeError);
      return;
    }
    if run.RunRaised? {
      return Raised(run.error);
    }
    var status := if run.returncode == 0 then "success" else "error";
    r := Returned(ProcessCompleted(status, run.returncode, run.stdout, run.stderr));
  }

  /** `execute_shell_command` with the body scan over every line, so that an opener on the first line counts. */
  method ExecuteShellCommandScanningAll(command: string, writeError: Option<string>, run: Completion) returns (r: Outcome<ShellResult>)
    ensures r == Execution(command, 0, writeError, run)
    ensures !IsFileCreation(command) && run.Completion? ==> r.Returned? && ReportsRun(r.value, run)
    ensures !IsFileCreation(command) && run.RunRaised? ==> r == Raised(run.error)
    ensures IsFileCreation(command) && |Lines(command)| < 3 ==> r == Raised(ShortCreationError)
    ensures r.Returned? && r.value.FileCreated? ==> r.value.status == "success" && writeError.None?
  {
    if Contains(command, "cat >") && Contains(command, "<<") && Contains(command, "EOF") {
      var lines := Lines(command);
      if |lines| < 3 {
        return Raised(ShortCreationError);
      }
      r := CreateFile(lines, lines, writeError);
      return;
    }
    if run.RunRaised? {
      return Raised(run.error);
    }
    var status := if run.returncode == 0 then "success" else "error";
    r := Returned(ProcessCompleted(status, run.returncode, run.stdout, run.stderr));
  }

  /** A canonical file creation has at least three lines and the path `f`. */
  lemma CreationParsed(f: string, c: string)
    requires PlainName(f)
    ensures IsFileCreation(UnixCreation(f, c)) && |Lines(UnixCreation(f, c))| >= 3
    ensures PathBetween(Lines(UnixCreation(f, c))[0]) == Returned(f)
  {
    CreationDetected(f, c);
    CreationLines(f, c);
    CreationPath(f);
  }

  /** With the corrected scan, a canonical file creation writes the file `f` with the stripped body. */
  lemma CreationWritesBody(f: string, c: string, run: Completion)
    requires PlainName(f) && PlainBody(c)
    ensures Execution(UnixCreation(f, c), 0, None, run) == Returned(FileCreated("success", f, Strip(c)))
  {
    CreationParsed(f, c);
    CreationContent(f, c);
    assert Lines(UnixCreation(f, c))[0..] == Lines(UnixCreation(f, c));
  }

  /** As written, a canonical file creation writes the file `f` empty. */
  lemma CreationWritesEmptyAsWritten(f: string, c: string, run: Completion)
    requires PlainName(f) && NoOpenerInBody(c)
    ensures Execution(UnixCreation(f, c), 1, None, run) == Returned(FileCreated("success", f, ""))
  {
    CreationParsed(f, c);
    CreationContentWithoutHeader(f, c);
  }

  /** A failed write of a canonical file creation re-raises the write's exception. */
  lemma CreationWriteFailure(f: string, c: string, first: nat, e: string, run: Completion)
    requires PlainName(f) && first <= 1
    ensures Execution(UnixCreation(f, c), first, Some(e), run) == Raised(e)
  {
    CreationParsed(f, c);
  }

  /**
   * What `translate_file_creation` builds on Linux or macOS, run through the corrected tool,
   * writes the named file with the stripped content.
   */
  lemma TranslatedCreationRoundTrip(os: OsDetection.OsType, shell: OsDetection.ShellType, f: string, c: string, run: Completion)
    requires os != OsDetection.Windows && PlainName(f) && PlainBody(c)
    ensures Execution(Translator.TranslateFileCreation(os, shell, f, c), 0, None, run) ==
      Returned(FileCreated("success", f, Strip(c)))
  {
    CreationWritesBody(f, c, run);
  }
}
