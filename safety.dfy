/**
 * The command safety classifier of `utils.py`: a command is "safe" (run without asking)
 * when it is empty, or when it contains no dangerous pattern, starts with a read-only
 * command, does not redirect into a file and pipes only into read-only commands.
 */
module Safety {
  import opened Wrappers
  import opened PyStrings

  /** Substrings that make a command dangerous, wherever they appear. */
  const DangerousCommandPatterns: seq<string> := [
    "rm -rf", "sudo", "mkfs", "> /dev/sd", "dd if=", ":(){:|:&};:",
    "mv /", "chmod 000", "chown root"
  ]

  /** Command prefixes taken as read-only. */
  const ReadOnlyCommandsStart: seq<string> := [
    "ls", "cat", "grep", "find", "pwd", "git status", "git diff", "man", "echo"
  ]

  /** `any(s.startswith(ro) for ro in READ_ONLY_COMMANDS_START)` */
  predicate StartsReadOnly(s: string) {
    exists ro :: ro in ReadOnlyCommandsStart && StartsWith(s, ro)
  }

  /** Some dangerous pattern is a substring of `s`. */
  predicate HasDangerousPattern(s: string) {
    exists p :: p in DangerousCommandPatterns && Contains(s, p)
  }

  /** The lower-cased, stripped command the classifier inspects. */
  function Lowered(command: string): string {
    Strip(Lower(command))
  }

  /** A `>` in the command is still there after lower-casing and stripping. */
  lemma RedirectSurvivesLowering(command: string)
    requires Contains(command, ">")
    ensures Contains(Lowered(command), ">")
  {
    ContainsChar(command, '>');
    LowerStripKeeps(command, '>');
    ContainsChar(Lowered(command), '>');
  }

  /**
   * The redirection rule: a `>` in the command, no `>>` in the lowered command, and the text
   * after the first `>` (stripped) does not start with `/dev/null`.
   */
  predicate WritesByRedirect(command: string) {
    Contains(command, ">") && !Contains(Lowered(command), ">>") &&
    (RedirectSurvivesLowering(command);
     !StartsWith(Strip(SplitOnce(Lowered(command), ">")[1]), "/dev/null"))
  }

  /** `is_command_safe_recursive_pipe(part)` */
  predicate IsCommandSafeRecursivePipe(part: string) {
    StartsReadOnly(part)
  }

  /** Every pipe segment in `segments` passes the per-segment test of `is_command_safe`. */
  predicate PipeSegmentsSafe(segments: seq<string>) {
    forall k :: 0 <= k < |segments| ==>
      StartsReadOnly(Strip(segments[k])) || IsCommandSafeRecursivePipe(Strip(segments[k]))
  }

  /** `is_command_safe(command)` */
  predicate IsCommandSafe(command: string) {
    var lowered := Lowered(command);
    if lowered == [] then true
    else if HasDangerousPattern(lowered) then false
    else if StartsReadOnly(lowered) then
      if WritesByRedirect(command) then false
      else if Contains(command, "|") && !PipeSegmentsSafe(Split(lowered, "|")[1..]) then false
      else true
    else false
  }

  /** An empty or whitespace-only command is safe. */
  lemma EmptyIsSafe(command: string)
    requires Lowered(command) == []
    ensures IsCommandSafe(command)
  {
  }

  /** A dangerous pattern anywhere in the lowered command makes it unsafe, whatever else holds. */
  lemma DangerousIsUnsafe(command: string, p: string)
    requires p in DangerousCommandPatterns && Contains(Lowered(command), p)
    ensures !IsCommandSafe(command)
  {
  }

  /** A non-empty command that does not start with a read-only prefix is unsafe. */
  lemma NotReadOnlyIsUnsafe(command: string)
    requires Lowered(command) != [] && !StartsReadOnly(Lowered(command))
    ensures !IsCommandSafe(command)
  {
  }

  /** A read-only command that redirects into anything but `/dev/null` is unsafe. */
  lemma RedirectIsUnsafe(command: string)
    requires StartsReadOnly(Lowered(command)) && WritesByRedirect(command)
    ensures !IsCommandSafe(command)
  {
  }

  /**
   * The pipe rule: a read-only command with no dangerous pattern and no writing redirection
   * is safe exactly when every pipe segment after the first, stripped, starts read-only.
   */
  lemma PipeRule(command: string)
    requires !HasDangerousPattern(Lowered(command)) && StartsReadOnly(Lowered(command))
    requires !WritesByRedirect(command)
    ensures var segments := Split(Lowered(command), "|");
            IsCommandSafe(command) <==>
              forall k :: 1 <= k < |segments| ==> StartsReadOnly(Strip(segments[k]))
  {
    var lowered := Lowered(command);
    var segments := Split(lowered, "|");
    assert lowered != [] by {
      var ro :| ro in ReadOnlyCommandsStart && StartsWith(lowered, ro);
    }
    if !Contains(command, "|") {
      ContainsChar(command, '|');
      if '|' in lowered {
        LowerStripFrom(command, '|');
      }
      ContainsChar(lowered, '|');
      assert segments == [lowered];
    } else {
      forall k | 1 <= k < |segments|
        ensures StartsReadOnly(Strip(segments[k])) <==> StartsReadOnly(Strip(segments[1..][k - 1]))
      {
        assert segments[1..][k - 1] == segments[k];
      }
    }
  }

  /** The nested `is_command_safe_recursive_pipe` call never overturns the segment test it follows. */
  lemma RecursivePipeCheckAgrees(segments: seq<string>)
    ensures PipeSegmentsSafe(segments) <==> forall k :: 0 <= k < |segments| ==> StartsReadOnly(Strip(segments[k]))
  {
  }

  /** A read-only command with no dangerous pattern, no `>` and no `|` is safe. */
  lemma PlainReadOnlyIsSafe(command: string)
    requires !HasDangerousPattern(Lowered(command)) && StartsReadOnly(Lowered(command))
    requires !Contains(command, ">") && !Contains(command, "|")
    ensures IsCommandSafe(command)
  {
    var ro :| ro in ReadOnlyCommandsStart && StartsWith(Lowered(command), ro);
  }

  /** A command without upper-case letters and without outer whitespace is inspected as written. */
  lemma LoweredIdentity(c: string)
    requires forall i :: 0 <= i < |c| ==> !('A' <= c[i] <= 'Z')
    requires c == [] || (c[0] !in Whitespace && c[|c| - 1] !in Whitespace)
    ensures Lowered(c) == c
  {
    LowerNoUpper(c);
    StripNoop(c, Whitespace);
  }

  /**
   * No dangerous pattern occurs in `s` when `s` never holds `m` followed by a space (which
   * excludes `rm -rf`) and holds none of the characters `w`, the `i`-th of which belongs to
   * the `i+1`-th pattern.
   */
  lemma NoDangerByWitness(s: string, w: string)
    requires |w| == |DangerousCommandPatterns| - 1
    requires forall i :: 0 <= i < |w| ==> w[i] in DangerousCommandPatterns[i + 1]
    requires forall j :: 0 <= j < |s| ==> s[j] !in w
    requires forall j :: 0 <= j < |s| - 1 ==> !(s[j] == 'm' && s[j + 1] == ' ')
    ensures !HasDangerousPattern(s)
  {
    forall p | p in DangerousCommandPatterns ensures !Contains(s, p) {
      var i :| 0 <= i < |DangerousCommandPatterns| && DangerousCommandPatterns[i] == p;
      if i == 0 {
        NotContainsByPair(s, p, 1);
      } else {
        NotContainsByChar(s, p, w[i - 1]);
      }
    }
  }

  /** Splitting on `|` when the only `|` is at index `i`. */
  lemma SplitSinglePipe(c: string, i: nat)
    requires i < |c| && c[i] == '|'
    requires forall j :: 0 <= j < i ==> c[j] != '|'
    requires forall j :: i < j < |c| ==> c[j] != '|'
    ensures Split(c, "|") == [c[..i], c[i + 1..]]
  {
    IndexOfChar(c, '|', i);
    assert '|' !in c[i + 1..];
    ContainsChar(c[i + 1..], '|');
  }

  /**
   * For a command the classifier inspects as written, with no dangerous pattern, a read-only
   * start, no `>` and exactly one `|` at index `i`: it is safe exactly when the text after
   * the pipe, stripped, starts read-only.
   */
  lemma SinglePipeRule(c: string, i: nat)
    requires Lowered(c) == c && !HasDangerousPattern(c) && StartsReadOnly(c)
    requires forall j :: 0 <= j < |c| ==> c[j] != '>'
    requires i < |c| && c[i] == '|'
    requires forall j :: 0 <= j < |c| && j != i ==> c[j] != '|'
    ensures IsCommandSafe(c) <==> StartsReadOnly(Strip(c[i + 1..]))
  {
    NotContainsByChar(c, ">", '>');
    SplitSinglePipe(c, i);
    PipeRule(c);
  }

  lemma ListingChars(c: string)
    requires c == "ls -l"
    ensures forall j :: 0 <= j < |c| ==> c[j] !in "umdd:mmw>|" && !('A' <= c[j] <= 'Z')
    ensures forall j :: 0 <= j < |c| - 1 ==> !(c[j] == 'm' && c[j + 1] == ' ')
  {
  }

  /** `ls -l` is safe. */
  lemma ListingIsSafe(c: string)
    requires c == "ls -l"
    ensures IsCommandSafe(c)
  {
    ListingChars(c);
    LoweredIdentity(c);
    NoDangerByWitness(c, "umdd:mmw");
    assert StartsWith(c, "ls");
    NotContainsByChar(c, ">", '>');
    NotContainsByChar(c, "|", '|');
    PlainReadOnlyIsSafe(c);
  }

  /** `rm -rf /` holds the pattern `rm -rf`. */
  lemma RecursiveRemoveIsUnsafe(c: string)
    requires c == "rm -rf /"
    ensures !IsCommandSafe(c)
  {
    LoweredIdentity(c);
    assert OccursAt(c, "rm -rf", 0);
    ContainsAt(c, "rm -rf", 0);
    DangerousIsUnsafe(c, "rm -rf");
  }

  /** `sudo apt update` holds the pattern `sudo`. */
  lemma SudoIsUnsafe(c: string)
    requires c == "sudo apt update"
    ensures !IsCommandSafe(c)
  {
    LoweredIdentity(c);
    assert OccursAt(c, "sudo", 0);
    ContainsAt(c, "sudo", 0);
    DangerousIsUnsafe(c, "sudo");
  }

  /** No upper-case letter and none of the characters `w`. */
  predicate Avoids(s: string, w: string) {
    forall j :: 0 <= j < |s| ==> !('A' <= s[j] <= 'Z') && s[j] !in w
  }

  /** No `m` followed by a space. */
  predicate NoMSpace(s: string) {
    forall j :: 0 <= j < |s| - 1 ==> !(s[j] == 'm' && s[j + 1] == ' ')
  }

  /** A piece of a command the classifier inspects as written, with none of the characters `w`. */
  predicate Tame(s: string, w: string) {
    Avoids(s, w) && NoMSpace(s)
  }

  /** The witness characters of `NoDangerByWitness` for commands without `>`. */
  lemma PipeWitness(w: string)
    requires w == "uk>=:v0w"
    ensures |w| == |DangerousCommandPatterns| - 1
    ensures forall i :: 0 <= i < |w| ==> w[i] in DangerousCommandPatterns[i + 1]
  {
  }

  /** The witness characters of `NoDangerByWitness` for commands that hold `>` but no `d`. */
  lemma RedirectWitness(w: string)
    requires w == "umdd:mmw"
    ensures |w| == |DangerousCommandPatterns| - 1
    ensures forall i :: 0 <= i < |w| ==> w[i] in DangerousCommandPatterns[i + 1]
  {
  }

  /** A leading space keeps a piece tame. */
  lemma TameSpace(g: string, w: string)
    requires Tame(g, w) && ' ' !in w
    ensures Tame(" " + g, w)
  {
    var r := " " + g;
    forall j | 0 <= j < |r| ensures !('A' <= r[j] <= 'Z') && r[j] !in w {
      if j > 0 {
        assert r[j] == g[j - 1];
      }
    }
    forall j | 0 <= j < |r| - 1 ensures !(r[j] == 'm' && r[j + 1] == ' ') {
      if j > 0 {
        assert r[j] == g[j - 1] && r[j + 1] == g[j];
      }
    }
  }

  /**
   * Two pieces tame for `w2 + [x]` joined by `x`: the joined command has no upper-case letter,
   * none of the characters `w2`, no `m` before a space, and no `x` except the joint.
   */
  lemma TameJoin(l: string, x: char, r: string, w: string, w2: string)
    requires w == w2 + [x] && x !in w2 && x != 'm' && x != ' ' && !('A' <= x <= 'Z')
    requires Tame(l, w) && Tame(r, w)
    ensures var c := l + [x] + r;
      (forall j :: 0 <= j < |c| ==> !('A' <= c[j] <= 'Z') && c[j] !in w2) &&
      (forall j :: 0 <= j < |c| - 1 ==> !(c[j] == 'm' && c[j + 1] == ' ')) &&
      (forall j :: 0 <= j < |c| && j != |l| ==> c[j] != x)
  {
    var c := l + [x] + r;
    forall j | 0 <= j < |c| ensures !('A' <= c[j] <= 'Z') && c[j] !in w2 && (j != |l| ==> c[j] != x) {
      if j < |l| {
        assert c[j] == l[j];
        assert l[j] !in w;
      } else if j > |l| {
        assert c[j] == r[j - |l| - 1];
        assert r[j - |l| - 1] !in w;
      } else {
        assert c[j] == x;
      }
    }
    forall j | 0 <= j < |c| - 1 ensures !(c[j] == 'm' && c[j + 1] == ' ') {
      if j + 1 < |l| {
        assert c[j] == l[j] && c[j + 1] == l[j + 1];
      } else if j > |l| {
        assert c[j] == r[j - |l| - 1] && c[j + 1] == r[j - |l|];
      } else if j == |l| {
        assert c[j] == x;
      } else {
        assert c[j + 1] == x;
      }
    }
  }

  /** A read-only start of a piece is a read-only start of anything that extends it. */
  lemma StartsReadOnlyExtends(l: string, t: string)
    requires StartsReadOnly(l)
    ensures StartsReadOnly(l + t)
  {
    var ro :| ro in ReadOnlyCommandsStart && StartsWith(l, ro);
    assert (l + t)[..|ro|] == l[..|ro|];
  }

  /** A word without outer whitespace after one space is stripped back to the word. */
  lemma StripSpaced(g: string)
    requires g != [] && g[0] !in Whitespace && g[|g| - 1] !in Whitespace
    ensures Strip(" " + g) == g
  {
    assert ' ' in Whitespace;
    StripPadded(" ", g, "", Whitespace);
    assert " " + g + "" == " " + g;
  }

  /** Two tame pieces joined by `x`, the first without leading and the second without trailing whitespace, are inspected as written. */
  lemma JoinedLowered(l: string, x: char, r: string, w: string, w2: string)
    requires w == w2 + [x] && x !in w2 && x != 'm' && x != ' ' && !('A' <= x <= 'Z')
    requires Tame(l, w) && Tame(r, w)
    requires l != [] && l[0] !in Whitespace && r != [] && r[|r| - 1] !in Whitespace
    ensures Lowered(l + [x] + r) == l + [x] + r
  {
    var c := l + [x] + r;
    TameJoin(l, x, r, w, w2);
    assert c[0] == l[0] && c[|c| - 1] == r[|r| - 1];
    LoweredIdentity(c);
  }

  /** Two tame pieces joined by `x`, the other characters of `w` being witnesses for `NoDangerByWitness`, hold no dangerous pattern. */
  lemma JoinedNoDanger(l: string, x: char, r: string, w: string, w2: string)
    requires w == w2 + [x] && x !in w2 && x != 'm' && x != ' ' && !('A' <= x <= 'Z')
    requires |w2| == |DangerousCommandPatterns| - 1
    requires forall i :: 0 <= i < |w2| ==> w2[i] in DangerousCommandPatterns[i + 1]
    requires Tame(l, w) && Tame(r, w)
    ensures !HasDangerousPattern(l + [x] + r)
  {
    TameJoin(l, x, r, w, w2);
    NoDangerByWitness(l + [x] + r, w2);
  }

  /** `l| g` for tame pieces: lower case and free of dangerous patterns, as `SinglePipeRule` needs. */
  lemma PipedFacts(l: string, g: string)
    requires Tame(l, "uk>=:v0w|") && Tame(g, "uk>=:v0w|") && StartsReadOnly(l)
    requires l != [] && l[0] !in Whitespace && g != [] && g[|g| - 1] !in Whitespace
    ensures var c := l + "|" + (" " + g);
      Lowered(c) == c && !HasDangerousPattern(c)
  {
    var r := " " + g;
    var c := l + "|" + r;
    assert ' ' !in "uk>=:v0w|";
    TameSpace(g, "uk>=:v0w|");
    PipeWitness("uk>=:v0w");
    assert "uk>=:v0w|" == "uk>=:v0w" + ['|'];
    assert c == l + ['|'] + r;
    JoinedLowered(l, '|', r, "uk>=:v0w|", "uk>=:v0w");
    JoinedNoDanger(l, '|', r, "uk>=:v0w|", "uk>=:v0w");
  }

  /** `l| g` starts read-only when `l` does. */
  lemma PipedStartsReadOnly(l: string, g: string)
    requires StartsReadOnly(l)
    ensures StartsReadOnly(l + "|" + (" " + g))
  {
    StartsReadOnlyExtends(l, "|" + (" " + g));
    assert l + "|" + (" " + g) == l + ("|" + (" " + g));
  }

  /** `l| g` for tame pieces: the joint is its only `|`, and it holds no `>`. */
  lemma PipedChars(l: string, g: string)
    requires Tame(l, "uk>=:v0w|") && Tame(g, "uk>=:v0w|")
    ensures var c := l + "|" + (" " + g);
      c[|l|] == '|' && forall j :: 0 <= j < |c| ==> c[j] != '>' && (j != |l| ==> c[j] != '|')
  {
    var r := " " + g;
    var c := l + "|" + r;
    assert ' ' !in "uk>=:v0w|";
    TameSpace(g, "uk>=:v0w|");
    assert "uk>=:v0w|" == "uk>=:v0w" + ['|'];
    assert c == l + ['|'] + r;
    TameJoin(l, '|', r, "uk>=:v0w|", "uk>=:v0w");
    assert '>' in "uk>=:v0w";
  }

  /**
   * `l| g` for tame pieces, `l` starting read-only and `g` without outer whitespace: safe
   * exactly when `g` starts read-only.
   */
  lemma PipedPieces(l: string, g: string)
    requires Tame(l, "uk>=:v0w|") && Tame(g, "uk>=:v0w|") && StartsReadOnly(l)
    requires l != [] && l[0] !in Whitespace && g != [] && g[0] !in Whitespace && g[|g| - 1] !in Whitespace
    ensures IsCommandSafe(l + "|" + (" " + g)) <==> StartsReadOnly(g)
  {
    var c := l + "|" + (" " + g);
    PipedFacts(l, g);
    PipedChars(l, g);
    PipedStartsReadOnly(l, g);
    SinglePipeRule(c, |l|);
    assert c[|l| + 1..] == " " + g;
    StripSpaced(g);
  }

  /** `l> f` for tame pieces, `l` starting read-only: the command is inspected as written and its only `>` is the joint. */
  lemma RedirectFacts(l: string, f: string)
    requires Tame(l, "umdd:mmw>") && Tame(f, "umdd:mmw>") && StartsReadOnly(l)
    requires l != [] && l[0] !in Whitespace && f != [] && f[|f| - 1] !in Whitespace
    ensures var c := l + ">" + (" " + f);
      StartsReadOnly(c) && Lowered(c) == c && c[|l|] == '>' &&
      forall j :: 0 <= j < |c| && j != |l| ==> c[j] != '>'
  {
    var r := " " + f;
    var c := l + ">" + r;
    assert ' ' !in "umdd:mmw>";
    TameSpace(f, "umdd:mmw>");
    assert "umdd:mmw>" == "umdd:mmw" + ['>'];
    assert c == l + ['>'] + r;
    JoinedLowered(l, '>', r, "umdd:mmw>", "umdd:mmw");
    StartsReadOnlyExtends(l, ">" + r);
    TameJoin(l, '>', r, "umdd:mmw>", "umdd:mmw");
  }

  /**
   * `l> f` for tame pieces, `l` starting read-only and `f` without outer whitespace: unsafe
   * unless `f` starts with `/dev/null`.
   */
  lemma RedirectPieces(l: string, f: string)
    requires Tame(l, "umdd:mmw>") && Tame(f, "umdd:mmw>") && StartsReadOnly(l)
    requires l != [] && l[0] !in Whitespace && f != [] && f[0] !in Whitespace && f[|f| - 1] !in Whitespace
    requires !StartsWith(f, "/dev/null")
    ensures !IsCommandSafe(l + ">" + (" " + f))
  {
    var c := l + ">" + (" " + f);
    RedirectFacts(l, f);
    assert c[|l| + 1..] == " " + f;
    StripSpaced(f);
    RedirectAt(c, |l|);
    RedirectIsUnsafe(c);
  }

  /** A command inspected as written whose only `>` is at `i` writes to the text after it. */
  lemma RedirectAt(c: string, i: nat)
    requires Lowered(c) == c && i < |c| && c[i] == '>'
    requires forall j :: 0 <= j < |c| && j != i ==> c[j] != '>'
    requires !StartsWith(Strip(c[i + 1..]), "/dev/null")
    ensures WritesByRedirect(c)
  {
    assert c[i..i + 1] == ">";
    ContainsAt(c, ">", i);
    NotContainsByPair(c, ">>", 0);
    IndexOfChar(c, '>', i);
    assert SplitOnce(c, ">")[1] == c[i + 1..];
  }

  /** `find . -name "*.py" ` avoids the pipe witnesses. */
  lemma FindAvoids(l: string)
    requires l == "find . -name \"*.py\" "
    ensures Avoids(l, "uk>=:v0w|")
  {
  }

  /** `find . -name "*.py" ` has no `m` before a space. */
  lemma FindNoMSpace(l: string)
    requires l == "find . -name \"*.py\" "
    ensures NoMSpace(l)
  {
  }

  /** `find . -name "*.py" ` starts read-only. */
  lemma FindStart(l: string)
    requires l == "find . -name \"*.py\" "
    ensures StartsReadOnly(l) && l[0] !in Whitespace
  {
    assert StartsWith(l, "find");
  }

  /** `grep "class"` avoids the pipe witnesses. */
  lemma GrepAvoids(g: string)
    requires g == "grep \"class\""
    ensures Avoids(g, "uk>=:v0w|") && NoMSpace(g)
  {
  }

  /** `grep "class"` starts read-only and has no outer whitespace. */
  lemma GrepStart(g: string)
    requires g == "grep \"class\""
    ensures StartsReadOnly(g) && g[0] !in Whitespace && g[|g| - 1] !in Whitespace
  {
    assert StartsWith(g, "grep");
  }

  /** `xargs rm` avoids the pipe witnesses. */
  lemma XargsAvoids(x: string)
    requires x == "xargs rm"
    ensures Avoids(x, "uk>=:v0w|") && NoMSpace(x)
  {
  }

  /** `xargs rm` is not read-only and has no outer whitespace. */
  lemma XargsStart(x: string)
    requires x == "xargs rm"
    ensures !StartsReadOnly(x) && x[0] !in Whitespace && x[|x| - 1] !in Whitespace
  {
    forall ro | ro in ReadOnlyCommandsStart ensures !StartsWith(x, ro) {
      assert ro[0] != 'x';
    }
  }

  /** `find . -name "*.py" | grep "class"` pipes a read-only command into a read-only command. */
  lemma FindGrepIsSafe(l: string, g: string)
    requires l == "find . -name \"*.py\" " && g == "grep \"class\""
    ensures IsCommandSafe(l + "|" + (" " + g))
  {
    FindAvoids(l);
    FindNoMSpace(l);
    FindStart(l);
    GrepAvoids(g);
    GrepStart(g);
    PipedPieces(l, g);
  }

  /** `find . -name "*.py" | xargs rm` pipes into `xargs`, which is not read-only. */
  lemma FindXargsIsUnsafe(l: string, x: string)
    requires l == "find . -name \"*.py\" " && x == "xargs rm"
    ensures !IsCommandSafe(l + "|" + (" " + x))
  {
    FindAvoids(l);
    FindNoMSpace(l);
    FindStart(l);
    XargsAvoids(x);
    XargsStart(x);
    PipedPieces(l, x);
  }

  /** `echo "hi" ` avoids the redirect witnesses and starts read-only. */
  lemma EchoSide(l: string)
    requires l == "echo \"hi\" "
    ensures Tame(l, "umdd:mmw>") && StartsReadOnly(l) && l[0] !in Whitespace
  {
    assert StartsWith(l, "echo");
  }

  /** `file.txt` avoids the redirect witnesses and is not `/dev/null`. */
  lemma FileSide(f: string)
    requires f == "file.txt"
    ensures Tame(f, "umdd:mmw>") && f[0] !in Whitespace && f[|f| - 1] !in Whitespace
    ensures !StartsWith(f, "/dev/null")
  {
  }

  /** `echo "hi" > file.txt` starts read-only but writes a file through `>`. */
  lemma EchoRedirectIsUnsafe(l: string, f: string)
    requires l == "echo \"hi\" " && f == "file.txt"
    ensures !IsCommandSafe(l + ">" + (" " + f))
  {
    EchoSide(l);
    FileSide(f);
    RedirectPieces(l, f);
  }
}
