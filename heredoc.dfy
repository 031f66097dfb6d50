/**
 * The heredoc reading shared by `agent/tools.py`, `agent/nodes.py` and `command_translator.py`:
 * a file-creation command `cat > FILE << 'EOF'` / body lines / `EOF` is split into lines,
 * the file name is taken from between `cat >` and `<<`, and the body is collected by a scan
 * that switches on at a line ending in `<< 'EOF'` and off at a line that is `EOF`.
 */
module Heredoc {
  import opened Wrappers
  import opened PyStrings

  /** The opening marker the scans look for at the end of a line. */
  const OpenMarker: string := "<< 'EOF'"

  /** `line.strip() == 'EOF'` */
  predicate IsEofLine(line: string) {
    Strip(line) == "EOF"
  }

  /** `line.strip().endswith("<< 'EOF'")` */
  predicate OpensHeredoc(line: string) {
    EndsWith(Strip(line), OpenMarker)
  }

  /** No line both closes and opens a heredoc, so the order of the two tests does not matter. */
  lemma MarkersExclusive(line: string)
    ensures !(IsEofLine(line) && OpensHeredoc(line))
  {
  }

  /** A line that is neither an `EOF` line nor an opening line. */
  predicate PlainLine(line: string) {
    !IsEofLine(line) && !OpensHeredoc(line)
  }

  /** `'cat >' in command and '<<' in command and 'EOF' in command` */
  predicate IsFileCreation(command: string) {
    Contains(command, "cat >") && Contains(command, "<<") && Contains(command, "EOF")
  }

  /** `command.strip().split('\n')` */
  function Lines(command: string): (lines: seq<string>)
    ensures |lines| >= 1
    ensures Join("\n", lines) == Strip(command)
  {
    Split(Strip(command), "\n")
  }

  /** A command without a newline is a single line. */
  lemma SingleLine(command: string)
    requires '\n' !in command
    ensures Lines(command) == [Strip(command)]
  {
    assert '\n' !in Strip(command);
    ContainsChar(Strip(command), '\n');
  }

  /**
   * `text.split('cat >')[1].split('<<')[0].strip()`: the stripped text after the first `cat >`
   * up to the next `cat >` or `<<`; an IndexError when `text` has no `cat >`.
   */
  function PathBetween(text: string): (r: Outcome<string>)
    ensures r.Raised? <==> !Contains(text, "cat >")
  {
    match Item(Split(text, "cat >"), 1)
    case Raised(e) => Raised(e)
    case Returned(after) => Returned(Strip(Split(after, "<<")[0]))
  }

  /** How the body scan treats a line. */
  datatype LineKind = CloseLine | OpenLine | TextLine

  function KindOf(line: string): (k: LineKind)
    ensures k == CloseLine <==> IsEofLine(line)
    ensures k == OpenLine <==> OpensHeredoc(line)
    ensures k == TextLine <==> PlainLine(line)
  {
    MarkersExclusive(line);
    if IsEofLine(line) then CloseLine
    else if OpensHeredoc(line) then OpenLine
    else TextLine
  }

  /** The kind of every line. */
  function Kinds(lines: seq<string>): (ks: seq<LineKind>)
    ensures |ks| == |lines|
    ensures forall i :: 0 <= i < |lines| ==> ks[i] == KindOf(lines[i])
  {
    seq(|lines|, i requires 0 <= i < |lines| => KindOf(lines[i]))
  }

  /**
   * The lines collected by the body scan over `lines` of kinds `kinds`, and whether the scan
   * ends inside a heredoc: a closing line switches collection off, an opening line switches it
   * on, and a text line is collected while it is on.
   */
  function ScanKinds(lines: seq<string>, kinds: seq<LineKind>): (r: (seq<string>, bool))
    requires |kinds| == |lines|
    ensures |r.0| <= |lines|
    decreases |lines|
  {
    if lines == [] then ([], false)
    else
      var n := |lines| - 1;
      Step(ScanKinds(lines[..n], kinds[..n]), lines[n], kinds[n])
  }

  /** One line of the body scan, from the lines collected so far and whether the scan is inside a heredoc. */
  function Step(state: (seq<string>, bool), line: string, kind: LineKind): (seq<string>, bool) {
    var (content, inside) := state;
    match kind
    case CloseLine => (content, false)
    case OpenLine => (content, true)
    case TextLine => if inside then (content + [line], true) else (content, false)
  }

  /** The scan of the first `i + 1` lines is one step after the scan of the first `i`. */
  lemma ScanPrefixStep(lines: seq<string>, i: nat)
    requires i < |lines|
    ensures ScanKinds(lines[..i + 1], Kinds(lines)[..i + 1]) ==
      Step(ScanKinds(lines[..i], Kinds(lines)[..i]), lines[i], KindOf(lines[i]))
  {
    assert lines[..i + 1][..i] == lines[..i];
    assert Kinds(lines)[..i + 1][..i] == Kinds(lines)[..i];
  }

  /** The body scan over `lines`. */
  function Scan(lines: seq<string>): (seq<string>, bool) {
    ScanKinds(lines, Kinds(lines))
  }

  /** `'\n'.join(content_lines).strip()` for the lines the scan collects. */
  function Content(lines: seq<string>): string {
    Strip(Join("\n", Scan(lines).0))
  }

  /** The scan of `tools.py` and `nodes.py`, which tests for an `EOF` line first. */
  method ScanEofFirst(lines: seq<string>) returns (contentLines: seq<string>)
    ensures contentLines == Scan(lines).0
  {
    contentLines := [];
    var inHeredoc := false;
    var i := 0;
    while i < |lines|
      invariant 0 <= i <= |lines|
      invariant (contentLines, inHeredoc) == ScanKinds(lines[..i], Kinds(lines)[..i])
    {
      var line := lines[i];
      ScanPrefixStep(lines, i);
      if Strip(line) == "EOF" {
        inHeredoc := false;
      } else if EndsWith(Strip(line), OpenMarker) {
        inHeredoc := true;
      } else if inHeredoc {
        contentLines := contentLines + [line];
      }
      i := i + 1;
    }
    assert lines[..|lines|] == lines;
    assert Kinds(lines)[..|lines|] == Kinds(lines);
  }

  /** The scan of `command_translator.py`, which tests for an opening line first. */
  method ScanOpenerFirst(lines: seq<string>) returns (contentLines: seq<string>)
    ensures contentLines == Scan(lines).0
  {
    contentLines := [];
    var inContent := false;
    var i := 0;
    while i < |lines|
      invariant 0 <= i <= |lines|
      invariant (contentLines, inContent) == ScanKinds(lines[..i], Kinds(lines)[..i])
    {
      var line := lines[i];
      ScanPrefixStep(lines, i);
      if EndsWith(Strip(line), OpenMarker) {
        inContent := true;
      } else if Strip(line) == "EOF" {
        inContent := false;
      } else if inContent {
        contentLines := contentLines + [line];
      }
      i := i + 1;
    }
    assert lines[..|lines|] == lines;
    assert Kinds(lines)[..|lines|] == Kinds(lines);
  }

  /** The last line adds itself to the collected lines, if it is a text line, or nothing. */
  lemma ScanLastLine(lines: seq<string>, kinds: seq<LineKind>)
    requires |kinds| == |lines| && lines != []
    ensures var n := |lines| - 1;
      var content := ScanKinds(lines[..n], kinds[..n]).0;
      ScanKinds(lines, kinds).0 == content ||
      (ScanKinds(lines, kinds).0 == content + [lines[n]] && kinds[n] == TextLine)
  {
    var n := |lines| - 1;
    var prev := ScanKinds(lines[..n], kinds[..n]);
    assert ScanKinds(lines, kinds) == Step(prev, lines[n], kinds[n]);
    match kinds[n]
    case CloseLine =>
    case OpenLine =>
    case TextLine =>
  }

  /** `line` is one of the text lines of `lines`. */
  predicate IsTextLineOf(lines: seq<string>, kinds: seq<LineKind>, line: string)
    requires |kinds| == |lines|
  {
    exists i :: 0 <= i < |lines| && kinds[i] == TextLine && lines[i] == line
  }

  /** The `k`-th collected line is a text line of the input. */
  lemma {:induction false} CollectedIsText(lines: seq<string>, kinds: seq<LineKind>, k: nat)
    requires |kinds| == |lines| && k < |ScanKinds(lines, kinds).0|
    ensures IsTextLineOf(lines, kinds, ScanKinds(lines, kinds).0[k])
    decreases |lines|
  {
    var n := |lines| - 1;
    ScanLastLine(lines, kinds);
    var content := ScanKinds(lines[..n], kinds[..n]).0;
    var r := ScanKinds(lines, kinds).0;
    if k < |content| {
      CollectedIsText(lines[..n], kinds[..n], k);
      var i :| 0 <= i < n && kinds[..n][i] == TextLine && lines[..n][i] == content[k];
      assert kinds[i] == TextLine && lines[i] == r[k];
    } else {
      assert r == content + [lines[n]] && kinds[n] == TextLine;
      assert lines[n] == r[k];
    }
  }

  /** Every collected line is a text line of the input. */
  lemma ScanCollectsTextOnly(lines: seq<string>, kinds: seq<LineKind>)
    requires |kinds| == |lines|
    ensures forall k :: 0 <= k < |ScanKinds(lines, kinds).0| ==> IsTextLineOf(lines, kinds, ScanKinds(lines, kinds).0[k])
  {
    forall k | 0 <= k < |ScanKinds(lines, kinds).0| {
      CollectedIsText(lines, kinds, k);
    }
  }

  /** After an opening line, every following text line is collected, in order. */
  lemma {:induction false} ScanCollectsBody(lines: seq<string>, kinds: seq<LineKind>, body: seq<string>, bodyKinds: seq<LineKind>)
    requires |kinds| == |lines| && lines != [] && kinds[|kinds| - 1] == OpenLine
    requires |bodyKinds| == |body| && forall k :: 0 <= k < |body| ==> bodyKinds[k] == TextLine
    ensures ScanKinds(lines + body, kinds + bodyKinds) == (ScanKinds(lines, kinds).0 + body, true)
    decreases |body|
  {
    if body == [] {
      assert lines + body == lines && kinds + bodyKinds == kinds;
      var n := |lines| - 1;
      assert kinds[n] == OpenLine;
      assert ScanKinds(lines, kinds).1;
      assert ScanKinds(lines, kinds).0 + body == ScanKinds(lines, kinds).0;
    } else {
      var m := |body| - 1;
      ScanCollectsBody(lines, kinds, body[..m], bodyKinds[..m]);
      var n := |lines + body| - 1;
      assert (lines + body)[..n] == lines + body[..m];
      assert (kinds + bodyKinds)[..n] == kinds + bodyKinds[..m];
      assert (kinds + bodyKinds)[n] == TextLine;
      assert ScanKinds(lines, kinds).0 + body[..m] + [body[m]] == ScanKinds(lines, kinds).0 + body;
    }
  }

  /** Without an opening line, a scan that starts outside a heredoc collects nothing. */
  lemma {:induction false} ScanSkipsWithoutOpener(lines: seq<string>, kinds: seq<LineKind>, body: seq<string>, bodyKinds: seq<LineKind>)
    requires |kinds| == |lines| && !ScanKinds(lines, kinds).1
    requires |bodyKinds| == |body| && forall k :: 0 <= k < |body| ==> bodyKinds[k] != OpenLine
    ensures ScanKinds(lines + body, kinds + bodyKinds) == (ScanKinds(lines, kinds).0, false)
    decreases |body|
  {
    if body == [] {
      assert lines + body == lines && kinds + bodyKinds == kinds;
    } else {
      var m := |body| - 1;
      ScanSkipsWithoutOpener(lines, kinds, body[..m], bodyKinds[..m]);
      var n := |lines + body| - 1;
      assert (lines + body)[..n] == lines + body[..m];
      assert (kinds + bodyKinds)[..n] == kinds + bodyKinds[..m];
    }
  }

  /** The body of a well-formed heredoc is exactly the lines between the opening line and `EOF`. */
  lemma HeredocBody(open: string, body: seq<string>, close: string)
    requires OpensHeredoc(open) && IsEofLine(close)
    requires forall k :: 0 <= k < |body| ==> PlainLine(body[k])
    ensures Scan([open] + body + [close]).0 == body
  {
    var lines := [open] + body + [close];
    var bodyKinds := Kinds(body);
    KindsFramed(open, body, close);
    ScanEndsClosed(lines, Kinds(lines));
    assert lines[..|body| + 1] == [open] + body;
    assert Kinds(lines)[..|body| + 1] == [OpenLine] + bodyKinds;
    ScanCollectsBody([open], [OpenLine], body, bodyKinds);
    assert ScanKinds([open], [OpenLine]).0 == [] by {
      assert [open][..0] == [];
    }
  }

  /** The kinds of two runs of lines, one after the other. */
  lemma KindsConcat(a: seq<string>, b: seq<string>)
    ensures Kinds(a + b) == Kinds(a) + Kinds(b)
  {
    var ks := Kinds(a) + Kinds(b);
    forall i | 0 <= i < |a + b| ensures Kinds(a + b)[i] == ks[i] {
      if i < |a| {
        assert (a + b)[i] == a[i];
      } else {
        assert (a + b)[i] == b[i - |a|];
      }
    }
  }

  /** The kinds of a line, then lines, then a line. */
  lemma KindsFramed(open: string, body: seq<string>, close: string)
    ensures Kinds([open] + body + [close]) == [KindOf(open)] + Kinds(body) + [KindOf(close)]
  {
    KindsConcat([open], body);
    KindsConcat([open] + body, [close]);
    assert Kinds([open]) == [KindOf(open)];
    assert Kinds([close]) == [KindOf(close)];
  }

  /** A closing line at the end collects nothing more. */
  lemma ScanEndsClosed(lines: seq<string>, kinds: seq<LineKind>)
    requires |kinds| == |lines| && lines != [] && kinds[|kinds| - 1] == CloseLine
    ensures ScanKinds(lines, kinds).0 == ScanKinds(lines[..|lines| - 1], kinds[..|kinds| - 1]).0
  {
  }

  /** A scan that skips the first line never sees an opening marker that only the first line holds. */
  lemma SkippingOpenerLosesBody(body: seq<string>, close: string)
    requires forall k :: 0 <= k < |body| ==> !OpensHeredoc(body[k])
    requires IsEofLine(close)
    ensures Scan(body + [close]).0 == []
  {
    var lines := body + [close];
    var ks := Kinds(lines);
    var bodyKinds := ks[..|body|];
    forall k | 0 <= k < |body| ensures bodyKinds[k] != OpenLine {
      assert lines[k] == body[k];
    }
    ScanSkipsWithoutOpener([], [], body, bodyKinds);
    assert [] + body == body && [] + bodyKinds == bodyKinds;
    assert lines[..|body|] == body;
  }

  /** The command `cat > f << 'EOF'`, a newline, the body, a newline and `EOF`. */
  function UnixCreation(f: string, c: string): string {
    "cat > " + f + " << 'EOF'\n" + c + "\nEOF"
  }

  /** The first line of `UnixCreation(f, c)`. */
  function CreationHeader(f: string): string {
    "cat > " + f + " << 'EOF'"
  }

  /** A non-empty file name without a newline, `<` or `>`, and without surrounding whitespace. */
  predicate PlainName(f: string) {
    f != [] && f[0] !in Whitespace && f[|f| - 1] !in Whitespace &&
    '\n' !in f && '<' !in f && '>' !in f
  }

  /** A body none of whose lines is an `EOF` line or an opening line. */
  predicate PlainBody(c: string) {
    var lines := Split(c, "\n");
    forall k :: 0 <= k < |lines| ==> PlainLine(lines[k])
  }

  /** A body none of whose lines is an opening line. */
  predicate NoOpenerInBody(c: string) {
    var lines := Split(c, "\n");
    forall k :: 0 <= k < |lines| ==> !OpensHeredoc(lines[k])
  }

  /** The header line opens the heredoc. */
  lemma HeaderOpens(f: string)
    requires PlainName(f)
    ensures OpensHeredoc(CreationHeader(f))
  {
    var h := CreationHeader(f);
    StripNoop(h, Whitespace);
    assert h[|h| - 8..] == OpenMarker;
  }

  /** The header of a plain name holds no newline. */
  lemma HeaderSingleLine(f: string)
    requires PlainName(f)
    ensures Split(CreationHeader(f), "\n") == [CreationHeader(f)]
  {
    var h := CreationHeader(f);
    assert '\n' !in "cat > " && '\n' !in " << 'EOF'";
    assert '\n' !in h;
    ContainsChar(h, '\n');
  }

  /** `UnixCreation(f, c)` has no surrounding whitespace. */
  lemma CreationStripped(f: string, c: string)
    ensures Strip(UnixCreation(f, c)) == UnixCreation(f, c)
  {
    var cmd := UnixCreation(f, c);
    assert cmd[0] == 'c' && cmd[|cmd| - 1] == 'F';
    StripNoop(cmd, Whitespace);
  }

  /** Splitting `a`, newline, `b`, newline, `e` on newlines, where `a` and `e` are single lines. */
  lemma SplitFramed(a: string, b: string, e: string)
    requires '\n' !in a && '\n' !in e
    ensures Split(a + "\n" + b + "\n" + e, "\n") == [a] + Split(b, "\n") + [e]
  {
    SplitConcatChar(a + "\n" + b, '\n', e);
    SplitConcatChar(a, '\n', b);
    ContainsChar(a, '\n');
    ContainsChar(e, '\n');
  }

  /** The lines of `UnixCreation(f, c)` are the header, the lines of `c`, and `EOF`. */
  lemma CreationLines(f: string, c: string)
    requires PlainName(f)
    ensures Lines(UnixCreation(f, c)) == [CreationHeader(f)] + Split(c, "\n") + ["EOF"]
  {
    var h := CreationHeader(f);
    CreationStripped(f, c);
    assert UnixCreation(f, c) == h + "\n" + c + "\n" + "EOF";
    HeaderSingleLine(f);
    ContainsChar(h, '\n');
    assert '\n' !in "EOF";
    SplitFramed(h, c, "EOF");
  }

  /** `UnixCreation(f, c)` passes the `cat >` / `<<` / `EOF` test. */
  lemma CreationDetected(f: string, c: string)
    ensures IsFileCreation(UnixCreation(f, c))
  {
    var cmd := UnixCreation(f, c);
    assert OccursAt(cmd, "cat >", 0);
    ContainsAt(cmd, "cat >", 0);
    var n := |f| + 7;
    assert cmd[n..n + 2] == "<<";
    ContainsAt(cmd, "<<", n);
    assert cmd[|cmd| - 3..] == "EOF";
    ContainsAt(cmd, "EOF", |cmd| - 3);
  }

  /** A `cat >` after ` f << 'EOF'` starts after it, so the text up to it keeps ` f <<`. */
  lemma PathSegment(f: string, t: string)
    requires PlainName(f)
    ensures var seg := Split(" " + f + " " + OpenMarker + t, "cat >")[0];
      |seg| >= |f| + 4 && seg[..|f| + 4] == (" " + f + " ") + "<<"
  {
    var u := " " + f + " " + OpenMarker;
    assert '>' !in " " && '>' !in OpenMarker;
    assert '>' !in u;
    SplitHeadKeeps(u, t, "cat >", |f| + 4);
    assert u[..|f| + 4] == (" " + f + " ") + "<<";
  }

  /** In ` f <<…` the first `<<` follows the name and its space. */
  lemma SegmentAngles(f: string, seg: string)
    requires PlainName(f)
    requires |seg| >= |f| + 4 && seg[..|f| + 4] == (" " + f + " ") + "<<"
    ensures IndexOf(seg, "<<") == Some(|f| + 2)
  {
    var n := |f| + 2;
    var pre := (" " + f + " ") + "<<";
    assert forall j :: 0 <= j < n + 2 ==> seg[j] == pre[j];
    assert seg[n..n + 2] == pre[n..n + 2] == "<<";
    assert forall j :: 0 <= j < n ==> pre[j] != '<' by {
      forall j | 0 <= j < n ensures pre[j] != '<' {
        if 1 <= j < 1 + |f| {
          assert pre[j] == f[j - 1];
          assert f[j - 1] in f;
        }
      }
    }
    forall j: nat | j < n ensures !OccursAt(seg, "<<", j) {
      assert seg[j..j + 2][0] == seg[j];
    }
    IndexOfUnique(seg, "<<", n);
  }

  /** The stripped text before the first `<<` of ` f <<…` is `f`. */
  lemma SegmentPath(f: string, seg: string)
    requires PlainName(f)
    requires |seg| >= |f| + 4 && seg[..|f| + 4] == (" " + f + " ") + "<<"
    ensures Strip(Split(seg, "<<")[0]) == f
  {
    var mid := " " + f + " ";
    SegmentAngles(f, seg);
    SplitHead(seg, "<<");
    assert seg[..|f| + 2] == (mid + "<<")[..|f| + 2] == mid;
    StripPadded(" ", f, " ", Whitespace);
  }

  /** The path read from a text that starts with the header is the file name, whatever follows. */
  lemma HeaderPath(f: string, t: string)
    requires PlainName(f)
    ensures PathBetween(CreationHeader(f) + t) == Returned(f)
  {
    var u := " " + f + " " + OpenMarker;
    assert CreationHeader(f) == "cat >" + u;
    var after := u + t;
    var text := "cat >" + after;
    assert text == CreationHeader(f) + t;
    assert OccursAt(text, "cat >", 0);
    IndexOfUnique(text, "cat >", 0);
    assert text[5..] == after;
    assert Split(text, "cat >") == [text[..0]] + Split(after, "cat >");
    PathSegment(f, t);
    SegmentPath(f, Split(after, "cat >")[0]);
  }

  /** The path read from the header line is the file name. */
  lemma CreationPath(f: string)
    requires PlainName(f)
    ensures PathBetween(CreationHeader(f)) == Returned(f)
  {
    HeaderPath(f, "");
    assert CreationHeader(f) + "" == CreationHeader(f);
  }

  /** The path read from the whole command, as `nodes.py` does, is also the file name. */
  lemma CreationPathWhole(f: string, c: string)
    requires PlainName(f)
    ensures PathBetween(UnixCreation(f, c)) == Returned(f)
  {
    HeaderPath(f, "\n" + c + "\nEOF");
    CreationAfterHeader(f, c);
  }

  /** The creation command is its first line followed by the body and the closing line. */
  lemma CreationAfterHeader(f: string, c: string)
    ensures UnixCreation(f, c) == CreationHeader(f) + ("\n" + c + "\nEOF")
  {
    var p, t := "cat > " + f, "\n" + c + "\nEOF";
    assert " << 'EOF'\n" == " << 'EOF'" + "\n";
    assert UnixCreation(f, c) == p + " << 'EOF'\n" + c + "\nEOF";
    assert p + (" << 'EOF'" + "\n") + c + "\nEOF" == (p + " << 'EOF'") + t;
  }

  /** The line `EOF` closes a heredoc. */
  lemma EofCloses()
    ensures IsEofLine("EOF")
  {
    StripNoop("EOF", Whitespace);
  }

  /** Scanning every line of `UnixCreation(f, c)` gives back the body, stripped. */
  lemma CreationContent(f: string, c: string)
    requires PlainName(f) && PlainBody(c)
    ensures Content(Lines(UnixCreation(f, c))) == Strip(c)
  {
    var lines, body := Lines(UnixCreation(f, c)), Split(c, "\n");
    CreationLines(f, c);
    HeaderOpens(f);
    EofCloses();
    HeredocBody(CreationHeader(f), body, "EOF");
    assert Scan(lines).0 == body;
    assert Join("\n", body) == c;
  }

  /** Scanning all lines but the first of `UnixCreation(f, c)` gives an empty body. */
  lemma CreationContentWithoutHeader(f: string, c: string)
    requires PlainName(f) && NoOpenerInBody(c)
    ensures Content(Lines(UnixCreation(f, c))[1..]) == ""
  {
    CreationRestKeepsNothing(f, c);
    assert Join("\n", []) == "";
    StripNoop("", Whitespace);
  }

  /** Without the opening line, the scan keeps no line of `UnixCreation(f, c)`. */
  lemma CreationRestKeepsNothing(f: string, c: string)
    requires PlainName(f) && NoOpenerInBody(c)
    ensures Scan(Lines(UnixCreation(f, c))[1..]).0 == []
  {
    CreationRestLines(f, c);
    EofCloses();
    SkippingOpenerLosesBody(Split(c, "\n"), "EOF");
  }

  /** The lines of `UnixCreation(f, c)` after the first: the body's lines and `EOF`. */
  lemma CreationRestLines(f: string, c: string)
    requires PlainName(f)
    ensures Lines(UnixCreation(f, c))[1..] == Split(c, "\n") + ["EOF"]
  {
    CreationLines(f, c);
    DropHead(CreationHeader(f), Split(c, "\n"), ["EOF"]);
  }

  /** Dropping the first element of `[h] + a + b`. */
  lemma DropHead<T>(h: T, a: seq<T>, b: seq<T>)
    ensures ([h] + a + b)[1..] == a + b
  {
  }
}
