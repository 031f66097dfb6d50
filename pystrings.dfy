/**
 * The Python `str` operations the command pipeline is built from: `in`, `startswith`,
 * `endswith`, `find`, `split`, `join`, `strip`, `lower` and `replace`, each stated with
 * the property that makes it what Python promises (first occurrence, round trip through
 * `join`, maximal trimmed runs).
 */
module PyStrings {
  import opened Wrappers

  /** `s.startswith(prefix)` */
  predicate StartsWith(s: string, prefix: string) {
    |prefix| <= |s| && s[..|prefix|] == prefix
  }

  /** `s.endswith(suffix)` */
  predicate EndsWith(s: string, suffix: string) {
    |suffix| <= |s| && s[|s| - |suffix|..] == suffix
  }

  /** A string starts with any prefix it is built from. */
  lemma StartsWithJoin(x: string, y: string)
    ensures StartsWith(x + y, x)
  {
    assert (x + y)[..|x|] == x;
  }

  /** A string ends with any suffix it is built from. */
  lemma EndsWithJoin(x: string, y: string)
    ensures EndsWith(x + y, y)
  {
    assert (x + y)[|x + y| - |y|..] == y;
  }

  /** `t` occurs in `s` starting at index `i`. */
  predicate OccursAt(s: string, t: string, i: nat) {
    i + |t| <= |s| && s[i..i + |t|] == t
  }

  /** The first index at or after `k` where `t` occurs in `s`. */
  function IndexFrom(s: string, t: string, k: nat): (r: Option<nat>)
    requires k <= |s|
    ensures r.Some? ==> k <= r.value && OccursAt(s, t, r.value)
    ensures r.Some? ==> forall j: nat :: k <= j < r.value ==> !OccursAt(s, t, j)
    ensures r.None? ==> forall j: nat :: k <= j ==> !OccursAt(s, t, j)
    decreases |s| - k
  {
    if OccursAt(s, t, k) then Some(k)
    else if k + |t| >= |s| then None
    else IndexFrom(s, t, k + 1)
  }

  /** `s.find(t)`, with `None` for Python's -1: the first index where `t` occurs. */
  function IndexOf(s: string, t: string): (r: Option<nat>)
    ensures r.Some? ==> OccursAt(s, t, r.value)
    ensures r.Some? ==> forall j: nat :: j < r.value ==> !OccursAt(s, t, j)
    ensures r.None? ==> forall j: nat :: !OccursAt(s, t, j)
  {
    IndexFrom(s, t, 0)
  }

  /** Python's `t in s`. */
  predicate Contains(s: string, t: string) {
    IndexOf(s, t).Some?
  }

  lemma ContainsAt(s: string, t: string, i: nat)
    requires OccursAt(s, t, i)
    ensures Contains(s, t)
  {
  }

  /** The first occurrence is determined by "occurs here and nowhere earlier". */
  lemma IndexOfUnique(s: string, t: string, i: nat)
    requires OccursAt(s, t, i)
    requires forall j: nat :: j < i ==> !OccursAt(s, t, j)
    ensures IndexOf(s, t) == Some(i)
  {
    var r := IndexOf(s, t);
    assert r.Some?;
    assert OccursAt(s, t, r.value);
    assert r.value >= i;
  }

  /** The first occurrence of a one-character needle is the first index holding that character. */
  lemma IndexOfChar(s: string, c: char, i: nat)
    requires i < |s| && s[i] == c
    requires forall j :: 0 <= j < i ==> s[j] != c
    ensures IndexOf(s, [c]) == Some(i)
  {
    assert s[i..i + 1] == [c];
    forall j: nat | j < i ensures !OccursAt(s, [c], j) {
      assert s[j..j + 1][0] == s[j];
    }
    IndexOfUnique(s, [c], i);
  }

  /** A one-character needle occurs exactly when the character is an element. */
  lemma ContainsChar(s: string, c: char)
    ensures Contains(s, [c]) <==> c in s
  {
    if c in s {
      var i :| 0 <= i < |s| && s[i] == c;
      assert s[i..i + 1] == [c];
      ContainsAt(s, [c], i);
    } else {
      forall i: nat | i + 1 <= |s| ensures !OccursAt(s, [c], i) {
        assert s[i..i + 1][0] == s[i] != c;
      }
    }
  }

  /** A needle holding a character the haystack lacks cannot occur in it. */
  lemma NotContainsByChar(s: string, t: string, c: char)
    requires c in t && c !in s
    ensures !Contains(s, t)
  {
    var k :| 0 <= k < |t| && t[k] == c;
    forall i: nat | i + |t| <= |s| ensures !OccursAt(s, t, i) {
      assert s[i..i + |t|][k] == s[i + k] != c;
    }
  }

  /** A needle whose adjacent pair `t[k], t[k+1]` never appears side by side in the haystack cannot occur in it. */
  lemma NotContainsByPair(s: string, t: string, k: nat)
    requires k + 1 < |t|
    requires forall i :: 0 <= i < |s| - 1 ==> !(s[i] == t[k] && s[i + 1] == t[k + 1])
    ensures !Contains(s, t)
  {
    forall i: nat | i + |t| <= |s| ensures !OccursAt(s, t, i) {
      assert s[i..i + |t|][k] == s[i + k];
      assert s[i..i + |t|][k + 1] == s[i + k + 1];
    }
  }

  /** Lower-casing and stripping introduce no character other than lower-case letters. */
  lemma LowerStripFrom(s: string, c: char)
    requires c in Strip(Lower(s)) && !('a' <= c <= 'z')
    ensures c in s
  {
    var i :| 0 <= i < |s| && Lower(s)[i] == c;
    assert s[i] == c;
  }

  /** An occurrence in a slice is an occurrence in the whole string. */
  lemma OccursInSlice(s: string, t: string, lo: nat, hi: nat, j: nat)
    requires lo <= hi <= |s|
    requires OccursAt(s[lo..hi], t, j)
    ensures OccursAt(s, t, lo + j)
  {
    forall k | 0 <= k < |t| ensures s[lo + j..lo + j + |t|][k] == t[k] {
      assert s[lo..hi][j..j + |t|][k] == t[k];
    }
  }

  /** An occurrence of the needle inside an infix of a needle-free string is impossible. */
  lemma NotContainsSlice(s: string, t: string, lo: nat, hi: nat)
    requires lo <= hi <= |s|
    requires !Contains(s, t)
    ensures !Contains(s[lo..hi], t)
  {
    forall j: nat | j + |t| <= hi - lo ensures !OccursAt(s[lo..hi], t, j) {
      if OccursAt(s[lo..hi], t, j) {
        OccursInSlice(s, t, lo, hi, j);
      }
    }
  }

  /** `sep.join(parts)` */
  function Join(sep: string, parts: seq<string>): string {
    if |parts| == 0 then ""
    else if |parts| == 1 then parts[0]
    else parts[0] + sep + Join(sep, parts[1..])
  }

  /** `s.split(sep)` for a non-empty separator (Python raises ValueError on an empty one). */
  function Split(s: string, sep: string): (parts: seq<string>)
    requires sep != []
    ensures |parts| >= 1
    ensures |parts| == 1 <==> !Contains(s, sep)
    ensures forall k :: 0 <= k < |parts| ==> !Contains(parts[k], sep)
    ensures Join(sep, parts) == s
    decreases |s|
  {
    match IndexOf(s, sep)
    case None => [s]
    case Some(i) =>
      var head, tail := s[..i], Split(s[i + |sep|..], sep);
      BeforeFirst(s, sep, i);
      AroundOccurrence(s, sep, i);
      assert ([head] + tail)[1..] == tail;
      [head] + tail
  }

  /** The text before the first occurrence holds no occurrence. */
  lemma BeforeFirst(s: string, sep: string, i: nat)
    requires sep != [] && IndexOf(s, sep) == Some(i)
    ensures !Contains(s[..i], sep)
  {
    var head := s[..i];
    forall j: nat | j + |sep| <= i ensures !OccursAt(head, sep, j) {
      assert head[j..j + |sep|] == s[j..j + |sep|];
      assert !OccursAt(s, sep, j);
    }
  }

  /** A string is the text before an occurrence, the occurrence, and the text after it. */
  lemma AroundOccurrence(s: string, sep: string, i: nat)
    requires OccursAt(s, sep, i)
    ensures s == s[..i] + sep + s[i + |sep|..]
  {
    assert s == s[..i] + s[i..i + |sep|] + s[i + |sep|..];
  }

  /** The first part of a split is the text before the first separator, or all of it. */
  lemma SplitHead(s: string, sep: string)
    requires sep != []
    ensures IndexOf(s, sep).None? ==> Split(s, sep)[0] == s
    ensures IndexOf(s, sep).Some? ==> Split(s, sep)[0] == s[..IndexOf(s, sep).value]
  {
  }

  /**
   * The text before the first separator keeps the first `n` characters of `u` when the
   * separator's last character is missing from `u` and cannot end within them.
   */
  lemma SplitHeadKeeps(u: string, t: string, sep: string, n: nat)
    requires sep != [] && sep[|sep| - 1] !in u && n + |sep| - 1 <= |u|
    ensures |Split(u + t, sep)[0]| >= n && Split(u + t, sep)[0][..n] == u[..n]
  {
    var s := u + t;
    SplitHead(s, sep);
    var m := if IndexOf(s, sep).Some? then IndexOf(s, sep).value else |s|;
    if IndexOf(s, sep).Some? {
      OccurrenceEndsPast(u, t, sep, m);
    }
    PrefixOfJoin(u, t, m, n);
  }

  lemma PrefixOfJoin(u: string, t: string, m: nat, n: nat)
    requires n <= m <= |u + t| && n <= |u|
    ensures (u + t)[..m][..n] == u[..n]
  {
  }

  /** An occurrence of `sep` in `u + t` ends past `u` when the last character of `sep` is missing from `u`. */
  lemma OccurrenceEndsPast(u: string, t: string, sep: string, i: nat)
    requires sep != [] && sep[|sep| - 1] !in u && OccursAt(u + t, sep, i)
    ensures i + |sep| > |u|
  {
    var s := u + t;
    var e := i + |sep| - 1;
    assert s[i..i + |sep|][|sep| - 1] == s[e];
    if e < |u| {
      assert false;
    }
  }

  /** A separator whose first character is missing from `a` first occurs right after `a`. */
  lemma FirstAfterCharFree(a: string, sep: string, b: string)
    requires sep != [] && sep[0] !in a
    ensures IndexOf(a + sep + b, sep) == Some(|a|)
  {
    var s := a + sep + b;
    assert s[|a|..|a| + |sep|] == sep;
    forall j: nat | j < |a| ensures !OccursAt(s, sep, j) {
      assert s[j] == a[j];
      DiffersAt(s, sep, j, 0);
    }
    IndexOfUnique(s, sep, |a|);
  }

  /** Splitting at the first separator when the rest holds no separator gives the two sides. */
  lemma SplitAtFirst(a: string, sep: string, b: string)
    requires sep != [] && IndexOf(a + sep + b, sep) == Some(|a|) && !Contains(b, sep)
    ensures Split(a + sep + b, sep) == [a, b]
  {
    var s := a + sep + b;
    assert s[..|a|] == a;
    assert s[|a| + |sep|..] == b;
  }

  /** One mismatching character rules out an occurrence. */
  lemma DiffersAt(s: string, t: string, i: nat, k: nat)
    requires k < |t| && i + k < |s| && s[i + k] != t[k]
    ensures !OccursAt(s, t, i)
  {
    if i + |t| <= |s| {
      assert s[i..i + |t|][k] == s[i + k];
    }
  }

  /** The characters of `"\n" + c + "\n" + post`, position by position. */
  lemma FramedChars(c: string, post: string, s: string)
    requires s == ("\n" + c + "\n") + post
    ensures |s| == |c| + 2 + |post| && s[0] == '\n' && s[|c| + 1] == '\n'
    ensures forall j :: 0 <= j < |c| ==> s[j + 1] == c[j]
    ensures forall j :: 0 <= j < |post| ==> s[|c| + 2 + j] == post[j]
  {
  }

  /** The framing step of `NotContainsFramed`: no occurrence at one position. */
  lemma NotOccursFramed(c: string, t: string, post: string, i: nat)
    requires t != [] && '\n' !in t && t[0] !in post && !Contains(c, t)
    requires i + |t| <= |("\n" + c + "\n") + post|
    ensures !OccursAt(("\n" + c + "\n") + post, t, i)
  {
    if 1 <= i && i + |t| <= |c| + 1 {
      FramedInside(c, t, post, i);
    } else {
      FramedEdge(c, t, post, i);
    }
  }

  /** Inside the frame, an occurrence would be one in `c`. */
  lemma FramedInside(c: string, t: string, post: string, i: nat)
    requires 1 <= i && i + |t| <= |c| + 1 && !Contains(c, t)
    ensures !OccursAt(("\n" + c + "\n") + post, t, i)
  {
    var s := ("\n" + c + "\n") + post;
    assert s == "\n" + c + ("\n" + post);
    InnerSlice("\n", c, "\n" + post, i - 1, |t|);
    assert !OccursAt(c, t, i - 1);
  }

  lemma InnerSlice(a: string, c: string, b: string, j: nat, n: nat)
    requires j + n <= |c|
    ensures (a + c + b)[|a| + j..|a| + j + n] == c[j..j + n]
  {
  }

  /** Starting on a newline or in `post`, or running over the closing newline, `t` cannot match. */
  lemma FramedEdge(c: string, t: string, post: string, i: nat)
    requires t != [] && '\n' !in t && t[0] !in post
    requires i + |t| <= |("\n" + c + "\n") + post|
    requires !(1 <= i && i + |t| <= |c| + 1)
    ensures !OccursAt(("\n" + c + "\n") + post, t, i)
  {
    var s := ("\n" + c + "\n") + post;
    FramedChars(c, post, s);
    assert t[0] in t;
    if i == 0 || i == |c| + 1 {
      DiffersAt(s, t, i, 0);
    } else if i > |c| + 1 {
      assert s[i + 0] == post[i - |c| - 2];
      DiffersAt(s, t, i, 0);
    } else {
      var k := |c| + 1 - i;
      assert t[k] in t;
      DiffersAt(s, t, i, k);
    }
  }

  /** A needle without a newline that starts with neither a newline nor a character of `post` occurs in `"\n" + c + "\n" + post` only inside `c`. */
  lemma NotContainsFramed(c: string, t: string, post: string)
    requires t != [] && '\n' !in t && t[0] !in post && !Contains(c, t)
    ensures !Contains(("\n" + c + "\n") + post, t)
  {
    forall i: nat | i + |t| <= |("\n" + c + "\n") + post| ensures !OccursAt(("\n" + c + "\n") + post, t, i) {
      NotOccursFramed(c, t, post, i);
    }
  }

  /** `s.split(sep, 1)`: the text before the first separator and, when there is one, the rest. */
  function SplitOnce(s: string, sep: string): (parts: seq<string>)
    requires sep != []
    ensures |parts| == 2 <==> Contains(s, sep)
    ensures |parts| == 1 <==> !Contains(s, sep)
    ensures Join(sep, parts) == s
  {
    match IndexOf(s, sep)
    case None => [s]
    case Some(i) =>
      assert s == s[..i] + s[i..i + |sep|] + s[i + |sep|..];
      [s[..i], s[i + |sep|..]]
  }

  /** `s.replace(target, repl)`, which Python defines as `repl.join(s.split(target))` for a non-empty target. */
  function Replace(s: string, target: string, repl: string): string
    requires target != []
  {
    Join(repl, Split(s, target))
  }

  /** Joining two non-empty lists puts one separator between the two joins. */
  lemma {:induction false} JoinAppend(sep: string, xs: seq<string>, ys: seq<string>)
    requires |xs| > 0 && |ys| > 0
    ensures Join(sep, xs + ys) == Join(sep, xs) + sep + Join(sep, ys)
  {
    if |xs| == 1 {
      assert (xs + ys)[1..] == ys;
    } else {
      assert (xs + ys)[1..] == xs[1..] + ys;
      JoinAppend(sep, xs[1..], ys);
    }
  }

  /** Splitting on one character undoes joining on it, when no part holds that character. */
  lemma {:induction false} SplitJoinChar(c: char, parts: seq<string>)
    requires |parts| >= 1
    requires forall k :: 0 <= k < |parts| ==> c !in parts[k]
    ensures Split(Join([c], parts), [c]) == parts
  {
    var s := Join([c], parts);
    if |parts| == 1 {
      ContainsChar(parts[0], c);
    } else {
      var p0 := parts[0];
      assert s == p0 + [c] + Join([c], parts[1..]);
      assert OccursAt(s, [c], |p0|) by { assert s[|p0|..|p0| + 1] == [c]; }
      forall j: nat | j < |p0| ensures !OccursAt(s, [c], j) {
        assert s[j] == p0[j] != c;
        assert s[j..j + 1][0] == s[j];
      }
      IndexOfUnique(s, [c], |p0|);
      assert s[..|p0|] == p0;
      assert s[|p0| + 1..] == Join([c], parts[1..]);
      SplitJoinChar(c, parts[1..]);
    }
  }

  /** Splitting `a + c + b` on `c` concatenates the splits of `a` and `b`. */
  lemma SplitConcatChar(a: string, c: char, b: string)
    ensures Split(a + [c] + b, [c]) == Split(a, [c]) + Split(b, [c])
  {
    var pa, pb := Split(a, [c]), Split(b, [c]);
    JoinAppend([c], pa, pb);
    forall k | 0 <= k < |pa + pb| ensures c !in (pa + pb)[k] {
      ContainsChar((pa + pb)[k], c);
    }
    SplitJoinChar(c, pa + pb);
  }

  /** Python's `str.isspace()` characters, which `strip()` with no argument removes. */
  const Whitespace: set<char> := {
    ' ', '\t', '\n', '\r', '\U{B}', '\U{C}', '\U{1C}', '\U{1D}', '\U{1E}', '\U{1F}',
    '\U{85}', '\U{A0}', '\U{1680}', '\U{2000}', '\U{2001}', '\U{2002}', '\U{2003}',
    '\U{2004}', '\U{2005}', '\U{2006}', '\U{2007}', '\U{2008}', '\U{2009}', '\U{200A}',
    '\U{2028}', '\U{2029}', '\U{202F}', '\U{205F}', '\U{3000}'
  }

  /** Length of the longest prefix of `s` made of characters in `cs`. */
  function LeadingRun(s: string, cs: set<char>): (k: nat)
    ensures k <= |s|
    ensures forall j :: 0 <= j < k ==> s[j] in cs
    ensures k < |s| ==> s[k] !in cs
  {
    if s == [] || s[0] !in cs then 0 else 1 + LeadingRun(s[1..], cs)
  }

  /** Length of the longest suffix of `s` made of characters in `cs`. */
  function TrailingRun(s: string, cs: set<char>): (k: nat)
    ensures k <= |s|
    ensures forall j :: |s| - k <= j < |s| ==> s[j] in cs
    ensures k < |s| ==> s[|s| - 1 - k] !in cs
  {
    if s == [] || s[|s| - 1] !in cs then 0 else 1 + TrailingRun(s[..|s| - 1], cs)
  }

  /** `s.strip(chars)`: drop the leading and the trailing run of characters in `cs`. */
  function StripChars(s: string, cs: set<char>): (r: string)
    ensures r == [] || (r[0] !in cs && r[|r| - 1] !in cs)
    ensures forall c :: c in r ==> c in s
  {
    var t := s[LeadingRun(s, cs)..];
    t[..|t| - TrailingRun(t, cs)]
  }

  /** `s.strip()` */
  function Strip(s: string): string {
    StripChars(s, Whitespace)
  }

  /** A string that neither starts nor ends with a stripped character is left as it is. */
  lemma StripNoop(s: string, cs: set<char>)
    requires s == [] || (s[0] !in cs && s[|s| - 1] !in cs)
    ensures StripChars(s, cs) == s
  {
    assert s[0..] == s;
    assert s[..|s|] == s;
  }

  /** Stripping twice is stripping once. */
  lemma StripIdempotent(s: string)
    ensures Strip(Strip(s)) == Strip(s)
  {
    StripNoop(Strip(s), Whitespace);
  }

  /** A character that is not stripped survives stripping. */
  lemma StripKeeps(s: string, cs: set<char>, c: char)
    requires c in s && c !in cs
    ensures c in StripChars(s, cs)
  {
    var i :| 0 <= i < |s| && s[i] == c;
    var a := LeadingRun(s, cs);
    var t := s[a..];
    var b := TrailingRun(t, cs);
    assert a <= i;
    assert t[i - a] == c;
    assert i - a < |t| - b;
    assert StripChars(s, cs)[i - a] == c;
  }

  /** A string made only of stripped characters strips to nothing. */
  lemma StripBlank(s: string)
    requires forall c :: c in s ==> c in Whitespace
    ensures Strip(s) == []
  {
    assert forall j :: 0 <= j < |s| ==> s[j] in s;
  }

  /** Runs of stripped characters around a text are all removed. */
  lemma StripPadded(pre: string, s: string, post: string, cs: set<char>)
    requires forall c :: c in pre ==> c in cs
    requires forall c :: c in post ==> c in cs
    requires s != [] && s[0] !in cs && s[|s| - 1] !in cs
    ensures StripChars(pre + s + post, cs) == s
  {
    var w := pre + s + post;
    var a := LeadingRun(w, cs);
    assert a == |pre| by {
      assert forall j :: 0 <= j < |pre| ==> w[j] == pre[j];
      assert w[|pre|] == s[0];
    }
    var t := w[a..];
    assert t == s + post;
    var b := TrailingRun(t, cs);
    assert b == |post| by {
      assert forall j :: |s| <= j < |t| ==> t[j] == post[j - |s|];
      assert t[|s| - 1] == s[|s| - 1];
    }
    assert t[..|t| - b] == s;
  }

  /** Python's `str.lower()` on the ASCII letters. */
  function LowerChar(c: char): char {
    if 'A' <= c <= 'Z' then (c as int + 32) as char else c
  }

  /** `s.lower()` */
  function Lower(s: string): (r: string)
    ensures |r| == |s|
  {
    seq(|s|, i requires 0 <= i < |s| => LowerChar(s[i]))
  }

  /** A string without upper-case letters is its own lower-case form. */
  lemma LowerNoUpper(s: string)
    requires forall i :: 0 <= i < |s| ==> !('A' <= s[i] <= 'Z')
    ensures Lower(s) == s
  {
  }

  /** Lower-casing and stripping keep every character that is neither a letter nor whitespace. */
  lemma LowerStripKeeps(s: string, c: char)
    requires c in s && c !in Whitespace && !('A' <= c <= 'Z')
    ensures c in Strip(Lower(s))
  {
    var i :| 0 <= i < |s| && s[i] == c;
    assert Lower(s)[i] == c;
    StripKeeps(Lower(s), Whitespace, c);
  }

  /** `xs[k]` on a Python list: IndexError when out of range. */
  function Item(xs: seq<string>, k: nat): (r: Outcome<string>)
    ensures r.Returned? <==> k < |xs|
  {
    if k < |xs| then Returned(xs[k]) else Raised("IndexError: list index out of range")
  }
}
