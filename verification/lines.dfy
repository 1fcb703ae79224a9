/**
 This module models Python's `str.splitlines()` (without `keepends`): the
 text is cut at every line boundary, a carriage return followed by a line
 feed counts as a single boundary, the boundaries themselves are dropped,
 and a boundary at the very end does not open an empty last line.
 */
module Lines {
  import opened Strings

  /** The ten characters `str.splitlines` treats as line boundaries,
      listed one by one. */
  const LineBreakChars: set<char> := {
    '\n', '\r', '\U{0b}', '\U{0c}', '\U{1c}',
    '\U{1d}', '\U{1e}', '\U{85}', '\U{2028}', '\U{2029}'
  }

  /** Whether `c` is a line boundary for `str.splitlines`. Each boundary is
      also whitespace to `str.isspace`. */
  predicate IsLineBreak(c: char)
    ensures IsLineBreak(c) <==> c in LineBreakChars
    ensures IsLineBreak(c) ==> IsSpace(c)
  {
    || c == '\n'
    || c == '\r'
    || c == '\U{0b}'
    || c == '\U{0c}'
    || c == '\U{1c}'
    || c == '\U{1d}'
    || c == '\U{1e}'
    || c == '\U{85}'
    || c == '\U{2028}'
    || c == '\U{2029}'
  }

  /** True if `s` contains no line boundary. */
  predicate IsSingleLine(s: string) {
    forall k :: 0 <= k < |s| ==> !IsLineBreak(s[k])
  }

  /** Index of the first line boundary in `s`, or `|s|` when there is none. */
  function FirstBreak(s: string): (n: nat)
    ensures n <= |s|
    ensures IsSingleLine(s[..n])
    ensures n < |s| ==> IsLineBreak(s[n])
    decreases |s|
  {
    if |s| == 0 || IsLineBreak(s[0]) then 0
    else
      var n := 1 + FirstBreak(s[1..]);
      assert s[..n] == [s[0]] + s[1..][..n - 1];
      n
  }

  /** Width of the boundary starting at index `n`: two for "\r\n", else one. */
  function BreakWidth(s: string, n: nat): nat
    requires n < |s|
  {
    if s[n] == '\r' && n + 1 < |s| && s[n + 1] == '\n' then 2 else 1
  }

  /** Python's `text.splitlines()`. */
  function SplitLines(s: string): (lines: seq<string>)
    ensures |lines| <= |s|
    ensures forall k :: 0 <= k < |lines| ==> IsSingleLine(lines[k])
    ensures |s| > 0 ==> |lines| > 0
    decreases |s|
  {
    if |s| == 0 then []
    else
      var n := FirstBreak(s);
      if n == |s| then [s]
      else [s[..n]] + SplitLines(s[n + BreakWidth(s, n)..])
  }

  /** Writes each line followed by a line feed. */
  function JoinLines(lines: seq<string>): string
    decreases |lines|
  {
    if |lines| == 0 then "" else lines[0] + "\n" + JoinLines(lines[1..])
  }

  lemma FirstBreakOfTerminated(line: string, rest: string)
    requires IsSingleLine(line)
    ensures FirstBreak(line + "\n" + rest) == |line|
  {
    var s := line + "\n" + rest;
    assert s[|line|] == '\n';
    assert forall k :: 0 <= k < |line| ==> s[k] == line[k];
    assert IsSingleLine(s[..|line|]);
  }

  /** A line feed after a boundary-free line ends exactly that line. */
  lemma LfIsOneBoundary(line: string, rest: string)
    requires IsSingleLine(line)
    ensures SplitLines(line + "\n" + rest) == [line] + SplitLines(rest)
  {
    var s := line + "\n" + rest;
    FirstBreakOfTerminated(line, rest);
    assert BreakWidth(s, |line|) == 1;
    assert s[..|line|] == line;
    assert s[|line| + 1..] == rest;
  }

  /** Text written one line-feed-terminated line at a time splits back into
      exactly those lines. */
  lemma {:induction false} SplitJoinLines(lines: seq<string>)
    requires forall k :: 0 <= k < |lines| ==> IsSingleLine(lines[k])
    ensures SplitLines(JoinLines(lines)) == lines
    decreases |lines|
  {
    if |lines| > 0 {
      LfIsOneBoundary(lines[0], JoinLines(lines[1..]));
      SplitJoinLines(lines[1..]);
      assert lines == [lines[0]] + lines[1..];
    }
  }

  /** A carriage return followed by a line feed ends one line, not two. */
  lemma CrLfIsOneBoundary(line: string, rest: string)
    requires IsSingleLine(line)
    ensures SplitLines(line + "\r\n" + rest) == [line] + SplitLines(rest)
  {
    var s := line + "\r\n" + rest;
    assert s[|line|] == '\r' && s[|line| + 1] == '\n';
    assert forall k :: 0 <= k < |line| ==> s[k] == line[k];
    assert s[..|line|] == line;
    assert FirstBreak(s) == |line|;
    assert BreakWidth(s, |line|) == 2;
    assert s[|line| + 2..] == rest;
  }

  /** Text without any boundary is one line, unless it is empty. */
  lemma SplitSingleLine(s: string)
    requires IsSingleLine(s)
    ensures SplitLines(s) == (if |s| == 0 then [] else [s])
  {
    if |s| > 0 {
      assert FirstBreak(s) == |s|;
    }
  }
}
