/**
 This module models Python's `str.split(sep)` with an explicit one-character
 separator, together with its inverse `sep.join(parts)`.
 */
module Fields {

  /** Number of occurrences of `c` in `s`. */
  function Count(s: string, c: char): nat
    decreases |s|
  {
    if |s| == 0 then 0 else (if s[0] == c then 1 else 0) + Count(s[1..], c)
  }

  /** Index of the first `c` in `s`, or `|s|` when there is none. */
  function IndexOf(s: string, c: char): (n: nat)
    ensures n <= |s|
    ensures forall k :: 0 <= k < n ==> s[k] != c
    ensures n < |s| ==> s[n] == c
    decreases |s|
  {
    if |s| == 0 then 0
    else if s[0] == c then 0
    else 1 + IndexOf(s[1..], c)
  }

  /** Python's `s.split(sep)`: the maximal separator-free pieces of `s`, in
      order. There is always one more piece than there are separators, so
      the empty string splits into one empty piece. */
  function Split(s: string, sep: char): (parts: seq<string>)
    ensures |parts| == Count(s, sep) + 1
    ensures forall k :: 0 <= k < |parts| ==> sep !in parts[k]
    decreases |s|
  {
    var n := IndexOf(s, sep);
    if n == |s| then
      CountAbsent(s, sep);
      [s]
    else
      CountAt(s, sep, n);
      [s[..n]] + Split(s[n + 1..], sep)
  }

  /** Python's `sep.join(parts)`. */
  function Join(parts: seq<string>, sep: char): string
    decreases |parts|
  {
    if |parts| == 0 then ""
    else if |parts| == 1 then parts[0]
    else parts[0] + [sep] + Join(parts[1..], sep)
  }

  lemma {:induction false} CountAbsent(s: string, c: char)
    requires c !in s
    ensures Count(s, c) == 0
    decreases |s|
  {
    if |s| > 0 {
      assert c !in s[1..] by {
        assert forall k :: 0 <= k < |s| - 1 ==> s[1..][k] == s[k + 1];
      }
      CountAbsent(s[1..], c);
    }
  }

  lemma {:induction false} CountConcat(a: string, b: string, c: char)
    ensures Count(a + b, c) == Count(a, c) + Count(b, c)
    decreases |a|
  {
    if |a| == 0 {
      assert a + b == b;
    } else {
      assert (a + b)[1..] == a[1..] + b;
      CountConcat(a[1..], b, c);
    }
  }

  /** Counting around the first separator at index `n`. */
  lemma CountAt(s: string, c: char, n: nat)
    requires n < |s| && s[n] == c
    requires forall k :: 0 <= k < n ==> s[k] != c
    ensures Count(s, c) == 1 + Count(s[n + 1..], c)
  {
    assert c !in s[..n];
    CountAbsent(s[..n], c);
    assert s == s[..n] + ([s[n]] + s[n + 1..]);
    CountConcat(s[..n], [s[n]] + s[n + 1..], c);
    assert ([s[n]] + s[n + 1..])[1..] == s[n + 1..];
  }

  /** Splitting and re-joining gives back the original string. */
  lemma {:induction false} JoinSplit(s: string, sep: char)
    ensures Join(Split(s, sep), sep) == s
    decreases |s|
  {
    var n := IndexOf(s, sep);
    if n < |s| {
      var rest := s[n + 1..];
      var parts, tail := Split(s, sep), Split(rest, sep);
      assert parts == [s[..n]] + tail;
      assert |parts| >= 2 && parts[1..] == tail;
      assert Join(parts, sep) == s[..n] + [sep] + Join(tail, sep);
      JoinSplit(rest, sep);
      assert s == s[..n] + [sep] + rest;
    }
  }

  /** The first separator of `a + [sep] + b` is the one placed after `a`. */
  lemma IndexOfJoined(a: string, b: string, sep: char)
    requires sep !in a
    ensures IndexOf(a + [sep] + b, sep) == |a|
  {
    var s := a + [sep] + b;
    assert s[|a|] == sep;
    assert forall k :: 0 <= k < |a| ==> s[k] == a[k];
  }

  /** Joining separator-free pieces and splitting again gives back the
      pieces. */
  lemma {:induction false} SplitJoin(parts: seq<string>, sep: char)
    requires |parts| > 0
    requires forall k :: 0 <= k < |parts| ==> sep !in parts[k]
    ensures Split(Join(parts, sep), sep) == parts
    decreases |parts|
  {
    if |parts| == 1 {
      assert IndexOf(parts[0], sep) == |parts[0]|;
    } else {
      var first, tail := parts[0], parts[1..];
      var rest := Join(tail, sep);
      var s := first + [sep] + rest;
      assert Join(parts, sep) == s;
      assert sep !in first;
      IndexOfJoined(first, rest, sep);
      assert s[..|first|] == first;
      assert s[|first| + 1..] == rest;
      assert Split(s, sep) == [first] + Split(rest, sep);
      SplitJoin(tail, sep);
      assert parts == [first] + tail;
    }
  }

  /** A join begins with its first piece. */
  lemma JoinStartsWithFirst(parts: seq<string>, sep: char)
    requires |parts| > 0
    ensures |parts[0]| <= |Join(parts, sep)|
    ensures Join(parts, sep)[..|parts[0]|] == parts[0]
  {
  }

}
