/** The parts of Python 2 `str` the scraping code relies on: `find`, `rfind`,
    slicing with negative and out-of-range bounds, `split(sep)` and
    `splitlines()`. Strings are sequences of characters. */
module PyStr {

  /** `p` occurs in `s` starting at index `i`. */
  predicate OccursAt(s: string, p: string, i: int) {
    0 <= i && i + |p| <= |s| && s[i..i + |p|] == p
  }

  /** `p in s`, i.e. `s.find(p) >= 0`. */
  predicate Contains(s: string, p: string) {
    exists i :: 0 <= i <= |s| && OccursAt(s, p, i)
  }

  /** Each character of an occurrence matches the pattern. */
  lemma OccurrenceChar(s: string, p: string, i: int, t: int)
    requires OccursAt(s, p, i) && 0 <= t < |p|
    ensures s[i + t] == p[t]
  {
    assert s[i..i + |p|][t] == s[i + t];
  }

  /** Leftmost occurrence at index `k` or later, or -1. */
  function FindFrom(s: string, p: string, k: nat): (i: int)
    ensures i == -1 || (k <= i && OccursAt(s, p, i))
    ensures i != -1 ==> forall j :: k <= j < i ==> !OccursAt(s, p, j)
    ensures i == -1 ==> forall j :: k <= j ==> !OccursAt(s, p, j)
    decreases |s| - k
  {
    if k + |p| > |s| then -1
    else if s[k..k + |p|] == p then k
    else FindFrom(s, p, k + 1)
  }

  /** Python `s.find(p)`: the index of the leftmost occurrence, or -1. */
  function Find(s: string, p: string): (i: int)
    ensures -1 <= i
    ensures i == -1 <==> !Contains(s, p)
    ensures i >= 0 ==> OccursAt(s, p, i)
    ensures i >= 0 ==> forall j :: 0 <= j < i ==> !OccursAt(s, p, j)
  {
    FindFrom(s, p, 0)
  }

  /** Rightmost occurrence at index `k` or earlier, or -1. */
  function RFindFrom(s: string, p: string, k: int): (i: int)
    ensures i == -1 || (0 <= i <= k && OccursAt(s, p, i))
    ensures forall j :: i < j <= k ==> !OccursAt(s, p, j)
    decreases k + 1
  {
    if k < 0 then -1
    else if OccursAt(s, p, k) then k
    else RFindFrom(s, p, k - 1)
  }

  /** Python `s.rfind(p)`: the index of the rightmost occurrence, or -1. */
  function RFind(s: string, p: string): (i: int)
    ensures -1 <= i
    ensures i == -1 <==> !Contains(s, p)
    ensures i >= 0 ==> OccursAt(s, p, i)
    ensures forall j :: i < j ==> !OccursAt(s, p, j)
  {
    RFindFrom(s, p, |s| - |p|)
  }

  /** Index `i` is the leftmost occurrence, so `find` returns it. */
  lemma FindIs(s: string, p: string, i: int)
    requires OccursAt(s, p, i)
    requires forall j :: 0 <= j < i ==> !OccursAt(s, p, j)
    ensures Find(s, p) == i
  {
  }

  /** Index `i` is the rightmost occurrence, so `rfind` returns it. */
  lemma RFindIs(s: string, p: string, i: int)
    requires OccursAt(s, p, i)
    requires forall j :: i < j ==> !OccursAt(s, p, j)
    ensures RFind(s, p) == i
  {
  }

  /** How Python normalises one slice bound against a length `n`: a negative
      bound counts from the end, and the result is clamped into [0, n]. */
  function ClampIndex(k: int, n: nat): (c: nat)
    ensures c <= n
    ensures 0 <= k <= n ==> c == k
    ensures k < 0 && k + n >= 0 ==> c == k + n
    ensures k + n < 0 ==> c == 0
    ensures k > n ==> c == n
  {
    if k < 0 then (if k + n < 0 then 0 else k + n)
    else if k > n then n
    else k
  }

  /** Python `s[i:j]`. */
  function Slice(s: string, i: int, j: int): (r: string)
    ensures 0 <= i <= j <= |s| ==> r == s[i..j]
    ensures 0 <= i && j < 0 && i <= |s| + j ==> r == s[i..|s| + j]
    ensures ClampIndex(j, |s|) <= ClampIndex(i, |s|) ==> r == []
  {
    var lo := ClampIndex(i, |s|);
    var hi := ClampIndex(j, |s|);
    if lo < hi then s[lo..hi] else s[0..0]
  }

  /** The pieces of `pieces` joined with `sep` between neighbours: `sep.join(pieces)`. */
  function Join(pieces: seq<string>, sep: string): string {
    if |pieces| == 0 then ""
    else if |pieces| == 1 then pieces[0]
    else pieces[0] + sep + Join(pieces[1..], sep)
  }

  /** Python `s.split(sep)` for a non-empty separator: cut at every
      leftmost, non-overlapping occurrence of `sep`. Python raises
      ValueError for an empty separator. */
  function Split(s: string, sep: string): (pieces: seq<string>)
    requires sep != ""
    ensures |pieces| >= 1
    ensures Join(pieces, sep) == s
    ensures forall k :: 0 <= k < |pieces| ==> !Contains(pieces[k], sep)
    decreases |s|
  {
    var i := Find(s, sep);
    if i < 0 then [s]
    else
      var head := s[..i];
      var rest := Split(s[i + |sep|..], sep);
      assert !Contains(head, sep) by {
        forall j | OccursAt(head, sep, j) ensures false {
          assert s[j..j + |sep|] == head[j..j + |sep|];
          assert OccursAt(s, sep, j);
        }
      }
      assert ([head] + rest)[1..] == rest;
      assert s == head + sep + s[i + |sep|..];
      [head] + rest
  }

  /** An occurrence inside either operand of a concatenation is an occurrence in the whole. */
  lemma OccursInConcat(a: string, b: string, m: string, i: int)
    ensures OccursAt(a, m, i) ==> OccursAt(a + b, m, i)
    ensures OccursAt(b, m, i) ==> OccursAt(a + b, m, |a| + i)
  {
    if OccursAt(a, m, i) {
      assert (a + b)[i..i + |m|] == a[i..i + |m|];
    }
    if OccursAt(b, m, i) {
      assert (a + b)[|a| + i..|a| + i + |m|] == b[i..i + |m|];
    }
  }

  /** A piece of `Join(pieces, sep)` that mentions `m` makes the whole text mention `m`. */
  lemma {:induction false} ContainsInJoin(pieces: seq<string>, sep: string, k: nat, m: string)
    requires k < |pieces| && Contains(pieces[k], m)
    ensures Contains(Join(pieces, sep), m)
    decreases |pieces|
  {
    if |pieces| == 1 {
      assert Join(pieces, sep) == pieces[0];
    } else {
      var whole := Join(pieces, sep);
      var tail := Join(pieces[1..], sep);
      assert whole == pieces[0] + (sep + tail);
      if k == 0 {
        var i :| 0 <= i <= |pieces[0]| && OccursAt(pieces[0], m, i);
        OccursInConcat(pieces[0], sep + tail, m, i);
        assert OccursAt(whole, m, i);
      } else {
        ContainsInJoin(pieces[1..], sep, k - 1, m);
        var i :| 0 <= i <= |tail| && OccursAt(tail, m, i);
        OccursInConcat(pieces[0] + sep, tail, m, i);
        assert whole == (pieces[0] + sep) + tail;
        assert OccursAt(whole, m, |pieces[0] + sep| + i);
      }
    }
  }

  /** The line boundaries of Python 2 `str.splitlines()`: `\n` and `\r`
      (a `\r\n` pair counts as one boundary). */
  predicate IsLineBreak(c: char) {
    c == '\n' || c == '\r'
  }

  predicate NoLineBreak(line: string) {
    forall j :: 0 <= j < |line| ==> !IsLineBreak(line[j])
  }

  /** Index of the first line break in `s`, or |s| when there is none. */
  function BreakIndex(s: string): (i: nat)
    ensures i <= |s|
    ensures i < |s| ==> IsLineBreak(s[i])
    ensures forall j :: 0 <= j < i ==> !IsLineBreak(s[j])
  {
    if s == [] || IsLineBreak(s[0]) then 0
    else 1 + BreakIndex(s[1..])
  }

  /** Python 2 `s.splitlines()`: the lines of `s` without their terminators;
      a final terminator does not start an extra empty line. */
  function SplitLines(s: string): (lines: seq<string>)
    ensures forall k :: 0 <= k < |lines| ==> NoLineBreak(lines[k])
    ensures s == [] <==> lines == []
    decreases |s|
  {
    if s == [] then []
    else
      var i := BreakIndex(s);
      if i == |s| then [s]
      else if s[i] == '\r' && i + 1 < |s| && s[i + 1] == '\n' then [s[..i]] + SplitLines(s[i + 2..])
      else [s[..i]] + SplitLines(s[i + 1..])
  }

  /** A line terminator `splitlines` recognises: `\n`, `\r\n` or a bare `\r`. */
  predicate IsTerminator(e: string) {
    e == "\n" || e == "\r\n" || e == "\r"
  }

  predicate StartsWithNewline(s: string) {
    |s| > 0 && s[0] == '\n'
  }

  /** A text written out line by line: each of `lines` followed by its
      terminator in `ends`, then an unterminated last line `last` ("" when the
      text ends with a terminator). */
  function Written(lines: seq<string>, ends: seq<string>, last: string): string
    requires |ends| == |lines|
    decreases |lines|
  {
    if lines == [] then last else lines[0] + ends[0] + Written(lines[1..], ends[1..], last)
  }

  /** The pieces of `Written(lines, ends, last)` are unambiguous: no line
      holds a break, every terminator is one `splitlines` recognises, and a
      bare `\r` is not followed by `\n` (which would make the pair one
      terminator). */
  predicate WellTerminated(lines: seq<string>, ends: seq<string>, last: string)
    requires |ends| == |lines|
    decreases |lines|
  {
    if lines == [] then NoLineBreak(last)
    else
      && NoLineBreak(lines[0])
      && IsTerminator(ends[0])
      && (ends[0] == "\r" ==> !StartsWithNewline(Written(lines[1..], ends[1..], last)))
      && WellTerminated(lines[1..], ends[1..], last)
  }

  /** One step of `splitlines`: a break-free line, then a terminator not
      followed by a stray `\n` when it is a bare `\r`, splits off as the first line. */
  lemma SplitLinesStep(line: string, end: string, rest: string)
    requires NoLineBreak(line) && IsTerminator(end)
    requires end == "\r" ==> !StartsWithNewline(rest)
    ensures SplitLines(line + end + rest) == [line] + SplitLines(rest)
  {
    var s := line + end + rest;
    var n := |line|;
    assert s[n] == end[0];
    assert forall j :: 0 <= j < n ==> s[j] == line[j];
    assert BreakIndex(s) == n;
    assert s[..n] == line;
    if end == "\r\n" {
      assert s[n + 1] == '\n';
      assert s[n + 2..] == rest;
    } else {
      assert s[n + 1..] == rest;
      if end == "\r" && n + 1 < |s| {
        assert s[n + 1] == rest[0];
      }
    }
  }

  /** `splitlines` recovers the lines of any text written with `\n`, `\r\n`
      or `\r` terminators, mixed freely, with or without an unterminated last
      line; the terminators themselves are dropped. */
  lemma {:induction false} SplitLinesOfWritten(lines: seq<string>, ends: seq<string>, last: string)
    requires |ends| == |lines| && WellTerminated(lines, ends, last)
    ensures SplitLines(Written(lines, ends, last)) == lines + (if last == "" then [] else [last])
    decreases |lines|
  {
    if lines == [] {
      if last != "" {
        assert BreakIndex(last) == |last|;
      }
    } else {
      SplitLinesStep(lines[0], ends[0], Written(lines[1..], ends[1..], last));
      SplitLinesOfWritten(lines[1..], ends[1..], last);
      assert lines == [lines[0]] + lines[1..];
    }
  }
}
