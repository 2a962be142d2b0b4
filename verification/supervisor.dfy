/** `queryPixelSupervisor`: whether the pixel supervisor's default page
    reports the state "Running". */
module PixelSupervisor {
  import opened Wrappers
  import opened PyStr
  import opened Sequences
  import opened Inputs

  const CurrentStateLabel := "Current State"
  const BoldOpen := "<b>"
  const BoldClose := "</b>"
  const RunningState := "Running"

  predicate MentionsCurrentState(line: string) {
    Find(line, CurrentStateLabel) >= 0
  }

  /** The first line of the page that mentions "Current State", or "" when
      no line does (the variable keeps its initial value). */
  function StatusLine(page: string): (line: string)
    ensures line == "" <==> forall k :: 0 <= k < |SplitLines(page)| ==> !MentionsCurrentState(SplitLines(page)[k])
    ensures line != "" ==> exists k :: (0 <= k < |SplitLines(page)| && SplitLines(page)[k] == line
      && MentionsCurrentState(line)
      && forall j :: 0 <= j < k ==> !MentionsCurrentState(SplitLines(page)[j]))
  {
    var lines := SplitLines(page);
    match FirstWhere(lines, MentionsCurrentState)
    case None => ""
    case Some(k) =>
      assert OccursAt(lines[k], CurrentStateLabel, Find(lines[k], CurrentStateLabel));
      lines[k]
  }

  /** The text from just after the first "<b>" up to the first "</b>" of a
      line, with Python's `find` and slice semantics: a missing "<b>" starts
      the slice at index 2, a missing "</b>" ends it one before the end. */
  function StatusText(line: string): string {
    Slice(line, Find(line, BoldOpen) + 3, Find(line, BoldClose))
  }

  /** The verdict `queryPixelSupervisor` returns for a page it received. */
  predicate ReportsRunning(page: string) {
    StatusText(StatusLine(page)) == RunningState
  }

  /** A page without a "Current State" line is read as not running. */
  lemma NoStatusLineNotRunning(page: string)
    requires forall k :: 0 <= k < |SplitLines(page)| ==> !MentionsCurrentState(SplitLines(page)[k])
    ensures !ReportsRunning(page)
  {
    assert StatusLine(page) == "";
    assert !Contains("", BoldOpen) && !Contains("", BoldClose);
  }

  /** The page reads as running exactly when it has a "Current State" line
      and the text extracted from the first such line is "Running". */
  lemma ReportsRunningIff(page: string)
    ensures ReportsRunning(page) <==> StatusLine(page) != "" && StatusText(StatusLine(page)) == RunningState
  {
    if StatusLine(page) == "" {
      assert !Contains("", BoldOpen) && !Contains("", BoldClose);
    }
  }

  /** On a well-formed status line, the extracted state is exactly the text
      between the tags, provided no "<b>" comes before the opening tag and no
      "</b>" before the closing one; markup such as a leading `<td>` is allowed. */
  lemma WellFormedStatus(line: string, pre: string, s: string, post: string)
    requires line == pre + BoldOpen + s + BoldClose + post
    requires !Contains(pre, BoldOpen) && !Contains(pre + BoldOpen + s, BoldClose)
    ensures StatusText(line) == s
  {
    var openAt := |pre|;
    var closeAt := |pre| + 3 + |s|;
    var head := pre + BoldOpen + s;
    assert line == head + BoldClose + post;
    assert line[openAt..openAt + 3] == BoldOpen;
    forall j | 0 <= j < openAt && OccursAt(line, BoldOpen, j) ensures false {
      if j + 3 <= openAt {
        assert line[j..j + 3] == pre[j..j + 3];
        assert OccursAt(pre, BoldOpen, j);
      } else {
        // "<b>" cannot overlap itself: its '<' would meet a 'b' or a '>'.
        OccurrenceChar(line, BoldOpen, j, openAt - j);
      }
    }
    FindIs(line, BoldOpen, openAt);
    assert line[closeAt..closeAt + 4] == BoldClose;
    forall j | 0 <= j < closeAt && OccursAt(line, BoldClose, j) ensures false {
      if j + 4 <= closeAt {
        assert line[j..j + 4] == head[j..j + 4];
        assert OccursAt(head, BoldClose, j);
      } else {
        OccurrenceChar(line, BoldClose, j, closeAt - j);
      }
    }
    FindIs(line, BoldClose, closeAt);
    assert line[openAt + 3..closeAt] == s;
  }

  /** When "</b>" is missing, the end index -1 cuts the line's last
      character: the state read is the rest of the line minus one character.
      Markup such as a leading `<td>` is allowed before the opening tag. */
  lemma UnclosedStatus(line: string, pre: string, s: string)
    requires line == pre + BoldOpen + s
    requires !Contains(pre, BoldOpen) && !Contains(line, BoldClose)
    ensures StatusText(line) == if s == [] then [] else s[..|s| - 1]
  {
    var openAt := |pre|;
    assert line[openAt..openAt + 3] == BoldOpen;
    forall j | 0 <= j < openAt && OccursAt(line, BoldOpen, j) ensures false {
      if j + 3 <= openAt {
        assert line[j..j + 3] == pre[j..j + 3];
        assert OccursAt(pre, BoldOpen, j);
      } else {
        OccurrenceChar(line, BoldOpen, j, openAt - j);
      }
    }
    FindIs(line, BoldOpen, openAt);
    assert Find(line, BoldClose) == -1;
    if s != [] {
      assert line[openAt + 3..|line| - 1] == s[..|s| - 1];
    }
  }

  /** A page made of one line that mentions "Current State" has that line as its status line. */
  lemma SingleLinePage(line: string)
    requires NoLineBreak(line) && MentionsCurrentState(line)
    ensures StatusLine(line) == line
  {
    assert line != [];
    assert BreakIndex(line) == |line|;
    assert SplitLines(line) == [line];
  }

  /** A text lacking one of the pattern's characters does not contain the pattern. */
  lemma MissingCharNotContained(s: string, p: string, k: int)
    requires 0 <= k < |p| && p[k] !in s
    ensures !Contains(s, p)
  {
    forall i | 0 <= i <= |s| && OccursAt(s, p, i) ensures false {
      OccurrenceChar(s, p, i, k);
    }
  }

  /** A line `pre + "<b>Running!"` reads as "Running" whenever `pre` has no
      'b' and no '/', so leading markup such as `<td>` does not matter. */
  lemma UnclosedRunningLine(pre: string)
    requires 'b' !in pre && '/' !in pre
    ensures StatusText(pre + "<b>Running!") == RunningState
  {
    var line := pre + BoldOpen + "Running!";
    assert line == pre + "<b>Running!";
    MissingCharNotContained(pre, BoldOpen, 1);
    MissingCharNotContained(line, BoldClose, 1);
    UnclosedStatus(line, pre, "Running!");
  }

  /** A status tag that is never closed still reads as running when exactly
      one character follows "Running". */
  lemma UnclosedTagReadsRunning()
    ensures StatusText("Current State: <b>Running!") == RunningState
  {
    var pre := "Current State: ";
    assert 'b' !in pre && '/' !in pre;
    assert pre + "<b>Running!" == "Current State: <b>Running!";
    UnclosedRunningLine(pre);
  }

  /** `queryPixelSupervisor()`: the verdict read from the page on status
      200. A different status reaches a logging call that names `pageZero`,
      undefined in this function, so it raises NameError; a transport
      failure raises from `requests.get` itself. */
  function QueryPixelSupervisor(reply: HttpReply): (r: Result<bool>)
    ensures r.Ok? <==> IsOk(reply)
    ensures r == Ok(true) <==> IsOk(reply) && ReportsRunning(reply.body)
    ensures reply.Response? && reply.status != HttpOk ==> r == Raised(NameError("pageZero"))
  {
    match reply
    case TransportFailure => Raised(RequestException)
    case Response(status, body) =>
      if status != HttpOk then Raised(NameError("pageZero"))
      else Ok(ReportsRunning(body))
  }
}
