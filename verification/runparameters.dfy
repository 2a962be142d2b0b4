/** `queryRunParameters`: the integrated luminosity delivered since the run
    last entered RunningSoftErrorDetected, estimated from the run-parameter
    table and the current instantaneous luminosity. */
module RunParameters {
  import opened Wrappers
  import opened PyStr
  import opened Sequences
  import opened PyTime
  import opened Inputs

  const RowEnd := "</TR>"
  const StateLabel := "PIXEL_STATE"
  const DetectedMarker := "RunningSoftErrorDetected"
  const CellOpen := "<TD>"
  const CellClose := "</TD>"

  /** The value returned when no matching row exists. */
  const NoDetection: real := -1.0

  /** Conversion of seconds times 10^30 cm^-2 s^-1 into inverse picobarns. */
  const PerPicobarn: real := 1000000.0

  /** The pessimistic integrated luminosity, in inverse picobarns, delivered in
      `seconds` at a constant instantaneous luminosity given in 10^30 cm^-2 s^-1. */
  function Estimate(seconds: int, instantLumi: real): real {
    seconds as real * instantLumi / PerPicobarn
  }

  /** A table row recording that the pixel state became RunningSoftErrorDetected. */
  predicate IsDetectionRow(row: string) {
    Find(row, StateLabel) >= 0 && Find(row, DetectedMarker) >= 0
  }

  /** The row the reversed scan stops at — the last detection row in
      document order — or "" when there is none. */
  function DetectionRow(rows: seq<string>): (row: string)
    ensures row == "" <==> forall j :: 0 <= j < |rows| ==> !IsDetectionRow(rows[j])
    ensures row != "" ==> exists k :: (0 <= k < |rows| && rows[k] == row && IsDetectionRow(row)
      && forall j :: k < j < |rows| ==> !IsDetectionRow(rows[j]))
  {
    match LastWhere(rows, IsDetectionRow)
    case None => ""
    case Some(k) =>
      assert OccursAt(rows[k], StateLabel, Find(rows[k], StateLabel));
      rows[k]
  }

  /** The text between the last "<TD>" and the last "</TD>" of a row, with
      Python's `rfind` and slice semantics. */
  function LastCellText(row: string): string {
    Slice(row, RFind(row, CellOpen) + 4, RFind(row, CellClose))
  }

  /** After the last "<TD>" of a well-formed row, the only '<' is that of "</TD>". */
  lemma OnlyCellCloseAfter(row: string, pre: string, stamp: string, post: string, p: string, j: int)
    requires row == pre + CellOpen + stamp + CellClose + post
    requires '<' !in stamp && '<' !in post
    requires |p| > 0 && p[0] == '<' && OccursAt(row, p, j) && j > |pre|
    ensures j == |pre| + 4 + |stamp| && row[j + 1] == CellClose[1]
  {
    OccurrenceChar(row, p, j, 0);
  }

  /** On a row whose last cell is `<TD>stamp</TD>` and whose stamp and tail
      hold no '<', the extracted text is the stamp. */
  lemma LastCellOfRow(row: string, pre: string, stamp: string, post: string)
    requires row == pre + CellOpen + stamp + CellClose + post
    requires '<' !in stamp && '<' !in post
    ensures LastCellText(row) == stamp
  {
    var openAt := |pre|;
    var closeAt := |pre| + 4 + |stamp|;
    assert row[openAt..openAt + 4] == CellOpen;
    forall j | j > openAt && OccursAt(row, CellOpen, j) ensures false {
      OnlyCellCloseAfter(row, pre, stamp, post, CellOpen, j);
      OccurrenceChar(row, CellOpen, j, 1);
    }
    RFindIs(row, CellOpen, openAt);
    assert row[closeAt..closeAt + 5] == CellClose;
    forall j | j > closeAt && OccursAt(row, CellClose, j) ensures false {
      OnlyCellCloseAfter(row, pre, stamp, post, CellClose, j);
    }
    RFindIs(row, CellClose, closeAt);
    assert row[openAt + 4..closeAt] == stamp;
  }

  /** `queryRunParameters(runNumber, timeNow, instantLumi)` given the reply
      for that run: NoDetection when no row matches, otherwise the whole
      seconds since the row's timestamp times `instantLumi`, over 10^6.
      A non-200 status raises NameError (the logging call names the
      undefined `pageZero`); an unparsable timestamp raises ValueError. */
  function QueryRunParameters(reply: HttpReply, b: Builtins, timeNow: int, instantLumi: real): (r: Result<real>)
    ensures !IsOk(reply) ==> r.Raised?
    ensures reply.Response? && reply.status != HttpOk ==> r == Raised(NameError("pageZero"))
    ensures IsOk(reply) && DetectionRow(Split(reply.body, RowEnd)) == "" ==> r == Ok(NoDetection)
    ensures IsOk(reply) && DetectionRow(Split(reply.body, RowEnd)) != "" ==>
      var stamp := LastCellText(DetectionRow(Split(reply.body, RowEnd)));
      && (b.strptime(stamp).None? ==> r == Raised(ValueError(stamp)))
      && (b.strptime(stamp).Some? ==> r == Ok(Estimate(SecondsSince(timeNow, b.strptime(stamp).value), instantLumi)))
  {
    match reply
    case TransportFailure => Raised(RequestException)
    case Response(status, body) =>
      if status != HttpOk then Raised(NameError("pageZero"))
      else
        var statusLine := DetectionRow(Split(body, RowEnd));
        if statusLine == "" then Ok(NoDetection)
        else
          var stamp := LastCellText(statusLine);
          match b.strptime(stamp)
          case None => Raised(ValueError(stamp))
          case Some(t) =>
            Ok(Estimate(SecondsSince(timeNow, t), instantLumi))
  }

  /** A table that never mentions RunningSoftErrorDetected yields NoDetection. */
  lemma NeverDetectedGivesSentinel(body: string, b: Builtins, timeNow: int, instantLumi: real)
    requires !Contains(body, DetectedMarker)
    ensures QueryRunParameters(Response(HttpOk, body), b, timeNow, instantLumi) == Ok(NoDetection)
  {
    var rows := Split(body, RowEnd);
    forall k | 0 <= k < |rows| ensures !IsDetectionRow(rows[k]) {
      if Find(rows[k], DetectedMarker) >= 0 {
        assert OccursAt(rows[k], DetectedMarker, Find(rows[k], DetectedMarker));
        ContainsInJoin(rows, RowEnd, k, DetectedMarker);
      }
    }
  }

  /** A detection timestamp later than now (clock skew between the two
      systems) gives a negative elapsed time, and so a negative estimate
      while the luminosity is positive. */
  lemma FutureDetectionIsNegative(timeNow: int, t: int, instantLumi: real)
    requires t > FloorDiv(timeNow, MicrosPerSecond) && instantLumi > 0.0
    ensures SecondsSince(timeNow, t) < 0
    ensures Estimate(SecondsSince(timeNow, t), instantLumi) < 0.0
  {
    var seconds := SecondsSince(timeNow, t);
    assert seconds as real <= -1.0;
    assert seconds as real * instantLumi <= -1.0 * instantLumi;
  }
}
