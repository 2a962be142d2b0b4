/** `statusLoop`: one polling tick. Eight gates are checked in order; the
    first that fails ends the tick. When all pass, the script returns before
    calling DetectSoftError, so the remembered luminosity never changes. */
module DecisionEngine {
  import opened Wrappers
  import opened PyTime
  import opened PyInt
  import opened PyStr
  import opened Inputs
  import PixelSupervisor
  import RunParameters

  /** The luminosity threshold in inverse picobarns, and the remembered
      luminosity of the last DetectSoftError at start-up. */
  const LumiThreshold: real := 100.0
  const InitialLastDetSoftErrLumi: real := 0.0

  const Stable := "STABLE"
  const PixelIncluded := "IN"
  const InfinityText := "Infinity"

  /** The gates of a tick, in the order they are checked. */
  datatype Gate =
    | Freshness          // PageZero sampled between 1 s ahead and 20 s behind
    | StableBeams        // BMODEtag is "STABLE"
    | PixelIn            // IO_PIXEL is "IN"
    | SupervisorRunning  // the pixel supervisor page says "Running"
    | RunData            // lumiRun and runNumber parse
    | RelativeThreshold  // more than the threshold delivered since the last call
    | InstantLumi        // the instantaneous luminosity is not zero
    | CrossCheck         // the run-parameter table shows no recent detection

  /** How a tick ends: at a failing gate, past every gate, or with an
      exception that escapes `statusLoop`. */
  datatype Outcome = Stopped(gate: Gate) | AllGatesPassed | Crashed(error: PyError)

  /** The end of a tick and the value of `lastDetSoftErrLumi` after it. */
  datatype Tick = Tick(outcome: Outcome, lastDetSoftErrLumi: real)

  /** The whole second the PageZero sample was collected at, when present and parsable. */
  function UpdateSecond(s: PageZeroSample, b: Builtins): Option<int> {
    if s.collectionTimeGMT.None? then None else b.strptime(s.collectionTimeGMT.value)
  }

  /** The freshness window stated on the raw difference in microseconds:
      the sample is at most one second ahead of now, and less than 21
      seconds behind. */
  predicate InFreshWindow(timeNow: int, updateSecond: int) {
    -MicrosPerSecond <= timeNow - updateSecond * MicrosPerSecond < 21 * MicrosPerSecond
  }

  /** Gate 1's test in `statusLoop`, on the floored elapsed seconds `d`:
      the sample is neither more than one second ahead nor more than 20
      whole seconds behind. */
  predicate FreshElapsed(d: int) {
    !(d < -1 || d > 20)
  }

  /** The run's integrated luminosity and number, once both have parsed. */
  datatype RunInfo = RunInfo(lumiRun: real, runNumber: int)

  /** The `try` block reading `lumiRun` and `runNumber`: "Infinity" leaves the
      luminosity at 0, and a missing key or a failed `float`/`int` is caught
      and ends the tick. */
  function ReadRunInfo(s: PageZeroSample, b: Builtins): (r: Option<RunInfo>)
  {
    if s.lumiRun.None? then None
    else
      var lumiRun := if s.lumiRun.value == InfinityText then Some(0.0) else b.float(s.lumiRun.value);
      if lumiRun.None? || s.runNumber.None? then None
      else
        match ParseInt(s.runNumber.value)
        case None => None
        case Some(n) => Some(RunInfo(lumiRun.value, n))
  }

  /** How the `try` block reads the run: a missing key, a rejected float or a
      run number `int()` rejects gives nothing; "Infinity" reads as 0. */
  lemma ReadRunInfoCases(s: PageZeroSample, b: Builtins)
    ensures s.lumiRun.None? || s.runNumber.None? ==> ReadRunInfo(s, b).None?
    ensures s.runNumber.Some? && ParseInt(s.runNumber.value).None? ==> ReadRunInfo(s, b).None?
    ensures s.lumiRun.Some? && s.lumiRun.value != InfinityText && b.float(s.lumiRun.value).None?
      ==> ReadRunInfo(s, b).None?
    ensures s.lumiRun == Some(InfinityText) && s.runNumber.Some? && ParseInt(s.runNumber.value).Some?
      ==> ReadRunInfo(s, b) == Some(RunInfo(0.0, ParseInt(s.runNumber.value).value))
    ensures s.lumiRun.Some? && s.lumiRun.value != InfinityText && b.float(s.lumiRun.value).Some?
      && s.runNumber.Some? && ParseInt(s.runNumber.value).Some?
      ==> ReadRunInfo(s, b) == Some(RunInfo(b.float(s.lumiRun.value).value, ParseInt(s.runNumber.value).value))
  {
  }

  /** Reading `instantLumi` outside any `try`: a missing key raises KeyError,
      "Infinity" counts as 0, and text `float` rejects raises ValueError. */
  function ReadInstantLumi(s: PageZeroSample, b: Builtins): Result<real> {
    if s.instantLumi.None? then Raised(KeyError("instantLumi"))
    else if s.instantLumi.value == InfinityText then Ok(0.0)
    else
      match b.float(s.instantLumi.value)
      case None => Raised(ValueError(s.instantLumi.value))
      case Some(v) => Ok(v)
  }

  /** Gate 8's decision on the historical estimate `h`: proceed when it is
      negative (the -1 sentinel or any other negative value) or above the
      threshold; stop when it lies in [0, threshold]. */
  predicate CrossCheckProceeds(h: real, lumiThreshold: real) {
    h < 0.0 || h > lumiThreshold
  }

  /** The position of a gate in the chain, from 1 to 8. */
  function Rank(g: Gate): nat {
    match g
    case Freshness => 1
    case StableBeams => 2
    case PixelIn => 3
    case SupervisorRunning => 4
    case RunData => 5
    case RelativeThreshold => 6
    case InstantLumi => 7
    case CrossCheck => 8
  }

  /** The tick did not stop at any gate before gate `k`. */
  predicate EndsAtOrAfter(o: Outcome, k: nat) {
    o.Stopped? ==> Rank(o.gate) >= k
  }

  /** Gate 8 on the result of the historical query: a raised error escapes,
      otherwise the estimate decides. */
  function CrossCheckOutcome(q: Result<real>, lumiThreshold: real): (o: Outcome)
    ensures EndsAtOrAfter(o, 8)
  {
    match q
    case Raised(e) => Crashed(e)
    case Ok(h) =>
      if CrossCheckProceeds(h, lumiThreshold) then AllGatesPassed
      else Stopped(CrossCheck)
  }

  /** Gates 7 and 8, reached once more than the threshold has been delivered. */
  function LumiStage(f: Feeds, b: Builtins, timeNow: int, lumiThreshold: real, run: RunInfo): (o: Outcome)
    ensures EndsAtOrAfter(o, 7)
  {
    match ReadInstantLumi(f.pageZero, b)
    case Raised(e) => Crashed(e)
    case Ok(instantLumi) =>
      if instantLumi == 0.0 then Stopped(InstantLumi)
      else
        CrossCheckOutcome(RunParameters.QueryRunParameters(f.runParameters(run.runNumber), b, timeNow, instantLumi), lumiThreshold)
  }

  /** Gates 5 to 8, reached once the supervisor reports running. */
  function RunStage(f: Feeds, b: Builtins, timeNow: int, last: real, lumiThreshold: real): (o: Outcome)
    ensures EndsAtOrAfter(o, 5)
  {
    match ReadRunInfo(f.pageZero, b)
    case None => Stopped(RunData)
    case Some(run) =>
      if !(run.lumiRun - last > lumiThreshold) then Stopped(RelativeThreshold)
      else LumiStage(f, b, timeNow, lumiThreshold, run)
  }

  /** Gates 4 to 8, reached once the PageZero checks pass. */
  function SupervisorStage(f: Feeds, b: Builtins, timeNow: int, last: real, lumiThreshold: real): (o: Outcome)
    ensures EndsAtOrAfter(o, 4)
  {
    SupervisorOutcome(PixelSupervisor.QueryPixelSupervisor(f.supervisor), f, b, timeNow, last, lumiThreshold)
  }

  /** Gate 4 on the result `q` of the supervisor query: a raised error
      escapes, "not running" stops the tick, "running" goes on to gate 5. */
  function SupervisorOutcome(q: Result<bool>, f: Feeds, b: Builtins, timeNow: int, last: real, lumiThreshold: real): (o: Outcome)
    ensures EndsAtOrAfter(o, 4)
  {
    match q
    case Raised(e) => Crashed(e)
    case Ok(running) =>
      if !running then Stopped(SupervisorRunning)
      else RunStage(f, b, timeNow, last, lumiThreshold)
  }

  /** One tick of `statusLoop` at evaluation time `timeNow` (microseconds). */
  function StatusLoop(f: Feeds, b: Builtins, timeNow: int, lastDetSoftErrLumi: real, lumiThreshold: real): (t: Tick)
    ensures t.lastDetSoftErrLumi == lastDetSoftErrLumi
    ensures f.pageZero == EmptySample ==> t.outcome == Crashed(KeyError("collectionTimeGMT"))
  {
    var s := f.pageZero;
    var outcome :=
      if s.collectionTimeGMT.None? then Crashed(KeyError("collectionTimeGMT"))
      else if UpdateSecond(s, b).None? then Crashed(ValueError(s.collectionTimeGMT.value))
      else if !FreshElapsed(ElapsedSeconds(timeNow, UpdateSecond(s, b).value * MicrosPerSecond)) then Stopped(Freshness)
      else if s.bmodeTag.None? then Crashed(KeyError("BMODEtag"))
      else if s.bmodeTag.value != Stable then Stopped(StableBeams)
      else if s.ioPixel.None? then Crashed(KeyError("IO_PIXEL"))
      else if s.ioPixel.value != PixelIncluded then Stopped(PixelIn)
      else SupervisorStage(f, b, timeNow, lastDetSoftErrLumi, lumiThreshold);
    // The DetectSoftError call and `lastDetSoftErrLumi = lumiRun` follow an
    // unconditional `return`, so no path changes the remembered luminosity.
    Tick(outcome, lastDetSoftErrLumi)
  }

  /** Gate 1's floored test and the window on raw microseconds agree:
      a sample collected at whole second `u` passes gate 1 exactly when it is
      at most one second ahead of `timeNow` and less than 21 seconds behind. */
  lemma FreshWindowAgrees(timeNow: int, u: int)
    ensures FreshElapsed(ElapsedSeconds(timeNow, u * MicrosPerSecond)) <==> InFreshWindow(timeNow, u)
  {
    ElapsedWithin(timeNow, u * MicrosPerSecond, -1, 20);
  }

  /** Gate 1: with a parsable collection time, the tick stops at Freshness
      exactly when the sample lies outside the window, whatever the other
      fields, the supervisor page and the run-parameter table say. */
  lemma FreshnessGate(f: Feeds, b: Builtins, timeNow: int, last: real, lumiThreshold: real)
    requires UpdateSecond(f.pageZero, b).Some?
    ensures StatusLoop(f, b, timeNow, last, lumiThreshold).outcome == Stopped(Freshness)
        <==> !InFreshWindow(timeNow, UpdateSecond(f.pageZero, b).value)
  {
    FreshWindowAgrees(timeNow, UpdateSecond(f.pageZero, b).value);
  }

  /** Gates 2 and 3: after a fresh sample, BMODEtag must be exactly "STABLE",
      then IO_PIXEL exactly "IN"; a missing key raises KeyError. */
  lemma BeamAndPixelGates(f: Feeds, b: Builtins, timeNow: int, last: real, lumiThreshold: real)
    requires UpdateSecond(f.pageZero, b).Some?
    requires InFreshWindow(timeNow, UpdateSecond(f.pageZero, b).value)
    ensures var o := StatusLoop(f, b, timeNow, last, lumiThreshold).outcome;
      && (f.pageZero.bmodeTag.None? ==> o == Crashed(KeyError("BMODEtag")))
      && (f.pageZero.bmodeTag.Some? && f.pageZero.bmodeTag.value != Stable ==> o == Stopped(StableBeams))
      && (f.pageZero.bmodeTag == Some(Stable) && f.pageZero.ioPixel.None? ==> o == Crashed(KeyError("IO_PIXEL")))
      && (f.pageZero.bmodeTag == Some(Stable) && f.pageZero.ioPixel.Some? && f.pageZero.ioPixel.value != PixelIncluded
          ==> o == Stopped(PixelIn))
  {
    FreshWindowAgrees(timeNow, UpdateSecond(f.pageZero, b).value);
  }

  /** Gates 1 to 3 pass. */
  predicate PassesBeamChecks(s: PageZeroSample, b: Builtins, timeNow: int) {
    && UpdateSecond(s, b).Some?
    && InFreshWindow(timeNow, UpdateSecond(s, b).value)
    && s.bmodeTag == Some(Stable)
    && s.ioPixel == Some(PixelIncluded)
  }

  /** Past the beam checks, the tick's outcome is decided from gate 4 on. */
  lemma ReachesSupervisor(f: Feeds, b: Builtins, timeNow: int, last: real, lumiThreshold: real)
    requires PassesBeamChecks(f.pageZero, b, timeNow)
    ensures StatusLoop(f, b, timeNow, last, lumiThreshold).outcome == SupervisorStage(f, b, timeNow, last, lumiThreshold)
  {
    FreshWindowAgrees(timeNow, UpdateSecond(f.pageZero, b).value);
  }

  /** Gate 4: once the beam checks pass, the tick stops at SupervisorRunning
      exactly when the page arrived and does not report "Running"; a failed
      query raises instead of reading as not running; a page reporting
      "Running" hands the tick to gates 5 to 8. */
  lemma SupervisorGate(f: Feeds, b: Builtins, timeNow: int, last: real, lumiThreshold: real)
    requires PassesBeamChecks(f.pageZero, b, timeNow)
    ensures var o := StatusLoop(f, b, timeNow, last, lumiThreshold).outcome;
      && (o == Stopped(SupervisorRunning) <==> IsOk(f.supervisor) && !PixelSupervisor.ReportsRunning(f.supervisor.body))
      && (!IsOk(f.supervisor) ==> o.Crashed?)
      && (IsOk(f.supervisor) && PixelSupervisor.ReportsRunning(f.supervisor.body) ==>
            o == RunStage(f, b, timeNow, last, lumiThreshold))
  {
    ReachesSupervisor(f, b, timeNow, last, lumiThreshold);
    var q := PixelSupervisor.QueryPixelSupervisor(f.supervisor);
    assert StatusLoop(f, b, timeNow, last, lumiThreshold).outcome == SupervisorOutcome(q, f, b, timeNow, last, lumiThreshold);
  }

  /** Gates 1 to 4 pass. */
  predicate PassesSupervisor(f: Feeds, b: Builtins, timeNow: int) {
    PassesBeamChecks(f.pageZero, b, timeNow) && IsOk(f.supervisor) && PixelSupervisor.ReportsRunning(f.supervisor.body)
  }

  /** Gate 5: from gate 5 on, the tick stops at RunData exactly when lumiRun
      or runNumber is missing or does not parse. */
  lemma RunDataGate(f: Feeds, b: Builtins, timeNow: int, last: real, lumiThreshold: real)
    ensures RunStage(f, b, timeNow, last, lumiThreshold) == Stopped(RunData) <==> ReadRunInfo(f.pageZero, b).None?
  {
  }

  /** Gate 6: with the run read as `run`, the tick stops at RelativeThreshold
      exactly when no more than the threshold has been delivered since the
      remembered luminosity (equality stops it); otherwise gates 7 and 8 decide. */
  lemma RelativeThresholdGate(f: Feeds, b: Builtins, timeNow: int, last: real, lumiThreshold: real, run: RunInfo)
    requires ReadRunInfo(f.pageZero, b) == Some(run)
    ensures RunStage(f, b, timeNow, last, lumiThreshold) == Stopped(RelativeThreshold)
        <==> run.lumiRun - last <= lumiThreshold
    ensures run.lumiRun - last > lumiThreshold ==>
      RunStage(f, b, timeNow, last, lumiThreshold) == LumiStage(f, b, timeNow, lumiThreshold, run)
  {
  }

  /** With the script's settings, a threshold of 100 and a remembered
      luminosity of 0 at start-up, the first tick to reach gate 6 goes on
      only once the run has delivered more than 100 inverse picobarns. */
  lemma StartUpThreshold(f: Feeds, b: Builtins, timeNow: int, run: RunInfo)
    requires ReadRunInfo(f.pageZero, b) == Some(run)
    ensures RunStage(f, b, timeNow, InitialLastDetSoftErrLumi, LumiThreshold) == Stopped(RelativeThreshold)
        <==> run.lumiRun <= 100.0
  {
    RelativeThresholdGate(f, b, timeNow, InitialLastDetSoftErrLumi, LumiThreshold, run);
  }

  /** Gate 7: "Infinity" reads as 0 and stops the tick, so does a value of 0;
      a missing or unparsable instantLumi raises, since it is read outside
      any `try`. None of these consult the run-parameter table. */
  lemma InstantLumiGate(f: Feeds, b: Builtins, timeNow: int, lumiThreshold: real, run: RunInfo)
    ensures var o := LumiStage(f, b, timeNow, lumiThreshold, run);
      var x := f.pageZero.instantLumi;
      && (x.None? ==> o == Crashed(KeyError("instantLumi")))
      && (x == Some(InfinityText) ==> o == Stopped(InstantLumi))
      && (x.Some? && x.value != InfinityText && b.float(x.value).None? ==> o == Crashed(ValueError(x.value)))
      && (x.Some? && x.value != InfinityText && b.float(x.value).Some? ==>
            (o == Stopped(InstantLumi) <==> b.float(x.value).value == 0.0))
  {
  }

  /** Gate 8: with a non-zero instantaneous luminosity, the historical
      estimate decides. A negative estimate (including the "never detected"
      sentinel) or one above the threshold passes every gate; one in
      [0, threshold] stops the tick; a raising query crashes it. */
  lemma CrossCheckGate(f: Feeds, b: Builtins, timeNow: int, lumiThreshold: real, run: RunInfo, instantLumi: real)
    requires ReadInstantLumi(f.pageZero, b) == Ok(instantLumi) && instantLumi != 0.0
    ensures var o := LumiStage(f, b, timeNow, lumiThreshold, run);
      var q := RunParameters.QueryRunParameters(f.runParameters(run.runNumber), b, timeNow, instantLumi);
      && (q.Raised? ==> o == Crashed(q.error))
      && (q.Ok? ==> (o == AllGatesPassed <==> q.value < 0.0 || q.value > lumiThreshold))
      && (q.Ok? ==> (o == Stopped(CrossCheck) <==> 0.0 <= q.value <= lumiThreshold))
  {
  }

  /** A tick passes every gate exactly when gates 1 to 4 pass and then
      gates 5 to 8 pass. */
  lemma AllGatesPassedMeans(f: Feeds, b: Builtins, timeNow: int, last: real, lumiThreshold: real)
    ensures StatusLoop(f, b, timeNow, last, lumiThreshold).outcome == AllGatesPassed
        <==> PassesSupervisor(f, b, timeNow) && RunStage(f, b, timeNow, last, lumiThreshold) == AllGatesPassed
  {
    if UpdateSecond(f.pageZero, b).Some? {
      FreshWindowAgrees(timeNow, UpdateSecond(f.pageZero, b).value);
      if PassesBeamChecks(f.pageZero, b, timeNow) {
        SupervisorGate(f, b, timeNow, last, lumiThreshold);
      }
    }
  }

  /** Gates 5 to 8 pass exactly when every one of their preconditions holds:
      the run data parses, more than the threshold was delivered since the
      remembered luminosity, the instantaneous luminosity is non-zero, and
      the cross-check proceeds. */
  lemma RunGatesPassedMeans(f: Feeds, b: Builtins, timeNow: int, last: real, lumiThreshold: real)
    ensures RunStage(f, b, timeNow, last, lumiThreshold) == AllGatesPassed <==>
      && ReadRunInfo(f.pageZero, b).Some?
      && var run := ReadRunInfo(f.pageZero, b).value;
      && run.lumiRun - last > lumiThreshold
      && ReadInstantLumi(f.pageZero, b).Ok? && ReadInstantLumi(f.pageZero, b).value != 0.0
      && var q := RunParameters.QueryRunParameters(f.runParameters(run.runNumber), b, timeNow, ReadInstantLumi(f.pageZero, b).value);
         q.Ok? && CrossCheckProceeds(q.value, lumiThreshold)
  {
  }

  /** A run-parameter table that never mentions RunningSoftErrorDetected
      counts as "never triggered in this run": once gate 7 passes, gate 8
      passes too. */
  lemma NeverDetectedPassesAll(f: Feeds, b: Builtins, timeNow: int, lumiThreshold: real, run: RunInfo, instantLumi: real, body: string)
    requires ReadInstantLumi(f.pageZero, b) == Ok(instantLumi) && instantLumi != 0.0
    requires f.runParameters(run.runNumber) == Response(HttpOk, body)
    requires !Contains(body, RunParameters.DetectedMarker)
    ensures LumiStage(f, b, timeNow, lumiThreshold, run) == AllGatesPassed
  {
    RunParameters.NeverDetectedGivesSentinel(body, b, timeNow, instantLumi);
  }

  /** The inputs of one tick. */
  datatype Poll = Poll(feeds: Feeds, timeNow: int)

  /** Successive ticks, each starting from the remembered luminosity the
      previous one left (the module-level `lastDetSoftErrLumi`). */
  function RunTicks(polls: seq<Poll>, b: Builtins, last: real, lumiThreshold: real): (ticks: seq<Tick>)
    ensures |ticks| == |polls|
    ensures forall i :: 0 <= i < |ticks| ==> ticks[i].lastDetSoftErrLumi == last
    ensures forall i :: 0 <= i < |ticks| ==>
      ticks[i] == StatusLoop(polls[i].feeds, b, polls[i].timeNow, last, lumiThreshold)
  {
    if polls == [] then []
    else
      var first := StatusLoop(polls[0].feeds, b, polls[0].timeNow, last, lumiThreshold);
      [first] + RunTicks(polls[1..], b, first.lastDetSoftErrLumi, lumiThreshold)
  }
}
