# AutoDetectSoftError decision logic in Dafny

`AutoDetectSoftError.py` polls the CMS web monitoring (WBM) every 30 seconds.
It decides whether to run the pixel supervisor's DetectSoftError transition
once more than 100 pb⁻¹ of luminosity has been delivered since DetectSoftError was last called.

This project models one tick of that poll (`statusLoop`) as pure functions:

- **Gate chain.** Eight gates are checked in order. The tick ends at the first gate that fails.
- **Supervisor scrape.** The pixel supervisor page is scraped for its "Current State".
- **Run-parameter scrape.** The WBM run-parameter table is scraped for the last `RunningSoftErrorDetected` row. From it, a pessimistic integrated-luminosity estimate is computed.
- **Python semantics.** The Python 2 behaviour these steps rely on is written out: `str.find`/`rfind`, slicing with negative and clamped bounds, `split`, `splitlines`, integer floor division, `timedelta` normalisation and `int()`.

Modules:

- `Wrappers`, `Sequences`: Option, `reversed`, first and last match of a test.
- `PyStr`: Python string search, slicing and splitting.
- `PyTime`: floor division, `timedelta`, whole elapsed seconds.
- `PyInt`: `int(text)` for base-10 ASCII text.
- `Inputs`: the decoded PageZero sample, HTTP replies, Python exceptions and the abstract library parsers.
- `PixelSupervisor`: `queryPixelSupervisor`.
- `RunParameters`: `queryRunParameters`.
- `DecisionEngine`: `statusLoop`, its gates and their order, and a run of successive ticks.

I/O is turned into inputs:

- **PageZero sample.** It is a record whose fields are `None` when the dictionary key is missing. The `{}` that `queryPageZero` returns on a bad status, undecodable content or a missing `monitor/PageZeroSample` key is `EmptySample`. The ways `queryPageZero` itself raises are left out (see below).
- **HTTP replies.** The supervisor and run-parameter replies are each `Response(status, body)` or `TransportFailure`. A body is the Python 2 byte string `.content`, one character per byte.
- **Evaluation time.** `datetime.utcnow()` becomes an integer count of microseconds.
- **Library parsers.** `datetime.strptime` and `float` are parameters returning `Option`. `strptime` returns whole seconds, because the format has no fraction.

An exception that escapes `statusLoop` is the outcome `Crashed(error)`, never a graceful stop.

Where the documented intent of the script and its code differ, the model follows the code:

- **All gates pass, nothing fires.** An unconditional `return` at line 252 comes before the DetectSoftError call. So a tick that passes every gate ends as `AllGatesPassed`, nothing fires, and `lastDetSoftErrLumi` is never updated. `StatusLoop` and `RunTicks` prove the remembered luminosity never changes.
- **Cross-check at the threshold.** The cross-check proceeds only when the historical estimate is strictly above the threshold or negative. An estimate equal to the threshold stops the tick.
- **Supervisor status not 200.** This raises `NameError`, because the logging call names `pageZero`, which is undefined there. It does not read as "not running". The same holds for the run-parameter query.
- **Supervisor with no closing `</b>`.** The slice then ends one character before the end of the line. So `Current State: <b>Running!` reads as running (`UnclosedTagReadsRunning`), and so does `<td>Current State: <b>Running!` (`UnclosedRunningLine`); it does not fail closed.
- **Detection timestamps in the future.** These give a negative estimate at positive luminosity. The cross-check treats that exactly like the "never detected" sentinel -1.

## Model

| member | source | states |
|---|---|---|
| `PyStr.Find` | AutoDetectSoftError.py:116-121 | `find` returns -1 exactly when the pattern is absent, otherwise the index of its leftmost occurrence |
| `PyStr.RFind` | AutoDetectSoftError.py:150-151 | `rfind` returns -1 exactly when the pattern is absent, otherwise the index of its rightmost occurrence |
| `PyStr.Slice` | AutoDetectSoftError.py:122 | a slice with in-range bounds is the subsequence between them; a negative end counts from the end; crossed bounds give the empty string |
| `PyStr.Split` | AutoDetectSoftError.py:142 | `split('</TR>')` gives pieces that join back to the page and none of which contains the separator |
| `PyStr.ContainsInJoin` | AutoDetectSoftError.py:142-144 | a marker found in any split piece occurs in the whole page |
| `PyStr.SplitLinesStep` | AutoDetectSoftError.py:115 | a break-free line followed by `\n`, `\r\n` or a bare `\r` (not followed by `\n`) splits off as the first line |
| `PyStr.SplitLinesOfWritten` | AutoDetectSoftError.py:115 | `splitlines` returns exactly the lines of any text written with `\n`, `\r\n` and `\r` terminators, mixed freely, with or without an unterminated last line, without terminators |
| `Sequences.LastWhere` | AutoDetectSoftError.py:142-147 | the first hit of a scan over `reversed(rows)` is the last matching row in document order; no hit means no row matches |
| `PyTime.FloorDiv` | AutoDetectSoftError.py:157-158 | Python 2 integer division rounds toward minus infinity for either sign of divisor |
| `PyTime.Difference` | AutoDetectSoftError.py:156 | subtracting datetimes gives a normalised timedelta whose length is the difference |
| `PyTime.NormalFormUnique` | AutoDetectSoftError.py:156 | two normalised timedeltas of the same length are equal |
| `PyTime.WholeSeconds` | AutoDetectSoftError.py:157-158 | the conversion equals `days*86400 + seconds`; microseconds never change it; it is the floor of the length in seconds |
| `PyTime.ElapsedSeconds` | AutoDetectSoftError.py:179-181 | the elapsed whole seconds `d` satisfy `d*10^6 <= difference < (d+1)*10^6` |
| `PyTime.SecondsSince` | AutoDetectSoftError.py:154-158 | since a timestamp at whole second `t`, the elapsed whole seconds are the floored seconds of now minus `t` |
| `PyTime.ElapsedWithin` | AutoDetectSoftError.py:183 | floored seconds lie in `[lo, hi]` exactly when the raw difference lies in `[lo*10^6, (hi+1)*10^6)` |
| `PyInt.ParseShow` | AutoDetectSoftError.py:214 | `int(str(n)) == n` for every integer |
| `PyInt.ParseRejectsDigitless` | AutoDetectSoftError.py:214 | `int()` raises ValueError on any text without a decimal digit |
| `PyInt.ParseSignThenBlanks` | AutoDetectSoftError.py:214 | whitespace between a minus sign and the digits is skipped: `"-" + blanks + str(n)` reads as `-n` |
| `PixelSupervisor.StatusLine` | AutoDetectSoftError.py:112-118 | the status line is the first line mentioning "Current State", and it is "" exactly when no line does |
| `PixelSupervisor.ReportsRunningIff` | AutoDetectSoftError.py:119-126 | the page reads as running exactly when a "Current State" line exists and the text cut from it is "Running" |
| `PixelSupervisor.NoStatusLineNotRunning` | AutoDetectSoftError.py:112-126 | a page with no "Current State" line reads as not running |
| `PixelSupervisor.WellFormedStatus` | AutoDetectSoftError.py:120-122 | on `pre<b>s</b>post`, with no `<b>` in `pre` and no `</b>` before the closing tag, the extracted state is `s`; other markup such as a leading `<td>` is allowed |
| `PixelSupervisor.UnclosedStatus` | AutoDetectSoftError.py:120-122 | on `pre<b>s` with no `<b>` in pre and no `</b>` anywhere in the line, the extracted state is s minus its last character; markup such as a leading `<td>` is allowed |
| `PixelSupervisor.UnclosedRunningLine` | AutoDetectSoftError.py:120-125 | any line `pre<b>Running!` whose pre has no 'b' and no '/' (for example `<td>Current State: `) yields the state "Running" |
| `PixelSupervisor.UnclosedTagReadsRunning` | AutoDetectSoftError.py:120-125 | `Current State: <b>Running!` yields the state "Running" |
| `PixelSupervisor.SingleLinePage` | AutoDetectSoftError.py:115-118 | a one-line page mentioning "Current State" has that line as status line |
| `PixelSupervisor.QueryPixelSupervisor` | AutoDetectSoftError.py:103-126 | a value is returned exactly for status 200, and it is true exactly when the page reads as running; another status raises NameError |
| `RunParameters.DetectionRow` | AutoDetectSoftError.py:139-147 | the chosen row contains both markers and no later row does; "" exactly when no row does |
| `RunParameters.LastCellOfRow` | AutoDetectSoftError.py:150-152 | on a row ending `<TD>stamp</TD>post` with no '<' in stamp or post, the extracted text is the stamp |
| `RunParameters.QueryRunParameters` | AutoDetectSoftError.py:129-164 | a table without a detection row gives -1; otherwise the floored seconds since the row's stamp times instantLumi / 10^6, or ValueError for a bad stamp; anything but status 200 raises |
| `RunParameters.NeverDetectedGivesSentinel` | AutoDetectSoftError.py:132-148 | a table that never mentions RunningSoftErrorDetected gives -1 |
| `RunParameters.FutureDetectionIsNegative` | AutoDetectSoftError.py:156-161 | a detection stamp later than the floored current second gives negative elapsed seconds, so a negative estimate at positive luminosity |
| `DecisionEngine.StatusLoop` | AutoDetectSoftError.py:167-254 | no path of a tick changes `lastDetSoftErrLumi`; an empty PageZero dictionary raises KeyError on `collectionTimeGMT` |
| `DecisionEngine.SupervisorStage` | AutoDetectSoftError.py:201-206 | once gate 4 is reached, no earlier gate can stop the tick |
| `DecisionEngine.SupervisorOutcome` | AutoDetectSoftError.py:201-206 | whatever the supervisor query returned, the tick ends at gate 4 or later |
| `DecisionEngine.RunStage` | AutoDetectSoftError.py:208-226 | once gate 5 is reached, no earlier gate can stop the tick |
| `DecisionEngine.LumiStage` | AutoDetectSoftError.py:228-248 | once gate 7 is reached, no earlier gate can stop the tick |
| `DecisionEngine.CrossCheckOutcome` | AutoDetectSoftError.py:239-248 | whatever the historical query returned, the tick ends at gate 8, passes every gate, or crashes with the query's exception |
| `DecisionEngine.ReadRunInfoCases` | AutoDetectSoftError.py:208-218 | a missing key, a rejected float or a run number `int()` rejects gives no run data; "Infinity" reads as 0 |
| `DecisionEngine.FreshWindowAgrees` | AutoDetectSoftError.py:179-186 | the floored test `-1 <= d <= 20` holds exactly when the sample is at most 1 s ahead and less than 21 s behind |
| `DecisionEngine.FreshnessGate` | AutoDetectSoftError.py:175-186 | the tick stops at gate 1, whatever the other inputs, exactly when the sample is outside the window |
| `DecisionEngine.BeamAndPixelGates` | AutoDetectSoftError.py:188-199 | after a fresh sample: BMODEtag other than "STABLE" stops at gate 2, then IO_PIXEL other than "IN" stops at gate 3, missing keys raise KeyError |
| `DecisionEngine.ReachesSupervisor` | AutoDetectSoftError.py:183-202 | after gates 1-3 pass, the outcome is decided by gates 4-8 alone |
| `DecisionEngine.SupervisorGate` | AutoDetectSoftError.py:201-206 | after gates 1-3, the tick stops at gate 4 exactly when the page arrived and does not read as running; a failed query crashes; a page reading as running hands the tick to gates 5-8 |
| `DecisionEngine.RunDataGate` | AutoDetectSoftError.py:208-218 | from gate 5 on, the tick stops at gate 5 exactly when the run data is missing or does not parse |
| `DecisionEngine.RelativeThresholdGate` | AutoDetectSoftError.py:222-226 | with the run data read, the tick stops at gate 6 exactly when `lumiRun - lastDetSoftErrLumi <= threshold`, and otherwise gates 7-8 decide |
| `DecisionEngine.StartUpThreshold` | AutoDetectSoftError.py:19-21 | with the script's threshold of 100 and start-up value 0, gate 6 stops the tick exactly when the run has delivered at most 100 pb⁻¹ |
| `DecisionEngine.InstantLumiGate` | AutoDetectSoftError.py:228-234 | from gate 7 on: "Infinity" or 0 stops at gate 7; a missing or unparsable instantLumi raises |
| `DecisionEngine.CrossCheckGate` | AutoDetectSoftError.py:239-248 | with a non-zero instantLumi, every gate passes exactly when the estimate is negative or above the threshold, gate 8 stops exactly when it is in `[0, threshold]`, and a raising query crashes the tick |
| `DecisionEngine.AllGatesPassedMeans` | AutoDetectSoftError.py:183-252 | a tick passes every gate exactly when gates 1-4 pass and then gates 5-8 pass |
| `DecisionEngine.RunGatesPassedMeans` | AutoDetectSoftError.py:208-248 | gates 5-8 pass exactly when the run data parses, more than the threshold was delivered, instantLumi is non-zero and the cross-check proceeds |
| `DecisionEngine.NeverDetectedPassesAll` | AutoDetectSoftError.py:239-248 | once gate 7 has passed, a run-parameter table that never mentions RunningSoftErrorDetected lets gate 8 pass too |
| `DecisionEngine.RunTicks` | AutoDetectSoftError.py:252-254 | over any sequence of ticks each starting from the previous state, every tick is `statusLoop` at the initial remembered luminosity |

## Left out

- `RepeatedTimer` (lines 52-76): `_run` re-arms the timer before calling `statusLoop`, so ticks may overlap. This is thread behaviour; `RunTicks` models only strictly sequential ticks.
- Logging setup, rotation, `startTimer` and the `__main__` block (lines 32-49, 266-278): I/O only. The log messages and the `print statusLine` at line 146 are dropped.
- `requests.get`: the supervisor and run-parameter queries take a given reply. A hung request, possible because no timeout is set, is not modelled.
- `queryPageZero` (lines 79-100) is not modelled; its result is the given `PageZeroSample`. Two of its paths raise out of `statusLoop`, and `PageZeroSample` cannot represent them. First, its `requests.get` at line 83 has no `try`, so a connection error escapes. Second, a `monitor` element that decodes to `None` raises TypeError at line 95, and only KeyError is caught there.
- Page bodies are byte strings, one character per byte; decoding is not modelled. So `UnclosedStatus` drops the last byte of the line, as Python 2 does, which may be part of a multi-byte character.
- `datetime.strptime` and `float()`: abstract parameters returning `Option`. Their exact grammars are not modelled.
- Non-finite floats (`float("nan")`, `float("inf")` and spellings other than "Infinity"): not represented, because luminosities are reals. IEEE rounding is likewise not modelled.
- `PyInt.ParseShow`: covers `int()` on ASCII text only. Python 2 `int()` on unicode text also accepts other Unicode digits and whitespace.
- `PyInt.ParseSignThenBlanks`: accepts whitespace between the sign and the digits for every value. CPython 2 accepts it only when the value fits a C `long`. A larger value falls back to the long-integer parser, which rejects the whitespace.
- PageZero values that `xmltodict` decodes as `None` or as nested dictionaries: not modelled; every present field is a string.
- Datetime range limits (years 1 to 9999) and the overflow errors they cause: not modelled.
- The code after the `return` at line 252 (DetectSoftError call, `lastDetSoftErrLumi = lumiRun`, `sleep(60)`): unreachable, so no firing transition exists.
