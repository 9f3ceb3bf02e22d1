# Maf_Sensor test bench, modelled in Dafny

The repository drives a variable-frequency motor through an Arduino board and
logs what a mass-air-flow (MAF) sensor and a reference flow meter report. This
project models its core as pure functions over immutable data and proves what
the programs promise. The modelled programs are:

- the two acquisition scripts. save_data/run.py sweeps, holds or ramps the
  drive frequency and averages status readings into a CSV row per window.
  save_data/save_data.py logs every status line it receives.
- the three Qt control panels. RPM.py and test/T2.py talk to the board over
  the serial port; main.py keeps its own state and has no port.
- the chart window of test/chart.py: the live charts, the CSV it saves, and
  the CSV loader of its comparison tab.

Modules, one per file:

- `Wrappers`, `Text`, `Numbers` and `Utf8` hold the Python behaviour the
  programs rely on. This covers `strip`, `split`, `lower`, `int()`, `float()`,
  `round()` (ties to even) and UTF-8 with `errors="ignore"`.
- `StatusLine` is the anchored `STATUS_RE` of the scripts. Its parser accepts
  exactly the lines of the regular expression, with `\d` read as the ASCII
  digits, and returns the groups.
- `LineReader` is the byte-by-byte reader thread. It is proved equal to a
  reference splitter of the byte stream.
- `Commands` holds the command texts and the two `send_cmd` framings.
- `Targets` holds the clamp to 0..60 Hz, the sweep list (Python's `range`)
  and the ramp advance.
- `Shutdown` is `graceful_stop` and the `finally` teardown.
- `Averaging` reduces one window to a CSV row.
- `Persist` is the append-only CSV, which gets a header only when the file is
  new.
- `Classify` is the order in which the scripts test a queued line.
- `Banner` is `wait_banner`.
- `Campaign` is the main loop of save_data/run.py in its three modes.
- `Logger` is the main loop of save_data/save_data.py.
- `Search` is the unanchored `re.search` the panels use.
- `SerialPanel` covers RPM.py and test/T2.py. They differ in constants and in
  three details, collected in a `Variant`.
- `LocalPanel` is main.py.
- `Keys` lists the keyboard keys the panels handle.
- `LiveChart` holds the realtime tabs of test/chart.py and `save_csv`.
- `ChartCsv` is `load_csv_to_linechart` of test/chart.py.

Both loops are step functions over the passes they make. Each pass reads the
clock once and may see a stop signal. It takes at most one line from the
queue. An exception escaping the loop is an event of its own.

The model takes the clock, the serial port and the file system as inputs:

- clock readings are parameters;
- the bytes `read(1)` returns are a sequence of reads;
- whether the CSV file exists is a boolean, or an `Option` holding its
  records.

Floating-point values are modelled as reals.

Where the repository's own description and the code differ, the model follows
the code:

- `STATUS_RE` requires all eight fields. A status reply carrying only
  `hz`, `rpm`, `run` and `hold` is never logged (`StatusLine.MissingKeyRejected`).
- In `graceful_stop`, `STOP` is attempted only if writing `SET_HZ 0` did not
  raise, because both writes share one `try` (`Shutdown.GracefulStop`).
- In ramp mode only the first target is clamped to 0..60 Hz. Later targets run
  up to `--ramp-stop`, even above 60 (`Targets.RampLeavesRange`).
- save_data/save_data.py parses `--duration` but its deadline test is
  commented out (`Logger.DurationIgnored`).

Some behaviour the proofs make explicit:

- test/T2.py reads `flow=` and `volt=` with an unanchored search. A status
  line that names its fields `flow1=` and `volt1=` contains neither key, so
  the panel keeps its previous flow and voltage (`Search.AbsentKey`).
- test/T2.py never shows the reported rpm (`SerialPanel.T2IgnoresRpm`).
- The comparison tab accepts lines whose first field is not a number
  (`LiveChart.CompareAcceptsMore`).
- When the CSV header is shorter than a chosen column, the axis title raises
  `IndexError` after the points and ranges have been set. The handler reports
  the error (`failed` in `ChartCsv.Draw`).

## Model

| member | source | states |
|---|---|---|
| StatusLine.Parse | save_data/run.py:11-15 | a line the regular expression matches yields eight well-formed fields: keys in schema order, gaps of whitespace, values of the right grammar |
| StatusLine.ParseSound | save_data/run.py:11-15 | every accepted line is exactly the text of the fields returned: nothing is skipped or invented |
| StatusLine.ParseComplete | save_data/run.py:11-15 | every line built from well-formed fields (with or without one final line feed) is accepted and gives back exactly those fields |
| StatusLine.ParseDecides | save_data/run.py:11-15 | the parser accepts a line if and only if it is in the language of `STATUS_RE`, with `\d` read as the ASCII digits |
| StatusLine.RenderInjective | save_data/save_data.py:7-11 | the groups of a match are determined by the line |
| StatusLine.MissingKeyRejected | save_data/save_data.py:7-11 | a line lacking `key=` for any of the eight keys never matches |
| StatusLine.FloatOfDecimal | save_data/run.py:190-194 | `float()` of a matched decimal group never raises and gives the group's decimal value |
| StatusLine.Match | save_data/run.py:185-196 | a status line matches iff the grammar accepts it; `hz` is the integer of its digits, the decimals are `float()` of their groups, `run`/`hold` are true iff the group is `1` |
| Utf8.Decode | save_data/run.py:37 | decoding never lengthens the input, and every ASCII character of the text is one of the received bytes |
| Utf8.DecodeEncode | save_data/run.py:37 | decoding with `errors="ignore"` undoes `encode("utf-8")` for every string |
| LineReader.QueueText | save_data/run.py:45 | the text queued for a read failure starts with `__ERR__ ` |
| LineReader.Flush | save_data/run.py:34-41 | a terminator queues at most one entry, a line that is non-empty, stripped and free of CR/LF; an empty buffer queues nothing |
| LineReader.Step | save_data/run.py:27-46 | a terminator empties the buffer and flushes it; another byte is appended; an empty read changes nothing; a failing read queues one error and keeps the buffer |
| LineReader.Run | save_data/run.py:27-46 | over any run of reads every queued line is clean, the buffer never holds CR or LF, and at most one entry is queued per read |
| LineReader.Reassemble | save_data/save_data.py:23-42 | the reader loop queues exactly the entries of the step-by-step reading |
| LineReader.RunBytes | save_data/run.py:27-43 | feeding bytes one at a time cuts the stream at CR/LF exactly as a reference splitter of the whole stream does, whatever the buffer held before |
| LineReader.TerminatorOnEmpty | save_data/run.py:34-35 | a CR or LF with nothing collected queues nothing (so CRLF gives one line) |
| LineReader.FaultKeepsBuffer | save_data/run.py:44-46 | a failing read keeps the collected bytes and queues exactly one `__ERR__` note |
| Commands.CommandText | save_data/run.py:159 | every command text is non-empty, has no surrounding whitespace and no line feed |
| Commands.ParseCommandText | save_data/run.py:159 | the board's reading of a command text gives back that command, including the number of `SET_HZ n` |
| Commands.CommandTextInjective | save_data/run.py:48-50 | distinct commands have distinct texts |
| Commands.ScriptLine | save_data/run.py:48-50 | the scripts write the stripped command followed by exactly one line feed, with no whitespace before it |
| Commands.ScriptWireDecodes | save_data/run.py:48-50 | the bytes written decode to the stripped command and one line feed |
| Commands.ScriptRoundTrip | save_data/save_data.py:44-46 | every command the scripts send is received as itself |
| Commands.PanelLine | RPM.py:173-181 | the panels add a line feed exactly when the command does not already end with one |
| Commands.PanelLineIdempotent | test/T2.py:239-247 | applying the panels' framing twice adds nothing more |
| Commands.SameWire | RPM.py:173-181 | for every command the program sends, the panels' and the scripts' `send_cmd` write the same bytes |
| Targets.ClampHz | save_data/run.py:225 | the target lies in 0..60, equals the argument when it is in range, and the nearer bound otherwise |
| Targets.ClampIdempotent | save_data/save_data.py:113-115 | clamping a clamped target changes nothing |
| Targets.ClampMonotone | save_data/save_data.py:113-115 | clamping preserves order |
| Targets.PyRange | save_data/run.py:145-149 | `range(start, stop, step)` for a positive step: values in `[start, stop)`, starting at `start`, one step apart, empty iff `start >= stop` |
| Targets.RangeMembers | save_data/run.py:145-149 | a value is in the range iff it lies in `[start, stop)` a whole number of steps above `start` |
| Targets.SweepShape | save_data/run.py:145-149 | the sweep list lies in 0..60, is strictly increasing in steps of `max(1, step)`, starts at the clamped start, ends at or below the clamped stop, and is empty iff the clamped start exceeds the clamped stop |
| Targets.SweepMembers | save_data/run.py:145-149 | exactly the values between the clamped start and stop, a whole number of steps above the start, are swept |
| Targets.RampAdvance | save_data/save_data.py:134-138 | below `ramp_stop` the target moves up but not past it; at or above it, the target stays |
| Targets.RampClosedForm | save_data/save_data.py:134-138 | after `n` advances from a start at or below the stop, the target is `min(stop, start + n*step)` |
| Targets.RampBounded | save_data/run.py:287-310 | with a non-negative step the ramp never goes down and never passes the larger of its start and its stop |
| Targets.RampLeavesRange | save_data/run.py:305 | a `ramp_stop` above 60 is reached: targets after the first are not clamped |
| Shutdown.GracefulStop | save_data/run.py:63-69 | `SET_HZ 0` is always attempted first; `STOP` is sent iff the first write succeeded |
| Shutdown.Teardown | save_data/run.py:346-356 | the teardown begins with `SET_HZ 0`, ends with stopping the reader, closing the port and closing the file, and holds `STOP` iff the first write succeeded |
| Shutdown.StopBytesDecode | save_data/run.py:63-69 | the shutdown bytes are received as `SET_HZ 0` and `STOP` |
| Numbers.RoundHalfEven | RPM.py:299 | `round()` gives an integer within one half of its argument, and the even one at a tie |
| Numbers.RoundTo | save_data/run.py:211-215 | `round(x, n)` lies within half a unit of the n-th decimal of `x` |
| Numbers.ParseFloatStrip | test/chart.py:293-294 | `float()` ignores whitespace at both ends of its text and reads the literal that `strip()` leaves |
| Numbers.ParseFloatDecimal | save_data/run.py:190-193 | `float()` of a literal `[-]digits[.digits]`, the shape the status regex captures, is the value those digits denote |
| Averaging.MeanBounds | save_data/run.py:211-214 | the mean of a window lies between any bounds of its samples |
| Averaging.MeanConstant | save_data/run.py:211 | a window of equal samples has that sample as its mean |
| Averaging.Reduce | save_data/run.py:203-217 | a row is written iff the bucket is non-empty; it carries the target, the rpm mean to 3 decimals, the flow mean (times 3.6 in the sweep) and the voltages to the mode's decimals, and `analog` within rounding of `volt2_avg * 1023 / 5` |
| Averaging.SweepAnalogExact | save_data/run.py:213-215 | in the sweep, `analog` is exactly `volt2_avg * 1023 / 5`: a two-decimal voltage loses nothing at three decimals |
| Averaging.ReduceSteady | save_data/run.py:261-266 | a window of identical samples reports that sample's rpm and voltage, up to rounding |
| Persist.Session | save_data/run.py:121-125 | a new file gets the header and then the rows; an existing file keeps its content and only gets the rows appended |
| Persist.SessionHeaderIffNew | save_data/save_data.py:99-103 | a session writes a header iff the file did not exist |
| Persist.HeaderOnce | save_data/run.py:121-125 | after any number of sessions from no file, the log holds one header, first, then every session's rows in order |
| Persist.ReplayExisting | save_data/save_data.py:99-103 | sessions on an existing file only append their rows |
| Classify.Classify | save_data/save_data.py:146-153 | a line is a reader error iff it starts with `__ERR__`, an acknowledgement iff it otherwise starts with `OK` or `ERR`, and a reading only when the status grammar matches it |
| Classify.ClassifyAgreesWithMatch | save_data/save_data.py:146-153 | a line is read as telemetry iff the status grammar matches it: the earlier tests never hide a status line |
| Classify.ErrorEntryIsSerialError | save_data/run.py:178-180 | what the reader queues for a failed read is always taken for a reader error |
| Banner.WaitBanner | save_data/run.py:52-61 | the banner is reported iff some line taken before the timeout contains `Arduino Ready`; nothing polled later matters |
| Campaign.StatusPeriod | save_data/run.py:134 | the status period is positive and at most one second, whatever `--sample-rate` is |
| Campaign.Start | save_data/run.py:130-132 | the loop starts after `RESET` and `RUN`, with no rows and an empty bucket; fixed and ramp modes have also sent their clamped first target; the sweep has sent nothing more |
| Campaign.PollStatus | save_data/run.py:169-171 | `STATUS` is sent exactly when the status time has come, and the next one is then due a period later; otherwise nothing changes |
| Campaign.Flush | save_data/run.py:255-271 | writing a window adds exactly one row, the reduction of the bucket for the current target, after the earlier rows; the bucket empties, the window restarts now, and nothing else changes |
| Campaign.Absorb | save_data/run.py:242-271 | a line without a sample, or with a sample for another frequency, changes nothing; a sample for the target joins the bucket, and when the window has run `avg_window` or more the bucket with that sample becomes one row and the window restarts now; the target and the commands sent never change |
| Campaign.Collect | save_data/run.py:181-199 | a sweep sample for the current target joins the bucket; any other line changes nothing |
| Campaign.OpenWindow | save_data/run.py:151-165 | at the head of the sweep's `for` loop: the list used up ends it as finished, then the stop flag as interrupted, then the deadline; otherwise the next target of the list is sent as `SET_HZ` and a window opens now with an empty bucket and the status due at once |
| Campaign.CloseWindow | save_data/run.py:203-222 | a closed sweep window adds a row if and only if its bucket is non-empty, that row being the bucket's reduction for the target; the sweep moves to the next target and ends as finished after the last one |
| Campaign.SweepPass | save_data/run.py:151-222 | a sweep pass opens a window at the head of the loop, closes it once `avg_window` has run or the stop flag is set, and otherwise polls the status and collects the line's sample; it never clears the stop flag, and only adds to the commands sent and the rows |
| Campaign.WindowPass | save_data/run.py:280-326 | a fixed or ramp pass ends as interrupted on the stop flag, then as ended on the deadline; otherwise the status is polled, in ramp mode the ramp test runs, and the line is absorbed, in that order |
| Campaign.StepOf | save_data/run.py:143-344 | a fault ends the loop as raised, and only a fault does; a signal sets the stop flag, which stays set; the fixed and ramp loops, and the sweep at the head of its list, end as interrupted on the flag, while a sweep window is closed by it; only the sweep ends as finished; ending the fixed or ramp loop changes nothing but the flag; commands and rows are only ever added |
| Campaign.Loop | save_data/run.py:143-344 | the loop ends as raised only after a fault, and is still running only if no fault came; only the sweep finishes; an interrupted loop had its stop flag set; rows are only ever added |
| Campaign.Fed | save_data/run.py:231-253 | the clock values and samples the loop read, one per pass that led to another, are those of the first passes, in order, and none of them is a fault |
| Campaign.Reductions | save_data/run.py:255-267 | there is one row per non-empty window, each for the target |
| Campaign.WindowsKeepSamples | save_data/run.py:248-271 | cutting the samples into windows loses, duplicates and reorders none of the samples for the target, and every closed window holds at least one |
| Campaign.AbsorbCut | save_data/run.py:242-271 | the line handling of the fixed loop follows the window reference: the rows, bucket and window start move as the reference cut moves on the pass's clock value and sample |
| Campaign.FixedPassCut | save_data/run.py:230-271 | a fixed pass that goes on moves the state as the window reference moves; a pass that ends the loop keeps the rows, bucket and window start |
| Campaign.FixedLoopCut | save_data/run.py:230-271 | over any run of passes, the fixed loop's rows are the earlier rows plus the reductions of the reference's closed windows, with its open window in the bucket |
| Campaign.FixedSessionWindows | save_data/run.py:224-271 | in fixed mode the rows of a run are the averages of consecutive windows of the samples for the clamped `--hz`: the first window opens at the start, each closes at the first such sample `avg_window` or more after it opened, no window is empty, and no sample for the target is lost or counted twice; the open window's samples are in the bucket |
| Campaign.RampTick | save_data/run.py:287-310 | the ramp fires exactly when its time has come and the target is below `ramp_stop`: then a complete window is written, the target advances by the ramp rule and is sent, the bucket empties, and the window and the next ramp time restart from now; otherwise nothing changes |
| Campaign.AbsorbOnTarget | save_data/run.py:245-253 | the bucket only ever holds samples of the current target, and a new row is for that target |
| Campaign.FixedStep | save_data/run.py:224-271 | in fixed mode every pass keeps the target at the clamped `--hz`: every frequency sent and every row is for it |
| Campaign.RampStep | save_data/run.py:273-344 | in ramp mode with a non-negative step, every pass keeps the targets sent and the rows between the clamped start and `ramp_stop`, with row targets never decreasing |
| Campaign.SweepStep | save_data/run.py:144-222 | in the sweep every pass keeps at most one row per target, for targets of the list in increasing order, and sends only targets of the list |
| Campaign.SweepClose | save_data/run.py:203-220 | closing a window adds a row only for a non-empty bucket, for a target above every earlier row's |
| Campaign.LoopInv | save_data/run.py:143-344 | the mode's invariant holds after any run of passes |
| Campaign.Session | save_data/run.py:120-356 | after the startup writes, once the loop has ended in any way, the teardown runs, and while it still runs there is none; a startup write that raises comes before the `try`, so the script ends with only the earlier startup writes sent, the log holding at most its new header, and no teardown at all |
| Campaign.LoopKeepsSent | save_data/run.py:143-344 | the loop only ever adds to the commands sent |
| Campaign.SessionRows | save_data/run.py:198-199 | every row is for the target its samples were taken at: the clamped `--hz` in fixed mode; distinct, increasing sweep targets, at most one row each; for a non-negative ramp step, non-decreasing ramp targets between the clamped start and `ramp_stop` |
| Campaign.SessionSends | save_data/run.py:159 | the frequencies sent are the clamped `--hz` (fixed), values in 0..60 (sweep), or, for a non-negative ramp step, values between the clamped start and `ramp_stop` (ramp) |
| Logger.Start | save_data/save_data.py:107-119 | `RESET`, `RUN` and the clamped first target of the mode are sent; the first status request is due at once; the ramp time is set only in ramp mode |
| Logger.Logged | save_data/save_data.py:146-162 | a line gives a row iff the status grammar matches it, and the row holds that line's values |
| Logger.Tick | save_data/save_data.py:133-138 | in ramp mode, once the ramp time has come, the next ramp time is rescheduled even at `ramp_stop`, and below it the target becomes `min(ramp_stop, target + ramp_step)` and is sent; otherwise nothing changes, and the log never does |
| Logger.PollStatus | save_data/save_data.py:128-131 | `STATUS` is sent exactly when the status time has come, and the next one is then due ten seconds later |
| Logger.StepOf | save_data/save_data.py:125-138 | a pass goes on iff no stop was seen; it sends `STATUS` exactly when due, rescheduling it ten seconds on, then the new target exactly when the ramp rises |
| Logger.Loop | save_data/save_data.py:124-166 | the passes counted never exceed the events, and a loop still running has taken them all |
| Logger.LoopLogs | save_data/save_data.py:146-161 | the rows a run appends are one row per matching status line of the passes that ran, in order, at any frequency, and nothing else |
| Logger.PassLogs | save_data/save_data.py:125-161 | a completed pass appends exactly the row of its line |
| Logger.LoopInv | save_data/save_data.py:124-138 | the targets sent stay in the mode's range after any run of passes |
| Logger.SessionSends | save_data/save_data.py:112-138 | the fixed mode only ever sends the clamped `--hz`; with a non-negative ramp step, the ramp sends values between the clamped start and `ramp_stop` |
| Logger.DurationIgnored | save_data/save_data.py:164-166 | `--duration` changes nothing about a run |
| Logger.Session | save_data/save_data.py:98-178 | the log is the old file (or a new header) followed by one row per matching line; the teardown runs once the loop has ended; a startup write that raises comes before the `try`, so the log gets no rows and there is no teardown, the file left open |
| Search.UnsignedAt | RPM.py:197 | `\d+` matches iff a digit is next, and takes the whole run of digits |
| Search.SignedAt | RPM.py:198 | `-?\d+` matches iff a digit, or `-` then a digit, is next; the `-` is taken iff present; the whole run of digits is taken |
| Search.BitAt | RPM.py:199 | `(0\|1)` matches iff the next character is `0` or `1`, and takes that character |
| Search.NumberAt | test/T2.py:265-266 | `[0-9]+(\.[0-9]+)?` takes the whole digit run, and a fraction exactly when a point and a digit follow |
| Search.SearchFrom | RPM.py:197-200 | the result is the match at the leftmost position at or after the start where the key and a token occur; none iff there is no such position |
| Search.Search | RPM.py:197-200 | `re.search` returns the group of the leftmost match, or nothing iff the key and a token occur nowhere |
| Search.SearchLeftmost | RPM.py:197-200 | the first position where the key and a token match decides the result |
| Search.IntOfText | RPM.py:203-205 | `int()` of a matched integer group gives its value |
| Search.RealOfText | test/T2.py:275-282 | `float()` of a matched number group gives its value |
| Search.AbsentKey | test/T2.py:265-266 | a key absent from the line is never found, e.g. `flow=` in a line that only has `flow1=` |
| SerialPanel.ClampRpm | RPM.py:228-229 | the rpm is put into `[RPM_MIN, RPM_MAX]`, unchanged when already in it |
| SerialPanel.RpmToHz | RPM.py:298-302 | the frequency lies in 0..60 and is `round(rpm / RPM_PER_HZ)` (ties to even) whenever that is in range |
| SerialPanel.RpmToHzMonotone | test/T2.py:382-386 | a faster rpm never asks for a lower frequency |
| SerialPanel.RpmToHzOfHz | RPM.py:298-302 | the rpm of an in-range frequency (`hz * RPM_PER_HZ`) converts back to that frequency |
| SerialPanel.OnLine | RPM.py:191-222 | a serial line sends nothing; a line not starting with `STATUS` changes nothing; the rpm stays in range |
| SerialPanel.OnLineFields | RPM.py:191-222 | per field: `hz` when found; rpm from `rpm=` (RPM.py) or `hz * RPM_PER_HZ`, clamped; `power_on` iff `run=1` and `freq_running` iff `hold=0`, each with its button, and kept when absent; flow and voltage only in test/T2.py and only when found |
| SerialPanel.T2IgnoresRpm | test/T2.py:268-273 | in test/T2.py two status lines that differ only in their `rpm=` field leave the same panel |
| SerialPanel.TogglePower | RPM.py:265-274 | the power follows the button; on sends `RUN` and keeps `hz` and the clamped rpm; off sends `STOP` and zeroes both |
| SerialPanel.OnReset | RPM.py:276-282 | with the power off nothing happens; otherwise `RESET` is sent and `hz` and rpm go to zero |
| SerialPanel.ToggleFreq | RPM.py:284-296 | with the power off the button is unchecked and nothing is sent; otherwise `HOLD_STOP ON`/`OFF` is sent and the frequency runs iff the button is not checked |
| SerialPanel.Adjust | test/T2.py:388-404 | nothing unless powered and running; otherwise `SET_HZ` of the moved rpm is sent, the rpm is the clamped moved rpm, and only test/T2.py stores the frequency |
| SerialPanel.UpThenDown | RPM.py:304-319 | a step down undoes a step up below `RPM_MAX`, and the step up never asks for a lower frequency |
| SerialPanel.HandlersMatchControls | RPM.py:257-262 | reset, hold, up and down each send a command iff `setEnabled_controls` enables their button, so the keys can do no more than the buttons |
| SerialPanel.HandleRpm | RPM.py:322-339 | whatever the input, keys as written included, the rpm stays in `[RPM_MIN, RPM_MAX]` |
| SerialPanel.HandleInv | RPM.py:265-296 | with `Space` acting as a click, every input keeps the rpm in range and the power button equal to the power state |
| SerialPanel.SessionInv | test/T2.py:351-424 | the same for every run of inputs |
| SerialPanel.SessionRpmAsWritten | RPM.py:322-339 | as written, every run of inputs keeps the rpm in range |
| SerialPanel.SpaceThenClickAsWritten | RPM.py:322-325 | as written, `Space` then a click on the power button from the initial state sends only `STOP` and leaves the power off |
| SerialPanel.SpaceThenClick | RPM.py:322-325 | with `Space` acting as a click, the same inputs send `RUN` then `STOP` and end with the power off and its button unchecked |
| LocalPanel.Refresh | main.py:110-116 | the rpm is put into `[0, 6000]`, unchanged when already in it, and nothing else changes |
| LocalPanel.UpdateUi | main.py:118-139 | with the power off the rpm goes to zero; with it on the rpm is only clamped |
| LocalPanel.TogglePower | main.py:151-153 | the power and its button follow the click; switching off zeroes the rpm |
| LocalPanel.OnReset | main.py:155-159 | with the power off nothing changes; otherwise only the rpm goes to zero |
| LocalPanel.ToggleFreq | main.py:161-169 | with the power off only the button is unchecked; otherwise the frequency runs iff the button is not checked |
| LocalPanel.Adjust | main.py:171-181 | nothing unless powered and running; otherwise the rpm moves by the step, clamped |
| LocalPanel.HandleShown | main.py:110-201 | every input keeps the rpm a multiple of 50 in `[0, 6000]`, zero while the power is off |
| LocalPanel.HandleInv | main.py:151-201 | with `Space` acting as a click, every input also keeps the power button equal to the power state |
| LocalPanel.SessionInv | main.py:184-201 | the same for every run of inputs |
| LocalPanel.SessionShownAsWritten | main.py:184-201 | as written, what the panel shows stays consistent over every run of inputs |
| LocalPanel.StepsUp | main.py:171-175 | `k` up steps on a powered, running panel reach `min(6000, rpm + 50k)` |
| LocalPanel.SpaceThenUpAsWritten | main.py:184-187 | as written, `Space` then the up arrow leaves the power off with its button checked and the rpm at 0 |
| LocalPanel.SpaceThenUp | main.py:184-187 | with `Space` acting as a click, the same keys power the panel on and reach rpm 50 |
| LiveChart.Fields | test/chart.py:125-130 | a line is taken only when stripped it has exactly one comma, and the fields are the two sides of it |
| LiveChart.Reading | test/chart.py:121-134 | a reading is taken only when both fields parse as floats, as (volt, flow) |
| LiveChart.Roll | test/chart.py:143-146 | once the counter passes the window, the axis ends at the counter and spans the window; before, it is unchanged |
| LiveChart.Step | test/chart.py:121-148 | a rejected line changes nothing; an accepted one advances the counter and adds (flow, volt) to the voltage chart and (x, flow) to the flow chart |
| LiveChart.AddInv | test/chart.py:136-146 | one reading keeps the two charts in lockstep with the counter and the axes |
| LiveChart.StepInv | test/chart.py:121-148 | every tick keeps the charts consistent |
| LiveChart.RunFeed | test/chart.py:121-148 | a run of ticks adds exactly the readings of its accepted lines, in order |
| LiveChart.FeedData | test/chart.py:136-141 | feeding readings keeps the charts consistent, advances the counter by their number and appends each as a (flow, volt) point |
| LiveChart.RunReadings | test/chart.py:121-148 | from any consistent state a run of lines keeps the charts consistent and appends exactly the accepted readings |
| LiveChart.FlowReading | test/chart.py:316-334 | the comparison tab takes a line only when it has two fields and the second parses, and reads that value |
| LiveChart.CompareAcceptsMore | test/chart.py:316-334 | every line the realtime tab accepts, the comparison tab accepts with the same flow |
| LiveChart.ReadingOfLine | test/chart.py:125-134 | two comma-free float texts joined by a comma are read back as those two values |
| LiveChart.SaveRows | test/chart.py:150-158 | as many rows as the longer series, two cells each, blank exactly past the end of the shorter one |
| LiveChart.SavedSession | test/chart.py:150-158 | a session's saved rows are its accepted readings in order, voltage then flow, with no blanks |
| ChartCsv.MentionsAnyMeans | test/chart.py:270-271 | a name mentions a keyword list iff one of the keywords occurs in it |
| ChartCsv.LowRow | test/chart.py:269 | the names compared are the cells stripped and lowered, one per cell |
| ChartCsv.FindFrom | test/chart.py:280-284 | `find_idx` returns the first column mentioning a keyword, and none iff no column does |
| ChartCsv.FirstHeader | test/chart.py:266-273 | the header search returns the first of the first ten rows naming both a flow and a voltage column, and none iff no such row exists |
| ChartCsv.HeaderIndex | test/chart.py:266-275 | the header row is that first header row, else row 2 when there are more than two rows, else row 0 |
| ChartCsv.PyOr | test/chart.py:286-287 | `x or d` keeps a found column other than 0 and gives `d` for none or 0 |
| ChartCsv.ChooseColumns | test/chart.py:280-287 | each found column mentions its keywords; without one, flow defaults to 0 and voltage to 1 |
| ChartCsv.AsWrittenDiffers | test/chart.py:286-287 | the code as written picks the same flow column, and differs on the voltage column iff that column is 0 |
| ChartCsv.RowPoint | test/chart.py:290-297 | a row gives a point iff it is long enough and both chosen cells parse (commas read as points), and the point holds those values |
| ChartCsv.PointsFromRows | test/chart.py:289-297 | every plotted point comes from a data row, and every row that gives a point is plotted |
| ChartCsv.PointsAppend | test/chart.py:289-297 | the points of consecutive rows are the points of each part, in order |
| ChartCsv.SeqMin | test/chart.py:304-305 | `min` is an element no larger than any other |
| ChartCsv.SeqMax | test/chart.py:304-305 | `max` is an element no smaller than any other |
| ChartCsv.Widen | test/chart.py:303-308 | the axis is non-degenerate and contains every value; its ends are the extremes when the values differ, and `±pad` around the value when all are equal |
| ChartCsv.Draw | test/chart.py:299-311 | the points are drawn; axes are set iff there are points and contain them; the title step fails iff there are points and a chosen column is missing from the header |
| ChartCsv.LoadCsv | test/chart.py:248-314 | a missing file and an empty file draw nothing; otherwise the points are those of the rows after the header row, for the columns its names give |
| ChartCsv.SavedHeaderColumns | test/chart.py:286-287 | for the header `save_csv` writes, the code as written picks column 1 for both axes, while the intended choice is flow 1 and voltage 0 |
| ChartCsv.SavedHeaderFirst | test/chart.py:266-273 | the saved header is found as the header of the file it starts |
| ChartCsv.LoadSaved | test/chart.py:248-297 | loading the file `save_csv` writes for one reading plots flow against flow as written, and flow against voltage as intended |
| ChartCsv.LoadSavedAsWritten | test/chart.py:287 | the saved reading (3 V, 20 g/s) is plotted as written at (20, 20) |
| ChartCsv.LoadSavedCorrected | test/chart.py:287 | with the intended column choice it is plotted at (20, 3) |

## Left out

- Threads, queues, the serial port itself, timers and sleeps are not modelled. The reader is a step function over what `read(1)` returns, the loops are step functions over their passes, and clock values are parameters.
- The Qt widgets are not modelled: labels, colours, styles, message boxes, the log pane and focus handling. A key press is an input only when it reaches the panel's `keyPressEvent`; a focused button takes `Space` as its own click first. Only the state the handlers keep and the commands they send are modelled.
- Serial port discovery, opening and closing, `closeEvent`, the command-line parsing and the printed messages are not modelled. Argument values enter through `Config`.
- test/T1.py is not part of this model.
- The `if not self.serial` guard of the chart window is not modelled; a connected port is assumed.
- The chart window's serial read is not modelled. Each tick gets the already decoded and stripped line as a parameter.
- CSV text is not modelled. Files are sequences of records or rows of cells, and the dialect sniffing of the loader is left out. Whether the file exists is a boolean.
- Text.IsDigit: `\d` is read as the ASCII digits. In a Python 3 `str` pattern `\d` matches every Unicode decimal digit (category Nd), and `int()` and `float()` read those digits, so a status line written with, say, full-width digits matches `STATUS_RE` and the panels' searches but is rejected by `StatusLine` and `Search`.
- Numbers.ParseFloat: accepts finite decimal literals with an optional exponent only. `inf`, `nan` and underscores are rejected although Python's `float()` accepts them.
- Text.Lower: folds only ASCII letters. Python's `str.lower()` also folds other scripts, so a non-ASCII capital in a CSV header is compared unfolded.
- Averaging.Mean: is the exact mean over the reals; float rounding of `statistics.mean` and of the products is not modelled.
- Float text formatting is not modelled: the printed messages, and the text of a float written to CSV.
- `last_run` and `last_hold` in save_data/run.py are assigned but never read, so they are left out. `flow2` is averaged but never written, so the model does not average it.
- Campaign.Absorb: in fixed and ramp mode a full window is written on the first matching sample at or after the window's end. The window is measured from the clock value of that pass, as in the code.
- The pauses after `RESET`, between `SET_HZ 0` and `STOP`, and before a sweep window are left out. No command depends on them.

## Findings

| source | as written | input that shows it | evidently intended | confidence | as-written member | corrected member |
|---|---|---|---|---|---|---|
| RPM.py:322-325 | `Space` calls `btn_power.toggle()`. That flips the checked state without emitting `clicked`, the only signal wired to `on_toggle_power` (RPM.py:91), so no command is sent and the button no longer shows the power state | With the keyboard focus on no widget that takes `Space` itself (Qt gives the first focus to `btn_power`, and a focused button takes `Space` as its own click), from the initial state press `Space`, then click the power button: the click unchecks the button and sends `STOP`, and the power stays off | `Space` acts as a click on the power button, as its tooltip says ("Phím cách"): `RUN`, then `STOP` | not executed; medium: `toggle()` emits no `clicked`, but the key reaches the handler only when no focused widget takes `Space` | SerialPanel.SpaceThenClickAsWritten | SerialPanel.SpaceThenClick |
| test/T2.py:407-410 | The same `btn_power.toggle()` on `Space`, with the power button wired through `clicked` (test/T2.py:164) | The same inputs and focus condition, with the test/T2.py variant | The same | not executed; medium, under the same focus condition | SerialPanel.SpaceThenClickAsWritten | SerialPanel.SessionInv |
| main.py:184-187 | The same `btn_power.toggle()` on `Space` (main.py:44) | With the keyboard focus on no widget that takes `Space` itself, from the initial state press `Space`, then the up arrow: the button shows on but the power is off, and the rpm stays 0 | `Space` switches the power on; the up arrow then raises the rpm to 50 | not executed; medium, under the same focus condition | LocalPanel.SpaceThenUpAsWritten | LocalPanel.SpaceThenUp |
| test/chart.py:287 | `find_idx(volt_keys) or 1` treats a voltage column found at index 0 as not found, because Python's `0` is falsy | The file `save_csv` writes (header `Voltage(V),Flow(g/s)`, test/chart.py:155) with the row `3.0,20.0` that it writes for voltage 3.0 and flow 20.0: both columns become 1 and the point plotted is (20, 20) | The found column is kept, even when it is 0; the point is (20, 3) | not executed; high | ChartCsv.LoadSavedAsWritten | ChartCsv.LoadSavedCorrected |
