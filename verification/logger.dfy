/** The main loop of save_data/save_data.py: it sets a fixed or ramped
    frequency, requests `STATUS` every ten seconds, and appends one log row
    for every status line it takes from the queue, whatever frequency the line
    reports.

    As in the model of save_data/run.py, each pass reads the clock once, may
    find a stop signal, and takes at most one line from the queue; an
    exception escaping the loop is a `Fault` event. */
module Logger {
  import opened Wrappers
  import opened StatusLine
  import opened Commands
  import opened Targets
  import opened Shutdown
  import opened Classify
  import opened Persist

  datatype Mode = Fixed | Ramp

  /** The command-line arguments the loop uses. `duration` is parsed but the
      deadline test is commented out in the loop. */
  datatype Config = Config(
    mode: Mode, hz: int,
    rampStart: int, rampStop: int, rampStep: int, rampInterval: real,
    duration: real)

  datatype Event = Pass(now: real, signal: bool, line: Option<string>) | Fault

  const LogHeader: seq<string> := ["hz", "rpm", "flow1", "volt1", "flow2", "volt2"]

  /** The status period, in seconds. */
  const StatusEvery: real := 10.0

  /** The ramp time of the fixed mode: `now + 1e9`, never reached in practice
      and never looked at, since the ramp test asks for the ramp mode first. */
  const NoRamp: real := 1000000000.0

  /** A log row: the raw values of one status line. */
  datatype LogRow = LogRow(hz: int, rpm: real, flow1: real, volt1: real, flow2: real, volt2: real)

  function RowOf(t: Telemetry): LogRow {
    LogRow(t.hz, t.rpm, t.flow1, t.volt1, t.flow2, t.volt2)
  }

  datatype State = State(
    stop: bool, target: int, nextStatus: real, nextRamp: real,
    rows: seq<LogRow>, sent: seq<Command>)

  datatype Step = Next(s: State) | Done(s: State, exit: Exit)

  /** `RESET`, `RUN` and the clamped first target; the first status request is
      due at once. */
  function Start(cfg: Config, start: real): (st: State)
    ensures st.target == ClampHz(if cfg.mode == Fixed then cfg.hz else cfg.rampStart)
    ensures st.sent == [Reset, Run, SetHz(st.target)]
    ensures st.rows == [] && !st.stop && st.nextStatus == start
    ensures st.nextRamp == start + (if cfg.mode == Ramp then cfg.rampInterval else NoRamp)
  {
    var t := if cfg.mode == Fixed then ClampHz(cfg.hz) else ClampHz(cfg.rampStart);
    State(false, t, start, start + (if cfg.mode == Ramp then cfg.rampInterval else NoRamp), [], [Reset, Run, SetHz(t)])
  }

  /** The row a line taken from the queue gives: none for a timeout or an
      empty line, a reader error or an acknowledgement; otherwise the values
      of the status line when the status grammar matches it. */
  function Logged(line: Option<string>): (r: Option<LogRow>)
    ensures r.Some? <==> line.Some? && Match(line.value).Some?
    ensures r.Some? ==> r.value == RowOf(Match(line.value).value)
  {
    if line.None? || line.value == [] then None
    else
      ClassifyAgreesWithMatch(line.value);
      match Classify.Classify(line.value)
      case Reading(t) => Some(RowOf(t))
      case _ => None
  }

  /** The ramp test: in the ramp mode, once the ramp time has come, the target
      advances and is sent while it is below `ramp_stop`, and the next ramp
      time is scheduled either way. */
  function Tick(cfg: Config, st: State, now: real): (r: State)
    ensures r.rows == st.rows
    ensures !(cfg.mode == Ramp && now >= st.nextRamp) ==> r == st
    ensures cfg.mode == Ramp && now >= st.nextRamp ==>
      r == st.(target := r.target, sent := r.sent, nextRamp := now + cfg.rampInterval)
    ensures cfg.mode == Ramp && now >= st.nextRamp && st.target < cfg.rampStop ==>
      r.target == Min(cfg.rampStop, st.target + cfg.rampStep) && r.sent == st.sent + [SetHz(r.target)]
    ensures st.target >= cfg.rampStop ==> r.target == st.target && r.sent == st.sent
  {
    if cfg.mode == Ramp && now >= st.nextRamp then
      var s1 := if st.target < cfg.rampStop
        then
          var t := RampAdvance(st.target, cfg.rampStop, cfg.rampStep);
          st.(target := t, sent := st.sent + [SetHz(t)])
        else st;
      s1.(nextRamp := now + cfg.rampInterval)
    else st
  }

  function OptionRow(r: Option<LogRow>): seq<LogRow> {
    if r.Some? then [r.value] else []
  }

  /** `STATUS` is requested once the status time has come, and the next one
      scheduled ten seconds later. */
  function PollStatus(st: State, now: real): (r: State)
    ensures r == st.(sent := r.sent, nextStatus := r.nextStatus)
    ensures r.sent == st.sent + [Status] <==> now >= st.nextStatus
    ensures now >= st.nextStatus ==> r.nextStatus == now + StatusEvery
    ensures now < st.nextStatus ==> r == st
  {
    if now >= st.nextStatus then st.(sent := st.sent + [Status], nextStatus := now + StatusEvery) else st
  }

  /** The ramp test fires a send: ramp mode, the ramp time come, and the
      target below `ramp_stop`. */
  predicate RampSends(cfg: Config, st: State, now: real) {
    cfg.mode == Ramp && now >= st.nextRamp && st.target < cfg.rampStop
  }

  /** One pass of the loop: the stop test of the `while`, the status request,
      the ramp test, and the line. A pass that goes on sends `STATUS` exactly
      when the status time has come, then the new target when the ramp
      rises. */
  function StepOf(cfg: Config, st: State, ev: Event): (r: Step)
    ensures r.Next? <==> ev.Pass? && !st.stop && !ev.signal
    ensures r.Next? && ev.now >= st.nextStatus ==>
      r.s.nextStatus == ev.now + StatusEvery &&
      r.s.sent == st.sent + [Status] + (if RampSends(cfg, st, ev.now) then [SetHz(r.s.target)] else [])
    ensures r.Next? && ev.now < st.nextStatus ==>
      r.s.nextStatus == st.nextStatus &&
      r.s.sent == st.sent + (if RampSends(cfg, st, ev.now) then [SetHz(r.s.target)] else [])
  {
    match ev
    case Fault => Done(st, Raised)
    case Pass(now, signal, line) =>
      var s := st.(stop := st.stop || signal);
      if s.stop then Done(s, Interrupted)
      else
        var s1 := PollStatus(s, now);
        var s2 := Tick(cfg, s1, now);
        Next(s2.(rows := s2.rows + OptionRow(Logged(line))))
  }

  /** The loop over a finite run of passes: the final state, how the loop
      ended (`None` while it is still running), and how many passes ran to
      completion. */
  function Loop(cfg: Config, st: State, events: seq<Event>): (r: (State, Option<Exit>, nat))
    ensures r.2 <= |events|
    ensures r.1.None? ==> r.2 == |events|
    decreases |events|
  {
    if events == [] then (st, None, 0)
    else
      match StepOf(cfg, st, events[0])
      case Next(s) =>
        var r := Loop(cfg, s, events[1..]);
        (r.0, r.1, r.2 + 1)
      case Done(s, e) => (s, Some(e), 0)
  }

  /** The lines of a run of passes, a fault counting as no line. */
  function Lines(events: seq<Event>): (ls: seq<Option<string>>)
    ensures |ls| == |events|
  {
    seq(|events|, i requires 0 <= i < |events| => if events[i].Pass? then events[i].line else None)
  }

  /** The reference log of one line: its row when the status grammar
      matches it. */
  function LineRows(l: Option<string>): seq<LogRow> {
    if l.Some? && Match(l.value).Some? then [RowOf(Match(l.value).value)] else []
  }

  /** The reference log: one row for each line the status grammar matches, in
      order. */
  function LoggedRows(lines: seq<Option<string>>): seq<LogRow>
    decreases |lines|
  {
    if lines == [] then [] else LineRows(lines[0]) + LoggedRows(lines[1..])
  }

  /** The rows a run appends are the reference log of the lines of the passes
      that ran: every status line is logged, for any frequency, and nothing
      else is. */
  lemma {:induction false} LoopLogs(cfg: Config, st: State, events: seq<Event>)
    ensures var (s, _, n) := Loop(cfg, st, events);
      s.rows == st.rows + LoggedRows(Lines(events[..n]))
    decreases |events|
  {
    if events == [] {
      assert Lines(events[..0]) == [];
    } else if StepOf(cfg, st, events[0]).Next? {
      var s := StepOf(cfg, st, events[0]).s;
      LoopLogs(cfg, s, events[1..]);
      var r := Loop(cfg, s, events[1..]);
      var n := r.2;
      assert Loop(cfg, st, events) == (r.0, r.1, n + 1);
      PassLogs(cfg, st, events[0]);
      LinesCons(events, n);
      var l, more := events[0].line, Lines(events[1..][..n]);
      LoggedRowsCons(l, more);
      assert r.0.rows == (st.rows + LineRows(l)) + LoggedRows(more);
      RowsAssoc(st.rows, LineRows(l), LoggedRows(more));
    } else {
      assert Lines(events[..0]) == [];
    }
  }

  lemma RowsAssoc(a: seq<LogRow>, b: seq<LogRow>, c: seq<LogRow>)
    ensures (a + b) + c == a + (b + c)
  {
  }

  lemma LoggedRowsCons(l: Option<string>, ls: seq<Option<string>>)
    ensures LoggedRows([l] + ls) == LineRows(l) + LoggedRows(ls)
  {
    assert ([l] + ls)[1..] == ls;
  }

  /** A pass that completes appends the row of its line. */
  lemma PassLogs(cfg: Config, st: State, ev: Event)
    requires StepOf(cfg, st, ev).Next?
    ensures ev.Pass?
    ensures StepOf(cfg, st, ev).s.rows == st.rows + LineRows(ev.line)
  {
    var s := st.(stop := false);
    var s1 := PollStatus(s, ev.now);
    var s2 := Tick(cfg, s1, ev.now);
    assert StepOf(cfg, st, ev) == Next(s2.(rows := s2.rows + OptionRow(Logged(ev.line))));
    LoggedLine(ev.line);
  }

  /** What `Logged` reads is the reference log of the line. */
  lemma LoggedLine(l: Option<string>)
    ensures OptionRow(Logged(l)) == LineRows(l)
  {
  }

  lemma LinesCons(events: seq<Event>, n: nat)
    requires |events| > 0 && events[0].Pass? && n <= |events| - 1
    ensures Lines(events[..n + 1]) == [events[0].line] + Lines(events[1..][..n])
  {
  }

  // ---------------------------------------------------------------------
  // The targets set.

  /** Every frequency the loop has set satisfies `ok`. */
  ghost predicate SetsAll(sent: seq<Command>, ok: int -> bool) {
    forall i :: 0 <= i < |sent| && sent[i].SetHz? ==> ok(sent[i].hz)
  }

  ghost predicate Inv(cfg: Config, st: State) {
    var lo := if cfg.mode == Fixed then ClampHz(cfg.hz) else ClampHz(cfg.rampStart);
    var hi := if cfg.mode == Fixed then lo else Max(lo, cfg.rampStop);
    && lo <= st.target <= hi
    && SetsAll(st.sent, h => lo <= h <= hi)
  }

  lemma StepInv(cfg: Config, st: State, ev: Event)
    requires cfg.rampStep >= 0 && Inv(cfg, st)
    ensures Inv(cfg, StepOf(cfg, st, ev).s)
  {
    if ev.Pass? && !(st.stop || ev.signal) {
      var s := st.(stop := false);
      var s1 := PollStatus(s, ev.now);
      if s1.sent != s.sent {
        assert s1.sent[|s.sent|] == Status;
      }
      assert Inv(cfg, s1);
      TickInv(cfg, s1, ev.now);
    }
  }

  lemma TickInv(cfg: Config, st: State, now: real)
    requires cfg.rampStep >= 0 && Inv(cfg, st)
    ensures Inv(cfg, Tick(cfg, st, now))
  {
  }

  lemma {:induction false} LoopInv(cfg: Config, st: State, events: seq<Event>)
    requires cfg.rampStep >= 0 && Inv(cfg, st)
    ensures Inv(cfg, Loop(cfg, st, events).0)
    decreases |events|
  {
    if events != [] {
      StepInv(cfg, st, events[0]);
      if StepOf(cfg, st, events[0]).Next? {
        LoopInv(cfg, StepOf(cfg, st, events[0]).s, events[1..]);
      }
    }
  }

  /** In fixed mode only the clamped `--hz` is ever set; in ramp mode with a
      non-negative step the frequencies set lie between the clamped start and
      the larger of it and `ramp_stop`. */
  lemma SessionSends(cfg: Config, start: real, events: seq<Event>)
    requires cfg.rampStep >= 0
    ensures var sent := Loop(cfg, Start(cfg, start), events).0.sent;
      && (cfg.mode == Fixed ==> forall i :: 0 <= i < |sent| && sent[i].SetHz? ==> sent[i].hz == ClampHz(cfg.hz))
      && (cfg.mode == Ramp ==> forall i :: 0 <= i < |sent| && sent[i].SetHz? ==>
            ClampHz(cfg.rampStart) <= sent[i].hz <= Max(ClampHz(cfg.rampStart), cfg.rampStop))
  {
    LoopInv(cfg, Start(cfg, start), events);
  }

  /** The `--duration` argument changes nothing: the loop runs until it is
      stopped. */
  lemma {:induction false} DurationIgnored(cfg: Config, st: State, events: seq<Event>, d: real)
    ensures Loop(cfg, st, events) == Loop(cfg.(duration := d), st, events)
    decreases |events|
  {
    if events != [] {
      var cfg' := cfg.(duration := d);
      var step := StepOf(cfg, st, events[0]);
      assert StepOf(cfg', st, events[0]) == step by {
        StepIgnoresDuration(cfg, st, events[0], d);
      }
      if step.Next? {
        var r := Loop(cfg, step.s, events[1..]);
        assert Loop(cfg', step.s, events[1..]) == r by {
          DurationIgnored(cfg, step.s, events[1..], d);
        }
        assert Loop(cfg, st, events) == (r.0, r.1, r.2 + 1) by {
          LoopNext(cfg, st, events);
        }
        assert Loop(cfg', st, events) == (r.0, r.1, r.2 + 1) by {
          LoopNext(cfg', st, events);
        }
      }
    }
  }

  /** A pass that lets the loop go on adds one to the count of the passes after it. */
  lemma LoopNext(cfg: Config, st: State, events: seq<Event>)
    requires events != [] && StepOf(cfg, st, events[0]).Next?
    ensures var r := Loop(cfg, StepOf(cfg, st, events[0]).s, events[1..]);
      Loop(cfg, st, events) == (r.0, r.1, r.2 + 1)
  {
    match StepOf(cfg, st, events[0])
    case Next(s) =>
  }

  /** One pass does not look at the duration. */
  lemma StepIgnoresDuration(cfg: Config, st: State, ev: Event, d: real)
    ensures StepOf(cfg, st, ev) == StepOf(cfg.(duration := d), st, ev)
  {
    if ev.Pass? {
      var s := st.(stop := st.stop || ev.signal);
      var s1 := PollStatus(s, ev.now);
      assert Tick(cfg, s1, ev.now) == Tick(cfg.(duration := d), s1, ev.now);
    }
  }

  /** The log a whole run leaves behind: the header only in a new file, then
      the reference log of the lines of the passes that ran; and the teardown
      once the loop has ended. `startRaised` says that one of the startup
      writes (`RESET`, `RUN`, the first `SET_HZ`) raised: they come before
      the `try`, so the exception leaves the script with no graceful stop, the
      reader running, and the port and the log file open. */
  function Session(cfg: Config, start: real, file: Option<seq<Record<LogRow>>>, startRaised: bool, events: seq<Event>, setHzSent: bool): (out: (seq<Record<LogRow>>, seq<Action>))
    ensures startRaised ==> out.0 == Persist.Session(file, LogHeader, []) && out.1 == []
    ensures !startRaised ==> var n := Loop(cfg, Start(cfg, start), events).2;
      out.0 == Persist.Session(file, LogHeader, LoggedRows(Lines(events[..n])))
    ensures !startRaised && Loop(cfg, Start(cfg, start), events).1.Some? ==> out.1 == Teardown(setHzSent)
  {
    if startRaised then (Persist.Session(file, LogHeader, []), [])
    else
      var st0 := Start(cfg, start);
      var r := Loop(cfg, st0, events);
      assert r.0.rows == LoggedRows(Lines(events[..r.2])) by {
        LoopLogs(cfg, st0, events);
        assert st0.rows == [];
        assert [] + LoggedRows(Lines(events[..r.2])) == LoggedRows(Lines(events[..r.2]));
      }
      (Persist.Session(file, LogHeader, r.0.rows), if r.1.Some? then Teardown(setHzSent) else [])
  }
}
