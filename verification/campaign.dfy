/** The main loop of save_data/run.py in its three modes, as a step function
    over the passes the loop makes.

    Each pass reads the clock once (`now`), may find that a stop signal has
    arrived since the previous pass (the handler only sets a flag), and takes
    at most one line from the reader's queue (`None` when the 0.1 s wait
    timed out). An exception escaping the loop (a failed write, say) is a
    `Fault` event. The pauses the script makes are not part of the model. */
module Campaign {
  import opened Wrappers
  import opened StatusLine
  import opened Commands
  import opened Targets
  import opened Averaging
  import opened Shutdown
  import opened Classify
  import opened Persist

  datatype Mode = Fixed | Ramp | Sweep

  /** The command-line arguments the loop uses. */
  datatype Config = Config(
    mode: Mode, hz: int,
    rampStart: int, rampStop: int, rampStep: int, rampInterval: real,
    sweepStart: int, sweepStop: int, sweepStep: int,
    duration: real, sampleRate: int, avgWindow: real)

  datatype Event = Pass(now: real, signal: bool, line: Option<string>) | Fault

  /** The header row of the run log. */
  const RunHeader: seq<string> := ["hz", "rpm", "flowABB", "voltABB", "voltMaf", "analog"]

  /** `1.0 / float(max(1, sample_rate))`. */
  function StatusPeriod(rate: int): (p: real)
    ensures 0.0 < p <= 1.0
  {
    1.0 / Max(1, rate) as real
  }

  /** `t_end`: the deadline, only when a positive duration was given. */
  function EndTime(duration: real, start: real): Option<real> {
    if duration > 0.0 then Some(start + duration) else None
  }

  /** `t_end and now >= t_end`: a deadline of `0.0` is falsy and never fires. */
  predicate PastEnd(tEnd: Option<real>, now: real) {
    tEnd.Some? && tEnd.value != 0.0 && now >= tEnd.value
  }

  function SweepList(cfg: Config): seq<int> {
    SweepTargets(cfg.sweepStart, cfg.sweepStop, cfg.sweepStep)
  }

  /** The loop's variables. `index` and `inWindow` are the sweep's position:
      the next entry of the target list, and whether the averaging loop for
      it is running. */
  datatype State = State(
    stop: bool, target: int, bucket: seq<Telemetry>, t0: real,
    nextStatus: real, nextRamp: real, index: nat, inWindow: bool,
    rows: seq<Row>, sent: seq<Command>)

  datatype Step = Next(s: State) | Done(s: State, exit: Exit)

  /** The writes made before the `try`. */
  const StartWrites: seq<Command> := [Reset, Run]

  /** The state when the loop starts: `RESET` and `RUN` sent, and for the fixed
      and ramp modes the clamped first target set. */
  function Start(cfg: Config, start: real): (st: State)
    ensures |st.sent| >= 2 && st.sent[..2] == [Reset, Run] && st.rows == [] && st.bucket == [] && !st.stop
    ensures cfg.mode == Fixed ==> st.target == ClampHz(cfg.hz) && st.sent == [Reset, Run, SetHz(st.target)]
    ensures cfg.mode == Ramp ==> st.target == ClampHz(cfg.rampStart) && st.sent == [Reset, Run, SetHz(st.target)]
    ensures cfg.mode == Sweep ==> st.sent == [Reset, Run] && st.index == 0 && !st.inWindow
  {
    var prelude := StartWrites;
    match cfg.mode
    case Sweep => State(false, 0, [], start, start, start, 0, false, [], prelude)
    case Fixed =>
      var t := ClampHz(cfg.hz);
      State(false, t, [], start, start, start, 0, false, [], prelude + [SetHz(t)])
    case Ramp =>
      var t := ClampHz(cfg.rampStart);
      State(false, t, [], start, start, start + cfg.rampInterval, 0, false, [], prelude + [SetHz(t)])
  }

  /** `STATUS` is requested once the status time has come, and the next one
      scheduled a period later. */
  function PollStatus(st: State, now: real, period: real): (r: State)
    ensures r == st.(sent := r.sent, nextStatus := r.nextStatus)
    ensures r.sent == st.sent || r.sent == st.sent + [Status]
    ensures r.sent == st.sent + [Status] <==> now >= st.nextStatus
    ensures now >= st.nextStatus ==> r.nextStatus == now + period
    ensures now < st.nextStatus ==> r == st
  {
    if now >= st.nextStatus then st.(sent := st.sent + [Status], nextStatus := now + period)
    else st
  }

  /** The row of a non-empty bucket is written; the bucket is emptied and the
      window restarted. */
  function Flush(st: State, now: real, p: Precision): (r: State)
    requires |st.bucket| > 0
    ensures |r.rows| == |st.rows| + 1 && r.rows[..|st.rows|] == st.rows
    ensures r.rows[|st.rows|] == Reduce(st.target, st.bucket, p).value && r.rows[|st.rows|].hz == st.target
    ensures r == st.(rows := r.rows, bucket := [], t0 := now)
  {
    st.(rows := st.rows + [Reduce(st.target, st.bucket, p).value], bucket := [], t0 := now)
  }

  /** The telemetry a line of the fixed and ramp loops carries: the status
      grammar is tried on every line taken from the queue. */
  function Sample(line: Option<string>): Option<Telemetry> {
    if line.None? then None else Match(line.value)
  }

  /** The line handling of the fixed and ramp loops: a sample for the current
      target joins the bucket, and a complete window is written. */
  function Absorb(cfg: Config, st: State, now: real, sample: Option<Telemetry>): (r: State)
    ensures r.target == st.target && r.sent == st.sent && r.stop == st.stop
    ensures r.bucket != st.bucket ==> sample.Some? && sample.value.hz == st.target
    ensures r.rows == st.rows ||
      (sample.Some? && r.rows == st.rows + [Reduce(st.target, st.bucket + [sample.value], WindowPrecision).value] && r.bucket == [])
    ensures sample.None? || sample.value.hz != st.target ==> r == st
    ensures sample.Some? && sample.value.hz == st.target && now - st.t0 < cfg.avgWindow ==>
      r == st.(bucket := st.bucket + [sample.value])
    ensures sample.Some? && sample.value.hz == st.target && now - st.t0 >= cfg.avgWindow ==>
      r == st.(rows := st.rows + [Reduce(st.target, st.bucket + [sample.value], WindowPrecision).value], bucket := [], t0 := now)
  {
    match sample
    case None => st
    case Some(t) =>
      if t.hz != st.target then st
      else
        var s1 := st.(bucket := st.bucket + [t]);
        if now - s1.t0 >= cfg.avgWindow then Flush(s1, now, WindowPrecision) else s1
  }

  /** The ramp test fires once the ramp time has come while the target is
      below `ramp_stop`. */
  predicate RampDue(cfg: Config, st: State, now: real) {
    now >= st.nextRamp && st.target < cfg.rampStop
  }

  /** The ramp's advance: when the ramp test fires, a complete window is
      written, the target advances and is sent, and the window and the ramp
      time restart; otherwise nothing changes. */
  function RampTick(cfg: Config, st: State, now: real): (r: State)
    ensures r.target == RampAdvance(st.target, cfg.rampStop, cfg.rampStep) || r.target == st.target
    ensures r.target != st.target ==> r.bucket == [] && r.sent == st.sent + [SetHz(r.target)]
    ensures !RampDue(cfg, st, now) ==> r == st
    ensures RampDue(cfg, st, now) ==>
      && r.target == RampAdvance(st.target, cfg.rampStop, cfg.rampStep)
      && r.sent == st.sent + [SetHz(r.target)]
      && r.bucket == [] && r.t0 == now && r.nextRamp == now + cfg.rampInterval
    ensures RampDue(cfg, st, now) ==>
      r == st.(target := r.target, sent := r.sent, bucket := [], t0 := now, nextRamp := r.nextRamp, rows := r.rows)
    ensures RampDue(cfg, st, now) && now - st.t0 >= cfg.avgWindow && st.bucket != [] ==>
      r.rows == st.rows + [Reduce(st.target, st.bucket, WindowPrecision).value]
    ensures RampDue(cfg, st, now) && (now - st.t0 < cfg.avgWindow || st.bucket == []) ==> r.rows == st.rows
  {
    if RampDue(cfg, st, now) then
      var s1 := if now - st.t0 >= cfg.avgWindow && st.bucket != [] then Flush(st, now, WindowPrecision) else st;
      var t := RampAdvance(st.target, cfg.rampStop, cfg.rampStep);
      s1.(target := t, sent := s1.sent + [SetHz(t)], bucket := [], t0 := now, nextRamp := now + cfg.rampInterval)
    else st
  }

  /** The telemetry a line of the sweep carries: reader errors and
      acknowledgements are skipped before the status grammar is tried. */
  function SweepSample(line: Option<string>): Option<Telemetry> {
    if line.None? then None
    else match Classify.Classify(line.value)
      case Reading(t) => Some(t)
      case _ => None
  }

  /** The line handling of the sweep: a sample for the current target joins
      the bucket. */
  function Collect(st: State, sample: Option<Telemetry>): (r: State)
    ensures sample.Some? && sample.value.hz == st.target ==> r == st.(bucket := st.bucket + [sample.value])
    ensures sample.None? || sample.value.hz != st.target ==> r == st
  {
    if sample.Some? && sample.value.hz == st.target then st.(bucket := st.bucket + [sample.value]) else st
  }

  /** The head of the sweep's `for` loop: the list used up, the stop flag
      and the deadline end the sweep; otherwise the next target is set and its
      window opened, with the status due at once. */
  function OpenWindow(cfg: Config, tEnd: Option<real>, st: State, now: real): (r: Step)
    ensures r.s.stop == st.stop && st.sent <= r.s.sent && r.s.rows == st.rows
    ensures st.index >= |SweepList(cfg)| ==> r == Done(st, Finished)
    ensures st.index < |SweepList(cfg)| && st.stop ==> r == Done(st, Interrupted)
    ensures st.index < |SweepList(cfg)| && !st.stop && PastEnd(tEnd, now) ==> r == Done(st, Deadline)
    ensures st.index < |SweepList(cfg)| && !st.stop && !PastEnd(tEnd, now) ==>
      var t := SweepList(cfg)[st.index];
      r == Next(st.(target := t, sent := st.sent + [SetHz(t)], bucket := [], t0 := now, nextStatus := now, inWindow := true))
  {
    var ts := SweepList(cfg);
    if st.index >= |ts| then Done(st, Finished)
    else if st.stop then Done(st, Interrupted)
    else if PastEnd(tEnd, now) then Done(st, Deadline)
    else
      var t := ts[st.index];
      Next(st.(target := t, sent := st.sent + [SetHz(t)], bucket := [], t0 := now, nextStatus := now, inWindow := true))
  }

  /** The end of a sweep window: a row for a non-empty bucket only, and the
      move to the next target, which ends the sweep after the last one. */
  function CloseWindow(cfg: Config, st: State): (r: Step)
    ensures r.s == st.(rows := r.s.rows, index := st.index + 1, inWindow := false)
    ensures r.Done? <==> st.index + 1 >= |SweepList(cfg)|
    ensures r.Done? ==> r.exit == Finished
    ensures |r.s.rows| == |st.rows| + 1 <==> st.bucket != []
    ensures st.bucket != [] ==> r.s.rows == st.rows + [Reduce(st.target, st.bucket, SweepPrecision).value]
    ensures st.bucket == [] ==> r.s.rows == st.rows
  {
    var rows := if st.bucket == [] then st.rows else st.rows + [Reduce(st.target, st.bucket, SweepPrecision).value];
    var s1 := st.(rows := rows, index := st.index + 1, inWindow := false);
    if s1.index >= |SweepList(cfg)| then Done(s1, Finished) else Next(s1)
  }

  /** One pass of the sweep: at the head of the `for` loop, the stop flag and
      the deadline are checked and the next target set; inside the averaging
      loop, a finished window (or the stop flag) ends it with its row, and
      otherwise the status is polled and the sample of the line collected. */
  function SweepPass(cfg: Config, tEnd: Option<real>, st: State, now: real, sample: Option<Telemetry>): (r: Step)
    ensures r.s.stop == st.stop && st.sent <= r.s.sent && st.rows <= r.s.rows
    ensures !st.inWindow ==> r == OpenWindow(cfg, tEnd, st, now)
    ensures st.inWindow && (now - st.t0 >= cfg.avgWindow || st.stop) ==> r == CloseWindow(cfg, st)
    ensures st.inWindow && !(now - st.t0 >= cfg.avgWindow || st.stop) ==>
      r == Next(Collect(PollStatus(st, now, StatusPeriod(cfg.sampleRate)), sample))
  {
    if !st.inWindow then OpenWindow(cfg, tEnd, st, now)
    else if now - st.t0 >= cfg.avgWindow || st.stop then CloseWindow(cfg, st)
    else Next(Collect(PollStatus(st, now, StatusPeriod(cfg.sampleRate)), sample))
  }

  /** One pass of the fixed or ramp loop. */
  function WindowPass(cfg: Config, tEnd: Option<real>, st: State, now: real, sample: Option<Telemetry>): (r: Step)
    ensures st.stop ==> r == Done(st, Interrupted)
    ensures !st.stop && PastEnd(tEnd, now) ==> r == Done(st, Deadline)
    ensures !st.stop && !PastEnd(tEnd, now) ==>
      var polled := PollStatus(st, now, StatusPeriod(cfg.sampleRate));
      r == Next(Absorb(cfg, if cfg.mode == Ramp then RampTick(cfg, polled, now) else polled, now, sample))
    ensures r.s.stop == st.stop && st.sent <= r.s.sent && st.rows <= r.s.rows
  {
    if st.stop then Done(st, Interrupted)
    else if PastEnd(tEnd, now) then Done(st, Deadline)
    else
      var s1 := PollStatus(st, now, StatusPeriod(cfg.sampleRate));
      var s2 := if cfg.mode == Ramp then RampTick(cfg, s1, now) else s1;
      Next(Absorb(cfg, s2, now, sample))
  }

  /** One pass: a fault leaves the loop; otherwise a signal sets the stop flag,
      which stays set, and the mode's pass runs. The fixed and ramp loops test
      the flag before anything else; the sweep tests it at the head of its
      `for` loop and, inside a window, closes the window with its row. */
  function StepOf(cfg: Config, tEnd: Option<real>, st: State, ev: Event): (r: Step)
    ensures ev.Fault? ==> r == Done(st, Raised)
    ensures r.Done? && r.exit == Raised ==> ev.Fault?
    ensures ev.Pass? ==> r.s.stop == (st.stop || ev.signal)
    ensures st.sent <= r.s.sent && st.rows <= r.s.rows
    ensures ev.Pass? && cfg.mode != Sweep && (st.stop || ev.signal) ==> r == Done(st.(stop := true), Interrupted)
    ensures ev.Pass? && cfg.mode == Sweep && !st.inWindow && st.index < |SweepList(cfg)| && (st.stop || ev.signal) ==>
      r == Done(st.(stop := true), Interrupted)
    ensures ev.Pass? && cfg.mode == Sweep && st.inWindow && (st.stop || ev.signal) ==>
      r.s.index == st.index + 1 && !r.s.inWindow
    ensures r.Done? && r.exit == Finished ==> cfg.mode == Sweep
    ensures cfg.mode != Sweep && r.Done? ==> r.s == st.(stop := r.s.stop)
  {
    match ev
    case Fault => Done(st, Raised)
    case Pass(now, signal, line) =>
      var s := st.(stop := st.stop || signal);
      if cfg.mode == Sweep then SweepPass(cfg, tEnd, s, now, SweepSample(line)) else WindowPass(cfg, tEnd, s, now, Sample(line))
  }

  /** The sweep ends without another pass once its list is used up. */
  predicate Exhausted(cfg: Config, st: State) {
    cfg.mode == Sweep && !st.inWindow && st.index >= |SweepList(cfg)|
  }

  /** The loop over a finite run of passes: the final state, and how the loop
      ended (`None` while it is still running). */
  function Loop(cfg: Config, tEnd: Option<real>, st: State, events: seq<Event>): (r: (State, Option<Exit>))
    ensures r.1 == Some(Raised) ==> Fault in events
    ensures r.1.None? ==> Fault !in events
    ensures r.1 == Some(Finished) ==> cfg.mode == Sweep
    ensures r.1 == Some(Interrupted) ==> r.0.stop
    ensures st.rows <= r.0.rows
    decreases |events|
  {
    if Exhausted(cfg, st) then (st, Some(Finished))
    else if events == [] then (st, None)
    else
      match StepOf(cfg, tEnd, st, events[0])
      case Next(s) => Loop(cfg, tEnd, s, events[1..])
      case Done(s, e) => (s, Some(e))
  }

  // ---------------------------------------------------------------------
  // The bucket holds only samples of the current target.

  ghost predicate OnTarget(st: State) {
    forall i :: 0 <= i < |st.bucket| ==> st.bucket[i].hz == st.target
  }

  // ---------------------------------------------------------------------
  // Fixed mode: one target, every row for it.

  /** Every frequency the loop has set satisfies `ok`. */
  ghost predicate SetsAll(sent: seq<Command>, ok: int -> bool) {
    forall i :: 0 <= i < |sent| && sent[i].SetHz? ==> ok(sent[i].hz)
  }

  /** Requesting the status sets no frequency. */
  lemma PollSetsNothing(st: State, now: real, period: real, ok: int -> bool)
    requires SetsAll(st.sent, ok)
    ensures SetsAll(PollStatus(st, now, period).sent, ok)
  {
    var r := PollStatus(st, now, period);
    if r.sent != st.sent {
      assert r.sent[|st.sent|] == Status;
    }
  }

  ghost predicate FixedInv(cfg: Config, st: State) {
    && st.target == ClampHz(cfg.hz)
    && SetsAll(st.sent, h => h == ClampHz(cfg.hz))
    && OnTarget(st)
    && (forall k :: 0 <= k < |st.rows| ==> st.rows[k].hz == st.target)
  }

  lemma AbsorbOnTarget(cfg: Config, st: State, now: real, sample: Option<Telemetry>)
    requires OnTarget(st)
    ensures OnTarget(Absorb(cfg, st, now, sample))
    ensures var r := Absorb(cfg, st, now, sample);
      |r.rows| > |st.rows| ==> r.rows[|r.rows| - 1].hz == st.target
  {
  }

  lemma FixedStep(cfg: Config, tEnd: Option<real>, st: State, ev: Event)
    requires cfg.mode == Fixed && FixedInv(cfg, st)
    ensures FixedInv(cfg, StepOf(cfg, tEnd, st, ev).s)
  {
    if ev.Pass? && !(st.stop || ev.signal) && !PastEnd(tEnd, ev.now) {
      var s1 := PollStatus(st.(stop := st.stop || ev.signal), ev.now, StatusPeriod(cfg.sampleRate));
      assert StepOf(cfg, tEnd, st, ev) == Next(Absorb(cfg, s1, ev.now, Sample(ev.line)));
      PollSetsNothing(st.(stop := st.stop || ev.signal), ev.now, StatusPeriod(cfg.sampleRate), h => h == ClampHz(cfg.hz));
      FixedAbsorb(cfg, s1, ev.now, Sample(ev.line));
    }
  }

  lemma FixedAbsorb(cfg: Config, st: State, now: real, sample: Option<Telemetry>)
    requires FixedInv(cfg, st)
    ensures FixedInv(cfg, Absorb(cfg, st, now, sample))
  {
    AbsorbOnTarget(cfg, st, now, sample);
  }

  // ---------------------------------------------------------------------
  // Fixed mode: the rows are the averages of consecutive windows of the
  // samples for the target.

  /** The clock value and the sample of each pass that led to another one,
      in order: the loop's recursion, recording what the fixed and ramp
      loops read. */
  function Fed(cfg: Config, tEnd: Option<real>, st: State, events: seq<Event>): (f: seq<(real, Option<Telemetry>)>)
    ensures |f| <= |events|
    ensures forall i :: 0 <= i < |f| ==> events[i].Pass? && f[i] == (events[i].now, Sample(events[i].line))
    decreases |events|
  {
    if Exhausted(cfg, st) || events == [] then []
    else
      var r := StepOf(cfg, tEnd, st, events[0]);
      if r.Done? then []
      else
        var rest := Fed(cfg, tEnd, r.s, events[1..]);
        assert forall i :: 0 < i <= |rest| ==> events[i] == events[1..][i - 1];
        [(events[0].now, Sample(events[0].line))] + rest
  }

  /** The samples of a feed taken for `target`, in order. */
  function OnTargetOf(target: int, feed: seq<(real, Option<Telemetry>)>): (r: seq<Telemetry>)
    ensures |r| <= |feed|
    ensures forall i :: 0 <= i < |r| ==> r[i].hz == target
  {
    if feed == [] then []
    else
      var rest := OnTargetOf(target, feed[1..]);
      if feed[0].1.Some? && feed[0].1.value.hz == target then [feed[0].1.value] + rest else rest
  }

  /** A stream of samples cut into windows: the closed windows, the open one
      and the time it opened. */
  datatype Cut = Cut(closed: seq<seq<Telemetry>>, open: seq<Telemetry>, t0: real)

  /** One sample offered to the cut: samples for other targets are skipped; a
      sample taken at least `avg` after the open window began ends it and
      opens the next at its own time. */
  function CutStep(target: int, avg: real, c: Cut, now: real, sample: Option<Telemetry>): Cut {
    if sample.None? || sample.value.hz != target then c
    else if now - c.t0 >= avg then Cut(c.closed + [c.open + [sample.value]], [], now)
    else c.(open := c.open + [sample.value])
  }

  /** The windows a feed is cut into, as a reference independent of the
      loop's state. */
  function Windows(target: int, avg: real, c: Cut, feed: seq<(real, Option<Telemetry>)>): Cut
    decreases |feed|
  {
    if feed == [] then c else Windows(target, avg, CutStep(target, avg, c, feed[0].0, feed[0].1), feed[1..])
  }

  /** The windows laid end to end. */
  function Flat(ws: seq<seq<Telemetry>>): seq<Telemetry> {
    if ws == [] then [] else Flat(ws[..|ws| - 1]) + ws[|ws| - 1]
  }

  predicate AllFilled(ws: seq<seq<Telemetry>>) {
    forall i :: 0 <= i < |ws| ==> ws[i] != []
  }

  /** The row of each window, in order; an empty window has none. */
  function Reductions(target: int, ws: seq<seq<Telemetry>>): (rows: seq<Row>)
    ensures AllFilled(ws) ==> |rows| == |ws|
    ensures forall k :: 0 <= k < |rows| ==> rows[k].hz == target
  {
    if ws == [] then []
    else
      var init := Reductions(target, ws[..|ws| - 1]);
      match Reduce(target, ws[|ws| - 1], WindowPrecision)
      case Some(row) => init + [row]
      case None => init
  }

  lemma FlatAppend(ws: seq<seq<Telemetry>>, w: seq<Telemetry>)
    ensures Flat(ws + [w]) == Flat(ws) + w
  {
    assert (ws + [w])[..|ws|] == ws;
  }

  lemma ReductionsAppend(target: int, ws: seq<seq<Telemetry>>, w: seq<Telemetry>)
    requires w != []
    ensures Reductions(target, ws + [w]) == Reductions(target, ws) + [Reduce(target, w, WindowPrecision).value]
  {
    assert (ws + [w])[..|ws|] == ws;
  }

  /** Cutting loses, duplicates and reorders no sample for the target, and
      every window it closes holds at least one. */
  lemma {:induction false} WindowsKeepSamples(target: int, avg: real, c: Cut, feed: seq<(real, Option<Telemetry>)>)
    requires AllFilled(c.closed)
    ensures var w := Windows(target, avg, c, feed);
      && Flat(w.closed) + w.open == Flat(c.closed) + c.open + OnTargetOf(target, feed)
      && AllFilled(w.closed)
      && c.closed <= w.closed
    decreases |feed|
  {
    if feed != [] {
      var (now, sample) := feed[0];
      var c1 := CutStep(target, avg, c, now, sample);
      if sample.Some? && sample.value.hz == target && now - c.t0 >= avg {
        FlatAppend(c.closed, c.open + [sample.value]);
      }
      WindowsKeepSamples(target, avg, c1, feed[1..]);
    }
  }

  /** The loop's rows, bucket and window start follow a cut: the rows are
      those before it plus the reductions of its closed windows. */
  ghost predicate Tracks(base: seq<Row>, st: State, c: Cut) {
    st.rows == base + Reductions(st.target, c.closed) && st.bucket == c.open && st.t0 == c.t0
  }

  /** A pass of the fixed loop that goes on moves the state as the cut moves
      on its clock value and sample; one that ends the loop keeps the rows, the
      bucket and the window start. */
  lemma FixedPassCut(cfg: Config, tEnd: Option<real>, st: State, ev: Event, base: seq<Row>, c: Cut)
    requires cfg.mode == Fixed && Tracks(base, st, c)
    ensures var r := StepOf(cfg, tEnd, st, ev);
      && r.s.target == st.target
      && (r.Done? ==> Tracks(base, r.s, c))
      && (r.Next? ==> Tracks(base, r.s, CutStep(st.target, cfg.avgWindow, c, ev.now, Sample(ev.line))))
  {
    if ev.Pass? && !(st.stop || ev.signal) && !PastEnd(tEnd, ev.now) {
      var s1 := PollStatus(st.(stop := false), ev.now, StatusPeriod(cfg.sampleRate));
      assert StepOf(cfg, tEnd, st, ev) == WindowPass(cfg, tEnd, st.(stop := false), ev.now, Sample(ev.line));
      assert Tracks(base, s1, c);
      AbsorbCut(cfg, s1, ev.now, Sample(ev.line), base, c);
    }
  }

  /** The line handling of the fixed loop moves the state as the cut moves. */
  lemma AbsorbCut(cfg: Config, st: State, now: real, sample: Option<Telemetry>, base: seq<Row>, c: Cut)
    requires Tracks(base, st, c)
    ensures Absorb(cfg, st, now, sample).target == st.target
    ensures Tracks(base, Absorb(cfg, st, now, sample), CutStep(st.target, cfg.avgWindow, c, now, sample))
  {
    var r := Absorb(cfg, st, now, sample);
    if sample.None? || sample.value.hz != st.target {
      assert r == st;
    } else if now - st.t0 >= cfg.avgWindow {
      var x := sample.value;
      var row := Reduce(st.target, st.bucket + [x], WindowPrecision).value;
      assert r == st.(rows := st.rows + [row], bucket := [], t0 := now);
      ReductionsAppend(st.target, c.closed, c.open + [x]);
      assert r.rows == base + Reductions(st.target, c.closed + [c.open + [x]]);
    } else {
      assert r == st.(bucket := st.bucket + [sample.value]);
    }
  }

  lemma {:induction false} FixedLoopCut(cfg: Config, tEnd: Option<real>, st: State, events: seq<Event>, base: seq<Row>, c: Cut)
    requires cfg.mode == Fixed && Tracks(base, st, c)
    ensures var r := Loop(cfg, tEnd, st, events).0;
      && r.target == st.target
      && Tracks(base, r, Windows(st.target, cfg.avgWindow, c, Fed(cfg, tEnd, st, events)))
    decreases |events|
  {
    if events == [] {
      assert Loop(cfg, tEnd, st, events).0 == st && Fed(cfg, tEnd, st, events) == [];
    } else {
      var ev := events[0];
      LoopStep(cfg, tEnd, st, events);
      FixedPassCut(cfg, tEnd, st, ev, base, c);
      var r := StepOf(cfg, tEnd, st, ev);
      if r.Next? {
        var c1 := CutStep(st.target, cfg.avgWindow, c, ev.now, Sample(ev.line));
        FixedLoopCut(cfg, tEnd, r.s, events[1..], base, c1);
        WindowsCons(st.target, cfg.avgWindow, c, (ev.now, Sample(ev.line)), Fed(cfg, tEnd, r.s, events[1..]));
      }
    }
  }

  /** The loop's first pass, unfolded. */
  lemma LoopStep(cfg: Config, tEnd: Option<real>, st: State, events: seq<Event>)
    requires events != [] && !Exhausted(cfg, st)
    ensures var r := StepOf(cfg, tEnd, st, events[0]);
      && (r.Next? ==>
            && Loop(cfg, tEnd, st, events) == Loop(cfg, tEnd, r.s, events[1..])
            && Fed(cfg, tEnd, st, events) == [(events[0].now, Sample(events[0].line))] + Fed(cfg, tEnd, r.s, events[1..]))
      && (r.Done? ==> Loop(cfg, tEnd, st, events).0 == r.s && Fed(cfg, tEnd, st, events) == [])
  {
  }

  lemma WindowsCons(target: int, avg: real, c: Cut, x: (real, Option<Telemetry>), feed: seq<(real, Option<Telemetry>)>)
    ensures Windows(target, avg, c, [x] + feed) == Windows(target, avg, CutStep(target, avg, c, x.0, x.1), feed)
  {
    assert ([x] + feed)[1..] == feed;
  }

  /** In fixed mode the rows of a run are the averages of consecutive
      windows of the samples taken for the clamped `--hz`, in order: the first
      window opens when the loop starts, each closes with the first such
      sample taken `avg_window` or more after it opened, and the samples of
      the window still open at the end are in the bucket. No window is
      empty, and no sample for the target is lost or counted twice. */
  lemma FixedSessionWindows(cfg: Config, start: real, events: seq<Event>)
    requires cfg.mode == Fixed
    ensures var tEnd := EndTime(cfg.duration, start);
      var st := Loop(cfg, tEnd, Start(cfg, start), events).0;
      var feed := Fed(cfg, tEnd, Start(cfg, start), events);
      var w := Windows(ClampHz(cfg.hz), cfg.avgWindow, Cut([], [], start), feed);
      && st.rows == Reductions(ClampHz(cfg.hz), w.closed)
      && st.bucket == w.open
      && Flat(w.closed) + w.open == OnTargetOf(ClampHz(cfg.hz), feed)
      && AllFilled(w.closed)
  {
    var tEnd := EndTime(cfg.duration, start);
    var st0 := Start(cfg, start);
    var feed := Fed(cfg, tEnd, st0, events);
    var c := Cut([], [], start);
    assert Tracks([], st0, c);
    FixedLoopCut(cfg, tEnd, st0, events, [], c);
    var w := Windows(ClampHz(cfg.hz), cfg.avgWindow, c, feed);
    var rows := Loop(cfg, tEnd, st0, events).0.rows;
    assert rows == [] + Reductions(ClampHz(cfg.hz), w.closed);
    assert [] + Reductions(ClampHz(cfg.hz), w.closed) == Reductions(ClampHz(cfg.hz), w.closed);
    WindowsKeepSamples(ClampHz(cfg.hz), cfg.avgWindow, c, feed);
    assert Flat(c.closed) + c.open == [];
    assert [] + OnTargetOf(ClampHz(cfg.hz), feed) == OnTargetOf(ClampHz(cfg.hz), feed);
  }

  // ---------------------------------------------------------------------
  // Ramp mode: the target only rises, and rows follow it.

  ghost predicate RampInv(cfg: Config, st: State) {
    var lo := ClampHz(cfg.rampStart);
    && lo <= st.target <= Max(lo, cfg.rampStop)
    && SetsAll(st.sent, h => lo <= h <= Max(lo, cfg.rampStop))
    && OnTarget(st)
    && (forall k :: 0 <= k < |st.rows| ==> lo <= st.rows[k].hz <= st.target)
    && (forall k :: 0 < k < |st.rows| ==> st.rows[k - 1].hz <= st.rows[k].hz)
  }

  lemma RampTickInv(cfg: Config, st: State, now: real)
    requires cfg.rampStep >= 0 && RampInv(cfg, st)
    ensures RampInv(cfg, RampTick(cfg, st, now))
  {
    if now >= st.nextRamp && st.target < cfg.rampStop {
      var flush := now - st.t0 >= cfg.avgWindow && st.bucket != [];
      var s1 := if flush then Flush(st, now, WindowPrecision) else st;
      assert RampInv(cfg, s1) by {
        if flush {
          FlushRampInv(cfg, st, now);
        }
      }
      var t := RampAdvance(st.target, cfg.rampStop, cfg.rampStep);
      assert RampTick(cfg, st, now) ==
        s1.(target := t, sent := s1.sent + [SetHz(t)], bucket := [], t0 := now, nextRamp := now + cfg.rampInterval);
      RampAdvanceInv(cfg, s1, now);
    }
  }

  /** Writing the row of the window keeps the ramp invariant: the row is for
      the current target. */
  lemma FlushRampInv(cfg: Config, st: State, now: real)
    requires RampInv(cfg, st) && |st.bucket| > 0
    ensures RampInv(cfg, Flush(st, now, WindowPrecision))
  {
    var row := Reduce(st.target, st.bucket, WindowPrecision).value;
    assert row.hz == st.target;
    var rows := st.rows + [row];
    assert forall k :: 0 <= k < |st.rows| ==> rows[k] == st.rows[k];
  }

  /** Advancing the ramp keeps the ramp invariant: the new target is sent, is
      in range and is not below the old one. */
  lemma RampAdvanceInv(cfg: Config, st: State, now: real)
    requires cfg.rampStep >= 0 && RampInv(cfg, st) && st.target < cfg.rampStop
    ensures var t := RampAdvance(st.target, cfg.rampStop, cfg.rampStep);
      RampInv(cfg, st.(target := t, sent := st.sent + [SetHz(t)], bucket := [], t0 := now, nextRamp := now + cfg.rampInterval))
  {
    var lo := ClampHz(cfg.rampStart);
    var t := RampAdvance(st.target, cfg.rampStop, cfg.rampStep);
    assert lo <= t <= Max(lo, cfg.rampStop);
    var sent := st.sent + [SetHz(t)];
    assert forall i :: 0 <= i < |st.sent| ==> sent[i] == st.sent[i];
  }

  lemma AbsorbRampInv(cfg: Config, st: State, now: real, sample: Option<Telemetry>)
    requires RampInv(cfg, st)
    ensures RampInv(cfg, Absorb(cfg, st, now, sample))
  {
    AbsorbOnTarget(cfg, st, now, sample);
  }

  lemma RampStep(cfg: Config, tEnd: Option<real>, st: State, ev: Event)
    requires cfg.mode == Ramp && cfg.rampStep >= 0 && RampInv(cfg, st)
    ensures RampInv(cfg, StepOf(cfg, tEnd, st, ev).s)
  {
    if ev.Pass? && !(st.stop || ev.signal) && !PastEnd(tEnd, ev.now) {
      var s1 := PollStatus(st.(stop := st.stop || ev.signal), ev.now, StatusPeriod(cfg.sampleRate));
      RampTickInv(cfg, s1, ev.now);
      AbsorbRampInv(cfg, RampTick(cfg, s1, ev.now), ev.now, Sample(ev.line));
    }
  }

  // ---------------------------------------------------------------------
  // Sweep mode: at most one row per target, in increasing order of target.

  ghost predicate SweepInv(cfg: Config, st: State) {
    var ts := SweepList(cfg);
    && st.index <= |ts|
    && (st.inWindow ==> st.index < |ts| && st.target == ts[st.index])
    && SetsAll(st.sent, h => h in ts)
    && OnTarget(st)
    && |st.rows| <= st.index
    && (forall k :: 0 <= k < |st.rows| ==> st.rows[k].hz in ts[..st.index])
    && (forall k :: 0 < k < |st.rows| ==> st.rows[k - 1].hz < st.rows[k].hz)
  }

  lemma CollectOnTarget(st: State, sample: Option<Telemetry>)
    requires OnTarget(st)
    ensures OnTarget(Collect(st, sample))
    ensures Collect(st, sample).rows == st.rows && Collect(st, sample).target == st.target
  {
  }

  lemma SweepStep(cfg: Config, tEnd: Option<real>, st: State, ev: Event)
    requires cfg.mode == Sweep && SweepInv(cfg, st)
    ensures SweepInv(cfg, StepOf(cfg, tEnd, st, ev).s)
  {
    if ev.Pass? {
      var s := st.(stop := st.stop || ev.signal);
      assert StepOf(cfg, tEnd, st, ev) == SweepPass(cfg, tEnd, s, ev.now, SweepSample(ev.line));
      SweepPassInv(cfg, tEnd, s, ev.now, SweepSample(ev.line));
    }
  }

  lemma SweepPassInv(cfg: Config, tEnd: Option<real>, st: State, now: real, sample: Option<Telemetry>)
    requires cfg.mode == Sweep && SweepInv(cfg, st)
    ensures SweepInv(cfg, SweepPass(cfg, tEnd, st, now, sample).s)
  {
    if !st.inWindow {
      SweepHead(cfg, tEnd, st, now, sample);
    } else if now - st.t0 >= cfg.avgWindow || st.stop {
      SweepEnd(cfg, tEnd, st, now, sample);
    } else {
      SweepCollect(cfg, tEnd, st, now, sample);
    }
  }

  lemma SweepHead(cfg: Config, tEnd: Option<real>, st: State, now: real, sample: Option<Telemetry>)
    requires cfg.mode == Sweep && SweepInv(cfg, st) && !st.inWindow
    ensures SweepInv(cfg, SweepPass(cfg, tEnd, st, now, sample).s)
  {
  }

  lemma SweepEnd(cfg: Config, tEnd: Option<real>, st: State, now: real, sample: Option<Telemetry>)
    requires cfg.mode == Sweep && SweepInv(cfg, st) && st.inWindow
    requires now - st.t0 >= cfg.avgWindow || st.stop
    ensures SweepInv(cfg, SweepPass(cfg, tEnd, st, now, sample).s)
  {
    SweepClose(cfg, st);
    var rows := if st.bucket == [] then st.rows else st.rows + [Reduce(st.target, st.bucket, SweepPrecision).value];
    assert SweepPass(cfg, tEnd, st, now, sample).s == st.(rows := rows, index := st.index + 1, inWindow := false);
  }

  lemma SweepCollect(cfg: Config, tEnd: Option<real>, st: State, now: real, sample: Option<Telemetry>)
    requires cfg.mode == Sweep && SweepInv(cfg, st) && st.inWindow
    requires !(now - st.t0 >= cfg.avgWindow || st.stop)
    ensures SweepInv(cfg, SweepPass(cfg, tEnd, st, now, sample).s)
  {
    var s1 := PollStatus(st, now, StatusPeriod(cfg.sampleRate));
    assert SweepPass(cfg, tEnd, st, now, sample) == Next(Collect(s1, sample));
    PollSetsNothing(st, now, StatusPeriod(cfg.sampleRate), h => h in SweepList(cfg));
    CollectOnTarget(s1, sample);
  }

  /** Closing a window keeps the sweep invariant: the new row's target is
      above every earlier row's. */
  lemma SweepClose(cfg: Config, st: State)
    requires cfg.mode == Sweep && SweepInv(cfg, st) && st.inWindow
    ensures var rows := if st.bucket == [] then st.rows else st.rows + [Reduce(st.target, st.bucket, SweepPrecision).value];
      SweepInv(cfg, st.(rows := rows, index := st.index + 1, inWindow := false))
  {
    if st.bucket == [] {
      SweepNext(cfg, st);
    } else {
      var row := Reduce(st.target, st.bucket, SweepPrecision).value;
      SweepAppend(cfg, st, row);
    }
  }

  /** Every row so far is for a target below the current one. */
  lemma SweepBelow(cfg: Config, st: State)
    requires cfg.mode == Sweep && SweepInv(cfg, st) && st.inWindow
    ensures forall k :: 0 <= k < |st.rows| ==> st.rows[k].hz < st.target
    ensures forall k :: 0 <= k < |st.rows| ==> st.rows[k].hz in SweepList(cfg)[..st.index + 1]
  {
    var ts := SweepList(cfg);
    SweepShape(cfg.sweepStart, cfg.sweepStop, cfg.sweepStep);
    assert ts[..st.index + 1] == ts[..st.index] + [ts[st.index]];
    forall k | 0 <= k < |st.rows|
      ensures st.rows[k].hz < st.target
    {
      var j :| 0 <= j < st.index && ts[j] == st.rows[k].hz;
    }
  }

  /** Closing a window without a row moves to the next target. */
  lemma SweepNext(cfg: Config, st: State)
    requires cfg.mode == Sweep && SweepInv(cfg, st) && st.inWindow
    ensures SweepInv(cfg, st.(index := st.index + 1, inWindow := false))
  {
    SweepBelow(cfg, st);
  }

  /** Closing a window with a row for the current target. */
  lemma SweepAppend(cfg: Config, st: State, row: Row)
    requires cfg.mode == Sweep && SweepInv(cfg, st) && st.inWindow && row.hz == st.target
    ensures SweepInv(cfg, st.(rows := st.rows + [row], index := st.index + 1, inWindow := false))
  {
    SweepBelow(cfg, st);
    var ts := SweepList(cfg);
    assert ts[..st.index + 1][st.index] == st.target;
  }

  // ---------------------------------------------------------------------
  // The invariants over whole runs.

  ghost predicate Inv(cfg: Config, st: State) {
    match cfg.mode
    case Fixed => FixedInv(cfg, st)
    case Ramp => cfg.rampStep >= 0 ==> RampInv(cfg, st)
    case Sweep => SweepInv(cfg, st)
  }

  lemma StartInv(cfg: Config, start: real)
    ensures Inv(cfg, Start(cfg, start))
  {
  }

  lemma StepInv(cfg: Config, tEnd: Option<real>, st: State, ev: Event)
    requires Inv(cfg, st)
    ensures Inv(cfg, StepOf(cfg, tEnd, st, ev).s)
  {
    match cfg.mode
    case Fixed => FixedStep(cfg, tEnd, st, ev);
    case Ramp => if cfg.rampStep >= 0 { RampStep(cfg, tEnd, st, ev); }
    case Sweep => SweepStep(cfg, tEnd, st, ev);
  }

  lemma {:induction false} LoopInv(cfg: Config, tEnd: Option<real>, st: State, events: seq<Event>)
    requires Inv(cfg, st)
    ensures Inv(cfg, Loop(cfg, tEnd, st, events).0)
    decreases |events|
  {
    if !Exhausted(cfg, st) && events != [] {
      StepInv(cfg, tEnd, st, events[0]);
      if StepOf(cfg, tEnd, st, events[0]).Next? {
        LoopInv(cfg, tEnd, StepOf(cfg, tEnd, st, events[0]).s, events[1..]);
      }
    }
  }

  /** A run of passes only ever adds to the commands sent. */
  lemma {:induction false} LoopKeepsSent(cfg: Config, tEnd: Option<real>, st: State, events: seq<Event>)
    ensures st.sent <= Loop(cfg, tEnd, st, events).0.sent
    decreases |events|
  {
    if !Exhausted(cfg, st) && events != [] {
      if StepOf(cfg, tEnd, st, events[0]).Next? {
        LoopKeepsSent(cfg, tEnd, StepOf(cfg, tEnd, st, events[0]).s, events[1..]);
      }
    }
  }

  /** What a whole run of the script leaves behind. */
  datatype Outcome = Outcome(log: seq<Record<Row>>, sent: seq<Command>, exit: Option<Exit>, teardown: seq<Action>)

  /** The script from the opening of the log to the teardown: the header
      written only to a new file, the startup writes, the loop over the
      passes, and, once the loop has ended in any way, the `finally` block.
      `startFault` is the index in `StartWrites` of a startup write that
      raised: those writes come before the `try`, so the exception leaves the
      script with no graceful stop, the reader running, and the port and the
      log file open. */
  function Session(cfg: Config, start: real, file: Option<seq<Record<Row>>>, startFault: Option<nat>, events: seq<Event>, setHzSent: bool): (o: Outcome)
    requires startFault.Some? ==> startFault.value < |StartWrites|
    ensures startFault.None? && o.exit.Some? ==> o.teardown == Teardown(setHzSent)
    ensures startFault.None? && o.exit.None? ==> o.teardown == []
    ensures startFault.None? ==> StartWrites <= o.sent
    ensures startFault.Some? ==>
      && o.exit == Some(Raised) && o.teardown == []
      && o.sent == StartWrites[..startFault.value]
      && o.log == Persist.Session(file, RunHeader, [])
  {
    if startFault.Some? then
      Outcome(Persist.Session(file, RunHeader, []), StartWrites[..startFault.value], Some(Raised), [])
    else
      var st0 := Start(cfg, start);
      var (st, exit) := Loop(cfg, EndTime(cfg.duration, start), st0, events);
      assert StartWrites <= st.sent by {
        LoopKeepsSent(cfg, EndTime(cfg.duration, start), st0, events);
      }
      Outcome(Persist.Session(file, RunHeader, st.rows), st.sent, exit, if exit.Some? then Teardown(setHzSent) else [])
  }

  /** In every run, every sample that reached a row belonged to the row's
      target: in fixed mode every row is for the clamped `--hz`; in a sweep the
      rows are for distinct sweep targets in increasing order, at most one per
      target; in a ramp with a non-negative step the rows' targets never
      decrease and stay between the clamped start and `ramp_stop`. */
  lemma SessionRows(cfg: Config, start: real, events: seq<Event>)
    ensures var rows := Loop(cfg, EndTime(cfg.duration, start), Start(cfg, start), events).0.rows;
      && (cfg.mode == Fixed ==> forall k :: 0 <= k < |rows| ==> rows[k].hz == ClampHz(cfg.hz))
      && (cfg.mode == Sweep ==> (
            && |rows| <= |SweepList(cfg)|
            && (forall k :: 0 <= k < |rows| ==> rows[k].hz in SweepList(cfg))
            && (forall k :: 0 < k < |rows| ==> rows[k - 1].hz < rows[k].hz)))
      && (cfg.mode == Ramp && cfg.rampStep >= 0 ==> (
            && (forall k :: 0 <= k < |rows| ==> ClampHz(cfg.rampStart) <= rows[k].hz <= Max(ClampHz(cfg.rampStart), cfg.rampStop))
            && (forall k :: 0 < k < |rows| ==> rows[k - 1].hz <= rows[k].hz)))
  {
    var tEnd := EndTime(cfg.duration, start);
    StartInv(cfg, start);
    LoopInv(cfg, tEnd, Start(cfg, start), events);
    var st := Loop(cfg, tEnd, Start(cfg, start), events).0;
    if cfg.mode == Sweep {
      forall k | 0 <= k < |st.rows|
        ensures st.rows[k].hz in SweepList(cfg)
      {
        assert st.rows[k].hz in SweepList(cfg)[..st.index];
      }
    }
  }

  /** The frequencies a run sets: in fixed mode only the clamped `--hz`; in a
      sweep only sweep targets, so always within the drive's range; in a ramp
      with a non-negative step, values between the clamped start and
      `ramp_stop`, which may lie above the drive's range. */
  lemma SessionSends(cfg: Config, start: real, events: seq<Event>)
    ensures var sent := Loop(cfg, EndTime(cfg.duration, start), Start(cfg, start), events).0.sent;
      && (cfg.mode == Fixed ==> forall i :: 0 <= i < |sent| && sent[i].SetHz? ==> sent[i].hz == ClampHz(cfg.hz))
      && (cfg.mode == Sweep ==> forall i :: 0 <= i < |sent| && sent[i].SetHz? ==> HzMin <= sent[i].hz <= HzMax)
      && (cfg.mode == Ramp && cfg.rampStep >= 0 ==> forall i :: 0 <= i < |sent| && sent[i].SetHz? ==>
            ClampHz(cfg.rampStart) <= sent[i].hz <= Max(ClampHz(cfg.rampStart), cfg.rampStop))
  {
    var tEnd := EndTime(cfg.duration, start);
    StartInv(cfg, start);
    LoopInv(cfg, tEnd, Start(cfg, start), events);
    var sent := Loop(cfg, tEnd, Start(cfg, start), events).0.sent;
    if cfg.mode == Sweep {
      SweepShape(cfg.sweepStart, cfg.sweepStop, cfg.sweepStep);
      forall i | 0 <= i < |sent| && sent[i].SetHz?
        ensures HzMin <= sent[i].hz <= HzMax
      {
        var j :| 0 <= j < |SweepList(cfg)| && SweepList(cfg)[j] == sent[i].hz;
      }
    }
  }
}
