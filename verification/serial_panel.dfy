/** The motor panels that talk to the controller board over the serial port:
    `MotorPanel` of RPM.py and of test/T2.py, without their widgets.

    A panel is a record of what it displays and of the checked state of its
    two checkable buttons; each handler is a function from a panel to the next
    panel and the commands it sends. The two files differ only in their
    constants and in three details, collected in a `Variant`. */
module SerialPanel {
  import opened Wrappers
  import opened Text
  import opened Numbers
  import opened Commands
  import opened Targets
  import opened Search
  import opened Keys

  type Positive = n: int | n > 0 witness 1

  /** `RPM_PER_HZ`, `RPM_MAX` and `RPM_STEP`; whether a status line's `rpm=`
      field is shown (RPM.py) or the rpm is always derived from the frequency
      (test/T2.py); whether `flow=` and `volt=` are read; and whether the up and
      down handlers store the frequency they send. */
  datatype Variant = Variant(
    rpmPerHz: Positive, rpmMax: nat, rpmStep: int,
    rpmFromField: bool, readsFlowVolt: bool, storesHz: bool)

  const RpmPanel: Variant := Variant(56, 3000, 50, true, false, false)
  const T2Panel: Variant := Variant(46, 2760, 46, false, true, true)

  /** `RPM_MIN`. */
  const RpmMin: int := 0

  /** The panel's state: `hz`, `rpm`, `flow`, `volt`, `power_on`,
      `freq_running`, and the checked state of the power and hold buttons. */
  datatype Panel = Panel(
    hz: int, rpm: int, flow: real, volt: real,
    powerOn: bool, freqRunning: bool,
    powerChecked: bool, holdChecked: bool)

  /** The state `__init__` leaves. */
  const Init: Panel := Panel(0, 0, 0.0, 0.0, false, true, false, false)

  /** What a handler leaves: the next panel and the commands sent, in order. */
  datatype Out = Out(p: Panel, sent: seq<Command>)

  /** `clamp_rpm`, which `refresh_display` and `update_ui_state` apply. */
  function ClampRpm(v: Variant, rpm: int): (r: int)
    ensures RpmMin <= r <= v.rpmMax
    ensures RpmMin <= rpm <= v.rpmMax ==> r == rpm
    ensures rpm < RpmMin ==> r == RpmMin
    ensures rpm > v.rpmMax ==> r == v.rpmMax
  {
    Max(RpmMin, Min(v.rpmMax, rpm))
  }

  /** `refresh_display`. */
  function Refresh(v: Variant, p: Panel): Panel {
    p.(rpm := ClampRpm(v, p.rpm))
  }

  /** `rpm_to_hz`: `round(rpm / RPM_PER_HZ)`, ties to even, clamped to the
      drive's range. */
  function RpmToHz(v: Variant, rpm: int): (hz: int)
    ensures HzMin <= hz <= HzMax
    ensures HzMin <= RoundHalfEven(rpm as real / v.rpmPerHz as real) <= HzMax ==>
      hz == RoundHalfEven(rpm as real / v.rpmPerHz as real)
  {
    ClampHz(RoundHalfEven(rpm as real / v.rpmPerHz as real))
  }

  /** Rounding to the nearest integer never reverses an order. */
  lemma RoundMonotone(x: real, y: real)
    requires x <= y
    ensures RoundHalfEven(x) <= RoundHalfEven(y)
  {
  }

  /** A faster rpm never asks for a lower frequency. */
  lemma RpmToHzMonotone(v: Variant, a: int, b: int)
    requires a <= b
    ensures RpmToHz(v, a) <= RpmToHz(v, b)
  {
    var n := v.rpmPerHz as real;
    assert a as real / n <= b as real / n;
    RoundMonotone(a as real / n, b as real / n);
    ClampMonotone(RoundHalfEven(a as real / n), RoundHalfEven(b as real / n));
  }

  /** The rpm that a frequency in range corresponds to gives that frequency
      back. */
  lemma RpmToHzOfHz(v: Variant, hz: int)
    requires HzMin <= hz <= HzMax
    ensures RpmToHz(v, hz * v.rpmPerHz) == hz
  {
    var n := v.rpmPerHz as real;
    assert (hz * v.rpmPerHz) as real / n == hz as real;
    assert (hz as real).Floor == hz;
  }

  // ---------------------------------------------------------------------
  // The serial line handler.

  /** The six fields `on_serial_line` looks for, each as `re.search` finds it
      anywhere in the line. */
  datatype Report = Report(
    hz: Option<Lexeme>, rpm: Option<Lexeme>, flow: Option<Lexeme>,
    volt: Option<Lexeme>, run: Option<Lexeme>, hold: Option<Lexeme>)

  predicate ValidField(m: Option<Lexeme>) {
    m.Some? ==> ValidLexeme(m.value)
  }

  predicate ValidReport(r: Report) {
    && ValidField(r.hz) && ValidField(r.rpm) && ValidField(r.flow)
    && ValidField(r.volt) && ValidField(r.run) && ValidField(r.hold)
  }

  function ReportOf(line: string): (r: Report)
    ensures ValidReport(r)
  {
    Report(
      Search.Search(line, "hz=", Unsigned), Search.Search(line, "rpm=", Signed),
      Search.Search(line, "flow=", Number), Search.Search(line, "volt=", Number),
      Search.Search(line, "run=", Bit), Search.Search(line, "hold=", Bit))
  }

  /** What the fields found make of the panel: the frequency is taken when
      found; the rpm comes from the `rpm=` field (RPM.py, when found) or from
      the frequency; `run=` and `hold=` set the flags and the buttons' checked
      state when found; flow and voltage are read when the variant reads them
      and they are found; then the display is refreshed. */
  function Apply(v: Variant, p: Panel, r: Report): Panel
    requires ValidReport(r)
  {
    var hz := if r.hz.Some? then IntOf(r.hz.value) else p.hz;
    var rpm := if v.rpmFromField && r.rpm.Some? then IntOf(r.rpm.value) else hz * v.rpmPerHz;
    var flow := if v.readsFlowVolt && r.flow.Some? then RealOf(r.flow.value) else p.flow;
    var volt := if v.readsFlowVolt && r.volt.Some? then RealOf(r.volt.value) else p.volt;
    var powerOn := if r.run.Some? then r.run.value.whole == "1" else p.powerOn;
    var freqRunning := if r.hold.Some? then r.hold.value.whole == "0" else p.freqRunning;
    Refresh(v, Panel(
      hz, rpm, flow, volt, powerOn, freqRunning,
      if r.run.Some? then powerOn else p.powerChecked,
      if r.hold.Some? then !freqRunning else p.holdChecked))
  }

  /** `on_serial_line`: only lines starting with `STATUS` change anything, and
      nothing is sent. */
  function OnLine(v: Variant, p: Panel, line: string): (o: Out)
    ensures o.sent == []
    ensures !StartsWith(line, "STATUS") ==> o.p == p
    ensures RpmMin <= p.rpm <= v.rpmMax ==> RpmMin <= o.p.rpm <= v.rpmMax
  {
    if !StartsWith(line, "STATUS") then Out(p, [])
    else Out(Apply(v, p, ReportOf(line)), [])
  }

  /** What a status line reports, field by field, and what the panel makes of
      it: `power_on` is `run == 1` and `freq_running` is `hold == 0`, and a
      missing field leaves its flag and its button alone; the rpm is the
      reported one (RPM.py) or the frequency times `RPM_PER_HZ`, clamped;
      test/T2.py takes `flow` and `volt` only when present. */
  lemma OnLineFields(v: Variant, p: Panel, line: string)
    requires StartsWith(line, "STATUS")
    ensures var q := OnLine(v, p, line).p;
      var hz := Search.Search(line, "hz=", Unsigned);
      var rpm := Search.Search(line, "rpm=", Signed);
      var run := Search.Search(line, "run=", Bit);
      var hold := Search.Search(line, "hold=", Bit);
      && q.hz == (if hz.Some? then DigitsValue(hz.value.whole) else p.hz)
      && q.rpm == ClampRpm(v, if v.rpmFromField && rpm.Some? then IntOf(rpm.value) else q.hz * v.rpmPerHz)
      && (run.None? ==> q.powerOn == p.powerOn && q.powerChecked == p.powerChecked)
      && (run.Some? ==> (q.powerOn <==> run.value.whole == "1") && q.powerChecked == q.powerOn)
      && (hold.None? ==> q.freqRunning == p.freqRunning && q.holdChecked == p.holdChecked)
      && (hold.Some? ==> (q.freqRunning <==> hold.value.whole == "0") && q.holdChecked == !q.freqRunning)
      && (!v.readsFlowVolt ==> q.flow == p.flow && q.volt == p.volt)
      && (Search.Search(line, "flow=", Number).None? ==> q.flow == p.flow)
      && (Search.Search(line, "volt=", Number).None? ==> q.volt == p.volt)
  {
  }

  /** In test/T2.py the reported rpm is never shown: two status lines that
      differ only in what follows `rpm=` leave the same panel. */
  lemma T2IgnoresRpm(p: Panel, line: string, line': string)
    requires StartsWith(line, "STATUS") && StartsWith(line', "STATUS")
    requires Search.Search(line, "hz=", Unsigned) == Search.Search(line', "hz=", Unsigned)
    requires Search.Search(line, "flow=", Number) == Search.Search(line', "flow=", Number)
    requires Search.Search(line, "volt=", Number) == Search.Search(line', "volt=", Number)
    requires Search.Search(line, "run=", Bit) == Search.Search(line', "run=", Bit)
    requires Search.Search(line, "hold=", Bit) == Search.Search(line', "hold=", Bit)
    ensures OnLine(T2Panel, p, line) == OnLine(T2Panel, p, line')
  {
    var a, b := ReportOf(line), ReportOf(line');
    assert a.(rpm := None) == b.(rpm := None);
    ApplyIgnoresRpm(p, a, b);
  }

  lemma ApplyIgnoresRpm(p: Panel, a: Report, b: Report)
    requires ValidReport(a) && ValidReport(b)
    requires a.(rpm := None) == b.(rpm := None)
    ensures Apply(T2Panel, p, a) == Apply(T2Panel, p, b)
  {
    assert a.hz == b.hz && a.flow == b.flow && a.volt == b.volt && a.run == b.run && a.hold == b.hold;
  }

  // ---------------------------------------------------------------------
  // The button handlers.

  /** `on_toggle_power(checked)`: the power follows the button; turning it on
      sends `RUN`, turning it off sends `STOP` and zeroes the frequency and the
      rpm. */
  function TogglePower(v: Variant, p: Panel, checked: bool): (o: Out)
    ensures o.p.powerOn == checked
    ensures checked ==> o.sent == [Run] && o.p.rpm == ClampRpm(v, p.rpm) && o.p.hz == p.hz
    ensures !checked ==> o.sent == [Stop] && o.p.hz == 0 && o.p.rpm == 0
  {
    var q := p.(powerOn := checked, powerChecked := checked);
    if checked then Out(Refresh(v, q), [Run])
    else Out(Refresh(v, q.(hz := 0, rpm := 0)), [Stop])
  }

  /** A click on the power button: Qt flips its checked state and passes the
      new state to the handler. */
  function ClickPower(v: Variant, p: Panel): Out {
    TogglePower(v, p, !p.powerChecked)
  }

  /** `on_reset`: nothing while the power is off; otherwise `RESET`, and the
      frequency and the rpm go to zero. */
  function OnReset(v: Variant, p: Panel): (o: Out)
    ensures !p.powerOn ==> o == Out(p, [])
    ensures p.powerOn ==> o.sent == [Reset] && o.p == p.(hz := 0, rpm := 0)
  {
    if !p.powerOn then Out(p, [])
    else Out(Refresh(v, p.(hz := 0, rpm := 0)), [Reset])
  }

  /** `on_toggle_freq(checked)`: while the power is off the button is
      unchecked again and nothing else happens; otherwise `HOLD_STOP ON` stops
      the frequency and `HOLD_STOP OFF` runs it. */
  function ToggleFreq(v: Variant, p: Panel, checked: bool): (o: Out)
    ensures !p.powerOn ==> o == Out(p.(holdChecked := false), [])
    ensures p.powerOn ==> o.sent == [HoldStop(checked)] && o.p.freqRunning == !checked && o.p.holdChecked == checked
  {
    if !p.powerOn then Out(p.(holdChecked := false), [])
    else Out(Refresh(v, p.(holdChecked := checked, freqRunning := !checked)), [HoldStop(checked)])
  }

  /** A click on the hold button, and the `S` key, which toggles the button
      and calls the handler with its new state. */
  function ClickHold(v: Variant, p: Panel): Out {
    ToggleFreq(v, p.(holdChecked := !p.holdChecked), !p.holdChecked)
  }

  /** `increase_rpm` (`delta = RPM_STEP`) and `decrease_rpm`
      (`delta = -RPM_STEP`): nothing unless the power is on and the frequency
      running; otherwise the rpm moves by `delta`, `SET_HZ rpm_to_hz(rpm)` is
      sent for the moved (not yet clamped) rpm, test/T2.py stores that
      frequency, and the display is refreshed. */
  function Adjust(v: Variant, p: Panel, delta: int): (o: Out)
    ensures !(p.powerOn && p.freqRunning) ==> o == Out(p, [])
    ensures p.powerOn && p.freqRunning ==>
      && o.sent == [SetHz(RpmToHz(v, p.rpm + delta))]
      && o.p.rpm == ClampRpm(v, p.rpm + delta)
      && o.p.hz == (if v.storesHz then RpmToHz(v, p.rpm + delta) else p.hz)
  {
    if !(p.powerOn && p.freqRunning) then Out(p, [])
    else
      var rpm := p.rpm + delta;
      var hz := RpmToHz(v, rpm);
      Out(Refresh(v, p.(rpm := rpm, hz := if v.storesHz then hz else p.hz)), [SetHz(hz)])
  }

  function Increase(v: Variant, p: Panel): Out { Adjust(v, p, v.rpmStep) }
  function Decrease(v: Variant, p: Panel): Out { Adjust(v, p, -v.rpmStep) }

  /** A step down undoes a step up that stayed below `RPM_MAX`, and both send
      a frequency no lower than the one before. */
  lemma UpThenDown(v: Variant, p: Panel)
    requires p.powerOn && p.freqRunning
    requires RpmMin <= p.rpm && p.rpm + v.rpmStep <= v.rpmMax && v.rpmStep >= 0
    ensures var up := Increase(v, p);
      var down := Decrease(v, up.p);
      && down.p.rpm == p.rpm
      && up.sent == [SetHz(RpmToHz(v, p.rpm + v.rpmStep))]
      && down.sent == [SetHz(RpmToHz(v, p.rpm))]
      && RpmToHz(v, p.rpm) <= RpmToHz(v, p.rpm + v.rpmStep)
  {
    RpmToHzMonotone(v, p.rpm, p.rpm + v.rpmStep);
  }

  /** Which controls `setEnabled_controls` enables: reset and hold with the
      power, up and down with the power and a running frequency. */
  datatype Enabled = Enabled(reset: bool, hold: bool, up: bool, down: bool)

  function Controls(p: Panel): Enabled {
    Enabled(p.powerOn, p.powerOn, p.powerOn && p.freqRunning, p.powerOn && p.freqRunning)
  }

  /** Each handler acts exactly when its control is enabled, so the keyboard
      shortcuts, which reach the handlers whatever the buttons' state, can do
      no more than the buttons. */
  lemma HandlersMatchControls(v: Variant, p: Panel)
    ensures OnReset(v, p).sent != [] <==> Controls(p).reset
    ensures ClickHold(v, p).sent != [] <==> Controls(p).hold
    ensures Increase(v, p).sent != [] <==> Controls(p).up
    ensures Decrease(v, p).sent != [] <==> Controls(p).down
  {
  }

  // ---------------------------------------------------------------------
  // Keys.

  /** `keyPressEvent` as written: `Space` calls `btn_power.toggle()`, which
      flips the button's checked state without emitting `clicked`, so the
      power handler does not run. */
  function KeyAsWritten(v: Variant, p: Panel, key: Key): Out {
    match key
    case Space => Out(p.(powerChecked := !p.powerChecked), [])
    case KeyR => OnReset(v, p)
    case KeyS => ClickHold(v, p)
    case Up => Increase(v, p)
    case Down => Decrease(v, p)
    case Other => Out(p, [])
  }

  /** `keyPressEvent` as its tooltip ("Phím cách") describes it: `Space` acts
      like a click on the power button. */
  function KeyPress(v: Variant, p: Panel, key: Key): Out {
    match key
    case Space => ClickPower(v, p)
    case _ => KeyAsWritten(v, p, key)
  }

  /** Every input the panel reacts to. */
  datatype Input = Line(text: string) | Timer | PowerClick | ResetClick | HoldClick | UpClick | DownClick | Press(key: Key)

  function Handle(v: Variant, p: Panel, i: Input, asWritten: bool): Out {
    match i
    case Line(text) => OnLine(v, p, text)
    case Timer => Out(p, [Status])
    case PowerClick => ClickPower(v, p)
    case ResetClick => OnReset(v, p)
    case HoldClick => ClickHold(v, p)
    case UpClick => Increase(v, p)
    case DownClick => Decrease(v, p)
    case Press(key) => if asWritten then KeyAsWritten(v, p, key) else KeyPress(v, p, key)
  }

  /** A run of inputs: the final panel and every command sent. */
  function Session(v: Variant, p: Panel, inputs: seq<Input>, asWritten: bool): Out
    decreases |inputs|
  {
    if inputs == [] then Out(p, [])
    else
      var o := Handle(v, p, inputs[0], asWritten);
      var rest := Session(v, o.p, inputs[1..], asWritten);
      Out(rest.p, o.sent + rest.sent)
  }

  /** The displayed rpm stays within `[RPM_MIN, RPM_MAX]`, and the power button
      shows the power state. */
  ghost predicate Inv(v: Variant, p: Panel) {
    RpmMin <= p.rpm <= v.rpmMax && p.powerChecked == p.powerOn
  }

  lemma HandleInv(v: Variant, p: Panel, i: Input)
    requires Inv(v, p)
    ensures Inv(v, Handle(v, p, i, false).p)
  {
    HandleRpm(v, p, i, false);
  }

  /** With the corrected `Space` key, every run of inputs from the initial
      state keeps the rpm in range and the power button in step with the
      power. */
  lemma {:induction false} SessionInv(v: Variant, p: Panel, inputs: seq<Input>)
    requires Inv(v, p)
    ensures Inv(v, Session(v, p, inputs, false).p)
    decreases |inputs|
  {
    if inputs != [] {
      HandleInv(v, p, inputs[0]);
      SessionInv(v, Handle(v, p, inputs[0], false).p, inputs[1..]);
    }
  }

  /** Whatever the keys do, one input leaves the rpm in range. */
  lemma HandleRpm(v: Variant, p: Panel, i: Input, asWritten: bool)
    requires RpmMin <= p.rpm <= v.rpmMax
    ensures RpmMin <= Handle(v, p, i, asWritten).p.rpm <= v.rpmMax
  {
    match i
    case Press(key) =>
      if asWritten {
        assert Handle(v, p, i, asWritten) == KeyAsWritten(v, p, key);
      } else {
        assert Handle(v, p, i, asWritten) == KeyPress(v, p, key);
      }
    case _ =>
  }

  /** As written, the rpm still stays in range. */
  lemma {:induction false} SessionRpmAsWritten(v: Variant, p: Panel, inputs: seq<Input>)
    requires RpmMin <= p.rpm <= v.rpmMax
    ensures RpmMin <= Session(v, p, inputs, true).p.rpm <= v.rpmMax
    decreases |inputs|
  {
    if inputs != [] {
      HandleRpm(v, p, inputs[0], true);
      SessionRpmAsWritten(v, Handle(v, p, inputs[0], true).p, inputs[1..]);
    }
  }

  /** As written, `Space` then a click on the power button, from the initial
      state, sends `STOP` and leaves the power off: the key press was lost and
      the click did the opposite of what the button showed. */
  lemma SpaceThenClickAsWritten(v: Variant)
    ensures var o := Session(v, Init, [Press(Space), PowerClick], true);
      o.sent == [Stop] && !o.p.powerOn
  {
    var q := KeyAsWritten(v, Init, Space).p;
    assert q.powerChecked && !q.powerOn;
  }

  /** With `Space` acting as a click, the same inputs send `RUN` and then
      `STOP`, and the power button shows the power throughout. */
  lemma SpaceThenClick(v: Variant)
    ensures var o := Session(v, Init, [Press(Space), PowerClick], false);
      o.sent == [Run, Stop] && !o.p.powerOn && !o.p.powerChecked
  {
    var q := KeyPress(v, Init, Space).p;
    assert q.powerOn && q.powerChecked;
  }
}
