/** The stand-alone motor panel of main.py: the same buttons and keys as the
    serial panels, with no serial port. The rpm is a number the panel keeps
    itself; switching the power off zeroes it. */
module LocalPanel {
  import opened Targets
  import opened Keys

  /** `RPM_MIN`, `RPM_MAX` and `RPM_STEP`. */
  const RpmMin: int := 0
  const RpmMax: int := 6000
  const RpmStep: int := 50

  /** `rpm`, `power_on`, `freq_running` and the checked state of the power and
      hold buttons. */
  datatype Panel = Panel(rpm: int, powerOn: bool, freqRunning: bool, powerChecked: bool, holdChecked: bool)

  const Init: Panel := Panel(0, false, true, false, false)

  /** `refresh_display`, which clamps the rpm to `[RPM_MIN, RPM_MAX]`. */
  function Refresh(p: Panel): (q: Panel)
    ensures RpmMin <= q.rpm <= RpmMax
    ensures RpmMin <= p.rpm <= RpmMax ==> q == p
    ensures q.rpm == Max(RpmMin, Min(RpmMax, p.rpm)) && q == p.(rpm := q.rpm)
  {
    p.(rpm := Max(RpmMin, Min(RpmMax, p.rpm)))
  }

  /** `update_ui_state`: with the power off the rpm goes to zero. */
  function UpdateUi(p: Panel): (q: Panel)
    ensures !p.powerOn ==> q == p.(rpm := 0)
    ensures p.powerOn ==> q == Refresh(p)
  {
    Refresh(if p.powerOn then p else p.(rpm := 0))
  }

  /** `on_toggle_power(checked)`. */
  function TogglePower(p: Panel, checked: bool): (q: Panel)
    ensures q.powerOn == checked && q.powerChecked == checked
    ensures !checked ==> q.rpm == 0
  {
    UpdateUi(p.(powerOn := checked, powerChecked := checked))
  }

  function ClickPower(p: Panel): Panel {
    TogglePower(p, !p.powerChecked)
  }

  /** `on_reset`: the rpm goes to zero while the power is on. */
  function OnReset(p: Panel): (q: Panel)
    ensures !p.powerOn ==> q == p
    ensures p.powerOn ==> q == p.(rpm := 0)
  {
    if !p.powerOn then p else Refresh(p.(rpm := 0))
  }

  /** `on_toggle_freq(checked)`: with the power off the hold button is
      unchecked again; otherwise the frequency runs exactly when the button is
      not checked. */
  function ToggleFreq(p: Panel, checked: bool): (q: Panel)
    ensures !p.powerOn ==> q == p.(holdChecked := false)
    ensures p.powerOn ==> q.freqRunning == !checked && q.holdChecked == checked && q.rpm == Refresh(p).rpm
  {
    if !p.powerOn then p.(holdChecked := false)
    else UpdateUi(p.(holdChecked := checked, freqRunning := !checked))
  }

  /** A click on the hold button, and the `S` key. */
  function ClickHold(p: Panel): Panel {
    ToggleFreq(p.(holdChecked := !p.holdChecked), !p.holdChecked)
  }

  /** `increase_rpm` and `decrease_rpm`: a step of `RPM_STEP`, clamped, only
      while the power is on and the frequency running. */
  function Adjust(p: Panel, delta: int): (q: Panel)
    ensures !(p.powerOn && p.freqRunning) ==> q == p
    ensures p.powerOn && p.freqRunning ==> q == p.(rpm := Max(RpmMin, Min(RpmMax, p.rpm + delta)))
  {
    if !(p.powerOn && p.freqRunning) then p else Refresh(p.(rpm := p.rpm + delta))
  }

  function Increase(p: Panel): Panel { Adjust(p, RpmStep) }
  function Decrease(p: Panel): Panel { Adjust(p, -RpmStep) }

  /** `keyPressEvent` as written: `Space` toggles the power button without
      emitting `clicked`, so the power handler does not run. */
  function KeyAsWritten(p: Panel, key: Key): Panel {
    match key
    case Space => p.(powerChecked := !p.powerChecked)
    case KeyR => OnReset(p)
    case KeyS => ClickHold(p)
    case Up => Increase(p)
    case Down => Decrease(p)
    case Other => p
  }

  /** `keyPressEvent` with `Space` acting as a click on the power button, as
      its tooltip ("Phím cách") says. */
  function KeyPress(p: Panel, key: Key): Panel {
    match key
    case Space => ClickPower(p)
    case _ => KeyAsWritten(p, key)
  }

  datatype Input = PowerClick | ResetClick | HoldClick | UpClick | DownClick | Press(key: Key)

  function Handle(p: Panel, i: Input, asWritten: bool): Panel {
    match i
    case PowerClick => ClickPower(p)
    case ResetClick => OnReset(p)
    case HoldClick => ClickHold(p)
    case UpClick => Increase(p)
    case DownClick => Decrease(p)
    case Press(key) => if asWritten then KeyAsWritten(p, key) else KeyPress(p, key)
  }

  function Session(p: Panel, inputs: seq<Input>, asWritten: bool): Panel
    decreases |inputs|
  {
    if inputs == [] then p else Session(Handle(p, inputs[0], asWritten), inputs[1..], asWritten)
  }

  /** What the panel shows is consistent: the rpm is a multiple of the step
      within `[RPM_MIN, RPM_MAX]`, zero while the power is off. */
  ghost predicate Shown(p: Panel) {
    RpmMin <= p.rpm <= RpmMax && p.rpm % RpmStep == 0 && (!p.powerOn ==> p.rpm == 0)
  }

  /** ... and the power button shows the power state. */
  ghost predicate Inv(p: Panel) {
    Shown(p) && p.powerChecked == p.powerOn
  }

  lemma HandleShown(p: Panel, i: Input, asWritten: bool)
    requires Shown(p)
    ensures Shown(Handle(p, i, asWritten))
  {
    match i
    case UpClick => AdjustShown(p, RpmStep);
    case DownClick => AdjustShown(p, -RpmStep);
    case Press(key) =>
      if key == Up {
        AdjustShown(p, RpmStep);
      } else if key == Down {
        AdjustShown(p, -RpmStep);
      }
    case _ =>
  }

  /** A step of the rpm lands on a multiple of the step again. */
  lemma AdjustShown(p: Panel, delta: int)
    requires Shown(p) && (delta == RpmStep || delta == -RpmStep)
    ensures Shown(Adjust(p, delta))
  {
    if p.powerOn && p.freqRunning {
      assert (p.rpm + delta) % RpmStep == 0;
    }
  }

  lemma HandleInv(p: Panel, i: Input)
    requires Inv(p)
    ensures Inv(Handle(p, i, false))
  {
    HandleShown(p, i, false);
  }

  /** With `Space` acting as a click, every run of inputs keeps the panel
      consistent. */
  lemma {:induction false} SessionInv(p: Panel, inputs: seq<Input>)
    requires Inv(p)
    ensures Inv(Session(p, inputs, false))
    decreases |inputs|
  {
    if inputs != [] {
      HandleInv(p, inputs[0]);
      SessionInv(Handle(p, inputs[0], false), inputs[1..]);
    }
  }

  /** As written, what is shown stays consistent, but not the power button. */
  lemma {:induction false} SessionShownAsWritten(p: Panel, inputs: seq<Input>)
    requires Shown(p)
    ensures Shown(Session(p, inputs, true))
    decreases |inputs|
  {
    if inputs != [] {
      HandleShown(p, inputs[0], true);
      SessionShownAsWritten(Handle(p, inputs[0], true), inputs[1..]);
    }
  }

  /** `k` steps up from a consistent, enabled panel reach the rpm
      `min(RPM_MAX, rpm + k * RPM_STEP)`. */
  lemma {:induction false} StepsUp(p: Panel, k: nat)
    requires p.powerOn && p.freqRunning && RpmMin <= p.rpm <= RpmMax
    ensures Session(p, seq(k, _ => UpClick), false) == p.(rpm := Min(RpmMax, p.rpm + k * RpmStep))
    decreases k
  {
    var ups := seq(k, _ => UpClick);
    if k > 0 {
      var q := Increase(p);
      assert ups[1..] == seq(k - 1, _ => UpClick);
      StepsUp(q, k - 1);
    }
  }

  /** As written, `Space` then the up arrow, from the initial state, leaves
      the power off and the rpm at zero. */
  lemma SpaceThenUpAsWritten()
    ensures var q := Session(Init, [Press(Space), Press(Up)], true);
      !q.powerOn && q.powerChecked && q.rpm == 0
  {
  }

  /** With `Space` acting as a click, the same keys power the panel on and
      raise the rpm by one step. */
  lemma SpaceThenUp()
    ensures var q := Session(Init, [Press(Space), Press(Up)], false);
      q.powerOn && q.powerChecked && q.rpm == RpmStep
  {
  }
}
