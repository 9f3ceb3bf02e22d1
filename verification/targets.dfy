/** The frequency targets the acquisition scripts set on the drive: the clamp
    to the drive's range, the sweep list of `run.py`, and the ramp advance
    shared by `run.py` and `save_data.py`. */
module Targets {
  const HzMin: int := 0
  const HzMax: int := 60

  function Min(a: int, b: int): int { if a <= b then a else b }
  function Max(a: int, b: int): int { if a >= b then a else b }

  /** `max(0, min(60, hz))`. */
  function ClampHz(hz: int): (r: int)
    ensures HzMin <= r <= HzMax
    ensures HzMin <= hz <= HzMax ==> r == hz
    ensures hz < HzMin ==> r == HzMin
    ensures hz > HzMax ==> r == HzMax
  {
    Max(HzMin, Min(HzMax, hz))
  }

  lemma ClampIdempotent(hz: int)
    ensures ClampHz(ClampHz(hz)) == ClampHz(hz)
  {
  }

  lemma ClampMonotone(a: int, b: int)
    requires a <= b
    ensures ClampHz(a) <= ClampHz(b)
  {
  }

  /** Python's `range(start, stop, step)` for a positive step. */
  function PyRange(start: int, stop: int, step: int): (r: seq<int>)
    requires step > 0
    ensures forall i :: 0 <= i < |r| ==> start <= r[i] < stop
    ensures forall i :: 0 < i < |r| ==> r[i] == r[i - 1] + step
    ensures |r| > 0 ==> r[0] == start && r[|r| - 1] + step >= stop
    ensures |r| == 0 <==> start >= stop
    decreases stop - start
  {
    if start >= stop then []
    else
      var rest := PyRange(start + step, stop, step);
      var r := [start] + rest;
      assert forall i :: 1 <= i < |r| ==> r[i] == rest[i - 1];
      r
  }

  /** A value is in `range(start, stop, step)` exactly when it lies in
      `[start, stop)` a whole number of steps above `start`: the closed form the
      recursive definition is checked against. */
  /** `x` lies in `[start, stop)` a whole number of steps above `start`. */
  predicate OnGrid(x: int, start: int, stop: int, step: int)
    requires step > 0
  {
    start <= x < stop && (x - start) % step == 0
  }

  lemma {:induction false} RangeMembers(start: int, stop: int, step: int, x: int)
    requires step > 0
    ensures x in PyRange(start, stop, step) <==> OnGrid(x, start, stop, step)
    decreases stop - start
  {
    if start < stop {
      assert x in PyRange(start + step, stop, step) <==> OnGrid(x, start + step, stop, step) by {
        RangeMembers(start + step, stop, step, x);
      }
      RangeMembersStep(start, stop, step, x);
    }
  }

  /** The step of `RangeMembers`, from the range after `start` to the range
      from `start`. */
  lemma RangeMembersStep(start: int, stop: int, step: int, x: int)
    requires step > 0 && start < stop
    requires x in PyRange(start + step, stop, step) <==> OnGrid(x, start + step, stop, step)
    ensures x in PyRange(start, stop, step) <==> OnGrid(x, start, stop, step)
  {
    var rest := PyRange(start + step, stop, step);
    assert PyRange(start, stop, step) == [start] + rest;
    assert x in [start] + rest <==> x == start || x in rest;
    ModStep(x - start, step);
    if start < x < start + step {
      ModSmall(x - start, step);
    }
    if x == start {
      ModSmall(0, step);
    }
  }

  lemma ModStep(a: int, s: int)
    requires s > 0
    ensures (a - s) % s == a % s
  {
    var q, r := a / s, a % s;
    assert a - s == (q - 1) * s + r;
    ModUnique(a - s, s, q - 1, r);
  }

  /** Euclidean division has one quotient and one remainder. */
  lemma ModUnique(a: int, s: int, q: int, r: int)
    requires s > 0 && a == q * s + r && 0 <= r < s
    ensures a % s == r
  {
    var q', r' := a / s, a % s;
    assert (q - q') * s == r' - r;
    if q - q' >= 1 {
      MulMono(1, q - q', s);
    } else if q - q' <= -1 {
      MulMono(q - q', -1, s);
    }
  }

  lemma MulMono(i: int, j: int, s: int)
    requires i <= j && s > 0
    ensures i * s <= j * s
  {
  }

  lemma ModSmall(a: int, s: int)
    requires 0 <= a < s
    ensures a % s == a
  {
  }

  /** The sweep list: `range(clamp(start), clamp(stop) + 1, max(1, step))`. */
  function SweepTargets(start: int, stop: int, step: int): seq<int> {
    PyRange(ClampHz(start), ClampHz(stop) + 1, Max(1, step))
  }

  /** The sweep list is strictly increasing in steps of `max(1, step)`, lies in
      the drive's range, starts at the clamped start, ends at or below the
      clamped stop, and is empty exactly when the clamped start exceeds the
      clamped stop. */
  lemma SweepShape(start: int, stop: int, step: int)
    ensures var r := SweepTargets(start, stop, step);
      && (forall i :: 0 <= i < |r| ==> HzMin <= r[i] <= HzMax)
      && (forall i :: 0 < i < |r| ==> r[i] == r[i - 1] + Max(1, step))
      && Increasing(r)
      && (|r| > 0 ==> r[0] == ClampHz(start) && r[|r| - 1] <= ClampHz(stop))
      && (|r| == 0 <==> ClampHz(start) > ClampHz(stop))
  {
    StepsIncrease(SweepTargets(start, stop, step), |SweepTargets(start, stop, step)|);
  }

  predicate Increasing(r: seq<int>) {
    forall i, j :: 0 <= i < j < |r| ==> r[i] < r[j]
  }

  /** Increasing consecutive pairs make the first `n` values strictly
      increasing. */
  lemma {:induction false} StepsIncrease(r: seq<int>, n: nat)
    requires n <= |r|
    requires forall i :: 0 < i < |r| ==> r[i - 1] < r[i]
    ensures forall i, j :: 0 <= i < j < n ==> r[i] < r[j]
  {
    if n > 0 {
      StepsIncrease(r, n - 1);
      assert forall i :: 0 <= i < n - 1 ==> r[i] < r[n - 1] by {
        if n >= 2 {
          assert r[n - 2] < r[n - 1];
        }
      }
    }
  }

  /** Exactly the values from the clamped start to the clamped stop that lie a
      whole number of steps above the start are swept. */
  lemma SweepMembers(start: int, stop: int, step: int, hz: int)
    ensures hz in SweepTargets(start, stop, step) <==>
      ClampHz(start) <= hz <= ClampHz(stop) && (hz - ClampHz(start)) % Max(1, step) == 0
  {
    RangeMembers(ClampHz(start), ClampHz(stop) + 1, Max(1, step), hz);
  }

  /** One ramp advance: `min(ramp_stop, target + ramp_step)` while the target is
      below `ramp_stop`, the target unchanged otherwise. */
  function RampAdvance(target: int, stop: int, step: int): (r: int)
    ensures target < stop ==> r <= stop
    ensures target >= stop ==> r == target
    ensures step >= 0 ==> target <= r
  {
    if target < stop then Min(stop, target + step) else target
  }

  /** The target after `n` ramp advances. */
  function Ramp(target: int, stop: int, step: int, n: nat): int {
    if n == 0 then target else RampAdvance(Ramp(target, stop, step, n - 1), stop, step)
  }

  /** With a non-negative step, starting at or below the stop, the target after
      `n` advances is `min(stop, start + n * step)`. */
  lemma {:induction false} RampClosedForm(start: int, stop: int, step: int, n: nat)
    requires step >= 0 && start <= stop
    ensures Ramp(start, stop, step, n) == Min(stop, start + n * step)
  {
    if n > 0 {
      RampClosedForm(start, stop, step, n - 1);
      assert start + n * step == start + (n - 1) * step + step;
    }
  }

  /** With a non-negative step the ramp never goes down and never passes the
      larger of its start and its stop. */
  lemma {:induction false} RampBounded(start: int, stop: int, step: int, n: nat)
    requires step >= 0
    ensures start <= Ramp(start, stop, step, n) <= Max(start, stop)
    ensures Ramp(start, stop, step, n) <= Ramp(start, stop, step, n + 1)
  {
    if n > 0 {
      RampBounded(start, stop, step, n - 1);
    }
  }

  /** The ramp target is not clamped after the start: a `ramp_stop` above the
      drive's range is reached. */
  lemma RampLeavesRange()
    ensures Ramp(ClampHz(10), 100, 5, 11) == 65 > HzMax
  {
    RampClosedForm(10, 100, 5, 11);
  }
}
