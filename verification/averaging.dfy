/** The reduction of one averaging window to a CSV row (save_data/run.py):
    the mean of each column of the bucket, rounded, and the derived
    `analog = volt2_avg * 1023 / 5`.

    `statistics.mean` of floats is the exact mean rounded once to a float; over
    the reals it is the exact mean. */
module Averaging {
  import opened Wrappers
  import opened Numbers
  import opened StatusLine

  function Sum(xs: seq<real>): real
    decreases |xs|
  {
    if xs == [] then 0.0 else Sum(xs[..|xs| - 1]) + xs[|xs| - 1]
  }

  /** `statistics.mean(xs)`. */
  function Mean(xs: seq<real>): real
    requires |xs| > 0
  {
    Sum(xs) / |xs| as real
  }

  /** Values between two bounds add up to between `n` times each bound. */
  lemma {:induction false} SumBounds(xs: seq<real>, lo: real, hi: real)
    requires forall i :: 0 <= i < |xs| ==> lo <= xs[i] <= hi
    ensures |xs| as real * lo <= Sum(xs) <= |xs| as real * hi
    decreases |xs|
  {
    if xs != [] {
      var init := xs[..|xs| - 1];
      assert forall i :: 0 <= i < |init| ==> init[i] == xs[i];
      SumBounds(init, lo, hi);
      assert |xs| as real * lo == |init| as real * lo + lo;
      assert |xs| as real * hi == |init| as real * hi + hi;
    }
  }

  /** The mean lies between any bounds of the values. */
  lemma MeanBounds(xs: seq<real>, lo: real, hi: real)
    requires |xs| > 0
    requires forall i :: 0 <= i < |xs| ==> lo <= xs[i] <= hi
    ensures lo <= Mean(xs) <= hi
  {
    SumBounds(xs, lo, hi);
    var n := |xs| as real;
    DivBounds(Sum(xs), n, lo, hi);
  }

  lemma DivBounds(s: real, n: real, lo: real, hi: real)
    requires n > 0.0 && n * lo <= s <= n * hi
    ensures lo <= s / n <= hi
  {
  }

  /** The mean of equal values is that value. */
  lemma MeanConstant(xs: seq<real>, c: real)
    requires |xs| > 0
    requires forall i :: 0 <= i < |xs| ==> xs[i] == c
    ensures Mean(xs) == c
  {
    MeanBounds(xs, c, c);
  }

  /** The columns of a bucket entry `(rpm, flow1, volt1, flow2, volt2)`. */
  datatype Column = Rpm | Flow1 | Volt1 | Flow2 | Volt2

  function Get(t: Telemetry, c: Column): real {
    match c
    case Rpm => t.rpm
    case Flow1 => t.flow1
    case Volt1 => t.volt1
    case Flow2 => t.flow2
    case Volt2 => t.volt2
  }

  /** `[x[k] for x in bucket]`. */
  function Values(bucket: seq<Telemetry>, c: Column): (xs: seq<real>)
    ensures |xs| == |bucket|
    ensures forall i :: 0 <= i < |bucket| ==> xs[i] == Get(bucket[i], c)
  {
    seq(|bucket|, i requires 0 <= i < |bucket| => Get(bucket[i], c))
  }

  /** The rounding of a row: the sweep rounds the flow and the voltages to two
      decimals and scales the flow by 3.6; the fixed and ramp windows round
      them to six decimals and do not scale. */
  datatype Precision = Precision(digits: nat, flowScale: real)

  const SweepPrecision := Precision(2, 3.6)
  const WindowPrecision := Precision(6, 1.0)

  /** A CSV row `hz, rpm, flowABB, voltABB, voltMaf, analog`. */
  datatype Row = Row(hz: int, rpm: real, flow1: real, volt1: real, volt2: real, analog: real)

  /** The row written for a window: none for an empty bucket; otherwise the
      target, the rounded means, and `analog` from the rounded `volt2`. */
  function Reduce(target: int, bucket: seq<Telemetry>, p: Precision): (r: Option<Row>)
    ensures r.Some? <==> |bucket| > 0
    ensures r.Some? ==> r.value.hz == target
    ensures r.Some? ==> Near(r.value.rpm, Mean(Values(bucket, Rpm)), 3)
    ensures r.Some? ==> Near(r.value.flow1, Mean(Values(bucket, Flow1)) * p.flowScale, p.digits)
    ensures r.Some? ==> Near(r.value.volt1, Mean(Values(bucket, Volt1)), p.digits)
    ensures r.Some? ==> Near(r.value.volt2, Mean(Values(bucket, Volt2)), p.digits)
    ensures r.Some? ==> Near(r.value.analog, r.value.volt2 * 1023.0 / 5.0, 3)
  {
    if bucket == [] then None
    else
      var volt2 := RoundTo(Mean(Values(bucket, Volt2)), p.digits);
      Some(Row(
        target,
        RoundTo(Mean(Values(bucket, Rpm)), 3),
        RoundTo(Mean(Values(bucket, Flow1)) * p.flowScale, p.digits),
        RoundTo(Mean(Values(bucket, Volt1)), p.digits),
        volt2,
        RoundTo(volt2 * 1023.0 / 5.0, 3)))
  }

  /** In the sweep, where `volt2_avg` has two decimals, the rounding of
      `analog` to three decimals changes nothing: `analog` is exactly
      `volt2_avg * 1023 / 5`. */
  lemma SweepAnalogExact(target: int, bucket: seq<Telemetry>)
    requires |bucket| > 0
    ensures Reduce(target, bucket, SweepPrecision).value.analog ==
      Reduce(target, bucket, SweepPrecision).value.volt2 * 1023.0 / 5.0
  {
    var m := Mean(Values(bucket, Volt2));
    var r := Reduce(target, bucket, SweepPrecision).value;
    assert r.volt2 == RoundTo(m, 2);
    assert r.analog == RoundTo(RoundTo(m, 2) * 1023.0 / 5.0, 3);
    AnalogOfHundredths(m);
  }

  /** A voltage rounded to two decimals gives an `analog` value that rounding
      to three decimals leaves unchanged. */
  lemma AnalogOfHundredths(m: real)
    ensures RoundTo(RoundTo(m, 2) * 1023.0 / 5.0, 3) == RoundTo(m, 2) * 1023.0 / 5.0
  {
    var v := RoundTo(m, 2);
    var k := RoundHalfEven(m * 100.0);
    assert v * 100.0 == k as real by {
      TwoDecimals(m);
    }
    var a := v * 1023.0 / 5.0;
    assert (a * 1000.0).Floor as real == a * 1000.0 by {
      AnalogScale(v, k);
    }
    assert RoundAt(a, 1000.0) == a by {
      RoundAtExact(a, 1000.0);
    }
    assert RoundTo(a, 3) == RoundAt(a, 1000.0) by {
      assert Pow10(3) == 1000;
    }
  }

  /** A value rounded to two decimals is a whole number of hundredths. */
  lemma TwoDecimals(m: real)
    ensures RoundTo(m, 2) * 100.0 == RoundHalfEven(m * 100.0) as real
  {
    assert Pow10(2) == 100;
  }

  lemma AnalogScale(v: real, k: int)
    requires v * 100.0 == k as real
    ensures (v * 1023.0 / 5.0) * 1000.0 == (k * 2046) as real
    ensures ((v * 1023.0 / 5.0) * 1000.0).Floor as real == (v * 1023.0 / 5.0) * 1000.0
  {
    assert v * 1023.0 / 5.0 == v * 204.6;
    assert (v * 204.6) * 1000.0 == (v * 100.0) * 2046.0;
    assert (v * 100.0) * 2046.0 == k as real * 2046.0;
    assert k as real * 2046.0 == (k * 2046) as real;
    IntFloor(k * 2046);
  }

  lemma IntFloor(n: int)
    ensures (n as real).Floor == n
  {
  }

  /** A window whose samples all agree gives those values back, up to
      rounding. */
  lemma ReduceSteady(target: int, bucket: seq<Telemetry>, t: Telemetry)
    requires |bucket| > 0
    requires forall i :: 0 <= i < |bucket| ==> bucket[i] == t
    ensures Near(Reduce(target, bucket, WindowPrecision).value.rpm, t.rpm, 3)
    ensures Near(Reduce(target, bucket, WindowPrecision).value.volt2, t.volt2, 6)
  {
    MeanConstant(Values(bucket, Rpm), t.rpm);
    MeanConstant(Values(bucket, Volt2), t.volt2);
  }
}
