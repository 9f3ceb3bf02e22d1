/** The realtime charts of test/chart.py: each timer tick reads one line
    `volt,flow` from the serial port, and an accepted line adds one point to
    each chart and moves the x counter on; `save_csv` writes what was
    collected.

    The comparison tab (`ChartSSData`) keeps only the flow chart and reads
    only the second field. */
module LiveChart {
  import opened Wrappers
  import opened Text
  import opened Numbers

  /** The visible x range of a rolling chart. */
  datatype Range = Range(lo: int, hi: int)

  /** The widths of the voltage chart's and the flow chart's x axes. */
  const VoltWindow: int := 120
  const FlowWindow: int := 50

  /** The realtime tab: the counter `x`, `data1` (flow, volt) for the voltage
      chart, `data2` (x, flow) for the flow chart, and the two x axes. */
  datatype State = State(x: int, data1: seq<(real, real)>, data2: seq<(int, real)>, axis1: Range, axis2: Range)

  const Init: State := State(0, [], [], Range(0, VoltWindow), Range(0, FlowWindow))

  /** The two comma-separated fields of a line, if the stripped line is
      non-empty and has exactly two. */
  function Fields(line: string): (r: Option<(string, string)>)
    ensures r.Some? ==> Count(Strip(line), ',') == 1 && Split(Strip(line), ',') == [r.value.0, r.value.1]
  {
    var s := Strip(line);
    if s == [] then None
    else
      var parts := Split(s, ',');
      if |parts| != 2 then None else Some((parts[0], parts[1]))
  }

  /** The reading in a line: both fields must parse as floats; the result is
      (volt, flow). Anything else is dropped. */
  function Reading(line: string): (r: Option<(real, real)>)
    ensures r.Some? ==> Fields(line).Some?
    ensures r.Some? ==> ParseFloat(Fields(line).value.0) == Some(r.value.0)
    ensures r.Some? ==> ParseFloat(Fields(line).value.1) == Some(r.value.1)
  {
    match Fields(line)
    case None => None
    case Some((a, b)) =>
      var volt := ParseFloat(a);
      var flow := ParseFloat(b);
      if volt.None? || flow.None? then None else Some((volt.value, flow.value))
  }

  /** The rolling x axis: once the counter passes the width, the axis shows the
      last `width` units up to the counter. */
  function Roll(axis: Range, x: int, width: int): (r: Range)
    ensures x > width ==> r.hi == x && r.hi - r.lo == width
    ensures x <= width ==> r == axis
  {
    if x > width then Range(x - width, x) else axis
  }

  /** One accepted reading: the counter moves on, both charts get a point and
      the axes roll. */
  function Add(st: State, volt: real, flow: real): State {
    var x := st.x + 1;
    State(x, st.data1 + [(flow, volt)], st.data2 + [(x, flow)],
      Roll(st.axis1, x, VoltWindow), Roll(st.axis2, x, FlowWindow))
  }

  /** `ChartReadData.update_data` for the line read at one tick. */
  function Step(st: State, line: string): (r: State)
    ensures Reading(line).None? ==> r == st
    ensures Reading(line).Some? ==>
      && r.x == st.x + 1
      && r.data1 == st.data1 + [(Reading(line).value.1, Reading(line).value.0)]
      && r.data2 == st.data2 + [(r.x, Reading(line).value.1)]
  {
    match Reading(line)
    case None => st
    case Some((volt, flow)) => Add(st, volt, flow)
  }

  function Run(st: State, lines: seq<string>): State
    decreases |lines|
  {
    if lines == [] then st else Run(Step(st, lines[0]), lines[1..])
  }

  /** The axis a counter value leaves when every step moved it on by one. */
  function AxisAt(x: int, width: int): Range {
    if x > width then Range(x - width, x) else Range(0, width)
  }

  /** The two charts grow in lockstep: the counter is the number of points,
      the flow chart's i-th point is at x = i + 1 and has the flow of the
      voltage chart's i-th point, and each axis shows the last window ending
      at the counter (or the first window). */
  ghost predicate Inv(st: State) {
    && st.x == |st.data1| == |st.data2|
    && (forall i :: 0 <= i < |st.data2| ==> st.data2[i].0 == i + 1 && st.data2[i].1 == st.data1[i].0)
    && st.axis1 == AxisAt(st.x, VoltWindow)
    && st.axis2 == AxisAt(st.x, FlowWindow)
  }

  lemma AddInv(st: State, volt: real, flow: real)
    requires Inv(st)
    ensures Inv(Add(st, volt, flow))
  {
    var r := Add(st, volt, flow);
    assert forall i :: 0 <= i < |st.data2| ==> r.data2[i] == st.data2[i] && r.data1[i] == st.data1[i];
  }

  lemma StepInv(st: State, line: string)
    requires Inv(st)
    ensures Inv(Step(st, line))
  {
    match Reading(line)
    case None =>
    case Some((volt, flow)) => AddInv(st, volt, flow);
  }

  /** The readings of the accepted lines, in order. */
  function Readings(lines: seq<string>): seq<(real, real)>
    decreases |lines|
  {
    if lines == [] then []
    else
      var rest := Readings(lines[1..]);
      match Reading(lines[0])
      case None => rest
      case Some(v) => [v] + rest
  }

  /** Adding readings one after another. */
  function Feed(st: State, rs: seq<(real, real)>): State
    decreases |rs|
  {
    if rs == [] then st else Feed(Add(st, rs[0].0, rs[0].1), rs[1..])
  }

  /** A run of lines is the feeding of its accepted readings. */
  lemma {:induction false} RunFeed(st: State, lines: seq<string>)
    ensures Run(st, lines) == Feed(st, Readings(lines))
    decreases |lines|
  {
    if lines != [] {
      RunFeed(Step(st, lines[0]), lines[1..]);
      match Reading(lines[0])
      case None =>
      case Some(v) =>
        var rs := Readings(lines);
        assert rs == [v] + Readings(lines[1..]);
        assert rs[0] == v && rs[1..] == Readings(lines[1..]);
    }
  }

  /** From a consistent state, feeding readings keeps the charts consistent and
      adds exactly those readings, as (flow, volt) points. */
  lemma {:induction false} FeedData(st: State, rs: seq<(real, real)>)
    requires Inv(st)
    ensures Inv(Feed(st, rs))
    ensures Feed(st, rs).x == st.x + |rs|
    ensures var d := Feed(st, rs).data1;
      && |d| == |st.data1| + |rs|
      && d[..|st.data1|] == st.data1
      && forall i :: 0 <= i < |rs| ==> d[|st.data1| + i] == (rs[i].1, rs[i].0)
    decreases |rs|
  {
    if rs != [] {
      var next := Add(st, rs[0].0, rs[0].1);
      AddInv(st, rs[0].0, rs[0].1);
      FeedData(next, rs[1..]);
      var d := Feed(next, rs[1..]).data1;
      assert d[..|st.data1|] == d[..|next.data1|][..|st.data1|];
      forall i | 0 <= i < |rs|
        ensures d[|st.data1| + i] == (rs[i].1, rs[i].0)
      {
        if i == 0 {
          assert d[|st.data1|] == d[..|next.data1|][|st.data1|];
        } else {
          assert d[|st.data1| + i] == d[|next.data1| + (i - 1)];
        }
      }
    }
  }

  /** From any consistent state, a run of lines keeps the charts consistent
      and adds exactly the accepted readings. */
  lemma RunReadings(st: State, lines: seq<string>)
    requires Inv(st)
    ensures Inv(Run(st, lines))
    ensures Run(st, lines).x == st.x + |Readings(lines)|
    ensures var d := Run(st, lines).data1;
      var rs := Readings(lines);
      && |d| == |st.data1| + |rs|
      && d[..|st.data1|] == st.data1
      && forall i :: 0 <= i < |rs| ==> d[|st.data1| + i] == (rs[i].1, rs[i].0)
  {
    RunFeed(st, lines);
    FeedData(st, Readings(lines));
  }

  /** `ChartSSData.update_data`: the same acceptance, except that only the
      second field is parsed. */
  function FlowReading(line: string): (r: Option<real>)
    ensures r.Some? ==> Fields(line).Some? && ParseFloat(Fields(line).value.1) == Some(r.value)
  {
    match Fields(line)
    case None => None
    case Some((_, b)) => ParseFloat(b)
  }

  /** Every line the realtime tab accepts, the comparison tab accepts with the
      same flow; the comparison tab also takes lines whose first field is not
      a number. */
  lemma CompareAcceptsMore(line: string)
    ensures Reading(line).Some? ==> FlowReading(line) == Some(Reading(line).value.1)
  {
  }

  /** A line of two comma-free float texts, with nothing blank at its ends,
      is accepted and read back as those two floats. */
  lemma ReadingOfLine(a: string, b: string, va: real, vb: real)
    requires |a| >= 1 && ',' !in a && !IsSpace(a[0])
    requires |b| >= 1 && ',' !in b && !IsSpace(b[|b| - 1])
    requires ParseFloat(a) == Some(va) && ParseFloat(b) == Some(vb)
    ensures Reading(a + "," + b) == Some((va, vb))
  {
    FieldsOfLine(a, b);
    ReadingOfFields(a + "," + b, a, b, va, vb);
  }

  lemma FieldsOfLine(a: string, b: string)
    requires |a| >= 1 && ',' !in a && !IsSpace(a[0])
    requires |b| >= 1 && ',' !in b && !IsSpace(b[|b| - 1])
    ensures Fields(a + "," + b) == Some((a, b))
  {
    PairShape(a, b);
  }

  lemma ReadingOfFields(line: string, a: string, b: string, va: real, vb: real)
    requires Fields(line) == Some((a, b))
    requires ParseFloat(a) == Some(va) && ParseFloat(b) == Some(vb)
    ensures Reading(line) == Some((va, vb))
  {
  }

  /** Two comma-free, non-blank-ended fields joined by a comma survive
      `strip()` and split back into the two fields. */
  lemma PairShape(a: string, b: string)
    requires |a| >= 1 && ',' !in a && !IsSpace(a[0])
    requires |b| >= 1 && ',' !in b && !IsSpace(b[|b| - 1])
    ensures Strip(a + "," + b) == a + "," + b
    ensures Split(a + "," + b, ',') == [a, b]
  {
    PairStripped(a, b);
    PairSplits(a, b);
  }

  lemma PairStripped(a: string, b: string)
    requires |a| >= 1 && !IsSpace(a[0])
    requires |b| >= 1 && !IsSpace(b[|b| - 1])
    ensures Stripped(a + "," + b)
  {
    var line := a + "," + b;
    assert line[0] == a[0];
    assert line[|line| - 1] == b[|b| - 1];
  }

  lemma PairSplits(a: string, b: string)
    requires ',' !in a && ',' !in b
    ensures Split(a + "," + b, ',') == [a, b]
  {
    assert Join([a, b], ',') == a + "," + b;
    SplitJoin([a, b], ',');
  }

  // ---------------------------------------------------------------------
  // save_csv

  /** A CSV cell: a float, or the empty string `''` that pads a shorter
      series. */
  datatype Cell = Num(value: real) | Blank

  /** The header `save_csv` writes. */
  const SavedHeader: seq<string> := ["Voltage(V)", "Flow(g/s)"]

  /** `save_csv`'s rows: row i holds the voltage of `data1[i]` and the flow of
      `data2[i]`, as many rows as the longer series, blanks for the shorter. */
  function SaveRows(data1: seq<(real, real)>, data2: seq<(int, real)>): (rows: seq<seq<Cell>>)
    ensures |rows| == (if |data1| >= |data2| then |data1| else |data2|)
    ensures forall i :: 0 <= i < |rows| ==> |rows[i]| == 2
    ensures forall i :: 0 <= i < |rows| ==> (rows[i][0].Blank? <==> i >= |data1|) && (rows[i][1].Blank? <==> i >= |data2|)
  {
    var n := if |data1| >= |data2| then |data1| else |data2|;
    seq(n, i requires 0 <= i < n =>
      [if i < |data1| then Num(data1[i].1) else Blank, if i < |data2| then Num(data2[i].1) else Blank])
  }

  /** What a session saves is what it read: from the initial state, the saved
      rows are the accepted readings in order, `volt,flow`, with no blanks. */
  lemma SavedSession(lines: seq<string>)
    ensures var st := Run(Init, lines);
      var rows := SaveRows(st.data1, st.data2);
      var rs := Readings(lines);
      && |rows| == |rs|
      && forall i :: 0 <= i < |rs| ==> rows[i] == [Num(rs[i].0), Num(rs[i].1)]
  {
    RunReadings(Init, lines);
    var st := Run(Init, lines);
    var rs := Readings(lines);
    assert forall i :: 0 <= i < |rs| ==> st.data1[i] == st.data1[|Init.data1| + i];
  }
}
