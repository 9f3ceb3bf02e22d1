/** `ChartSSData.load_csv_to_linechart` of test/chart.py: the comparison tab
    reads a CSV file of (flow, voltage) measurements, finds its header row and
    its two columns by keyword, keeps the rows whose two cells parse, and
    plots voltage against flow on axes widened to a non-empty range.

    The file is given as its rows (lists of cells) and whether it exists. */
module ChartCsv {
  import opened Wrappers
  import opened Text
  import opened Numbers
  import opened Targets
  import LiveChart

  type Row = seq<string>

  /** The words that mark the flow column and the voltage column. */
  const FlowKeys: seq<string> := ["lưu lượng", "luu luong", "flow"]
  const VoltKeys: seq<string> := ["volt", "điện áp", "dien ap", "voltage"]

  /** How a cell is compared with the keywords: `c.strip().lower()`. */
  function Low(cell: string): string {
    Lower(Strip(cell))
  }

  /** `any(k in name for k in keys)`. */
  function MentionsAny(name: string, keys: seq<string>): bool
    decreases |keys|
  {
    keys != [] && (Has(name, keys[0]) || MentionsAny(name, keys[1..]))
  }

  /** A name mentions a list of keywords exactly when one of them occurs in
      it. */
  lemma {:induction false} MentionsAnyMeans(name: string, keys: seq<string>)
    ensures MentionsAny(name, keys) <==> exists k :: 0 <= k < |keys| && Contains(name, keys[k])
    decreases |keys|
  {
    if keys != [] {
      MentionsAnyMeans(name, keys[1..]);
      if MentionsAny(name, keys[1..]) {
        var k :| 0 <= k < |keys[1..]| && Contains(name, keys[1..][k]);
        assert Contains(name, keys[k + 1]);
      }
      if exists k :: 0 <= k < |keys| && Contains(name, keys[k]) {
        var k :| 0 <= k < |keys| && Contains(name, keys[k]);
        if k > 0 {
          assert keys[k] == keys[1..][k - 1];
        }
      }
    }
  }

  /** The cells of a row as they are compared with the keywords. */
  function LowRow(row: Row): (names: seq<string>)
    ensures |names| == |row| && forall j :: 0 <= j < |row| ==> names[j] == Low(row[j])
  {
    seq(|row|, j requires 0 <= j < |row| => Low(row[j]))
  }

  /** `find_idx(keys)` over lowered names, from column `from` on. */
  function FindFrom(names: seq<string>, keys: seq<string>, from: nat): (r: Option<nat>)
    ensures r.Some? ==> from <= r.value < |names| && MentionsAny(names[r.value], keys)
    ensures r.Some? ==> forall j :: from <= j < r.value ==> !MentionsAny(names[j], keys)
    ensures r.None? ==> forall j :: from <= j < |names| ==> !MentionsAny(names[j], keys)
    decreases |names| - from
  {
    if from >= |names| then None
    else if MentionsAny(names[from], keys) then Some(from)
    else FindFrom(names, keys, from + 1)
  }

  /** `find_idx(keys)`: the first column whose lowered name mentions a
      keyword. */
  function FindIdx(names: seq<string>, keys: seq<string>): Option<nat> {
    FindFrom(names, keys, 0)
  }

  /** A header names both a flow column and a voltage column. */
  predicate IsHeader(row: Row) {
    var names := LowRow(row);
    FindIdx(names, FlowKeys).Some? && FindIdx(names, VoltKeys).Some?
  }

  /** The header search over `rows[:10]`, from row `from` on. */
  function FirstHeader(rows: seq<Row>, from: nat): (r: Option<nat>)
    ensures r.Some? ==> from <= r.value < Min(10, |rows|) && IsHeader(rows[r.value])
    ensures r.Some? ==> forall i :: from <= i < r.value ==> !IsHeader(rows[i])
    ensures r.None? ==> forall i :: from <= i < Min(10, |rows|) ==> !IsHeader(rows[i])
    decreases 10 - from
  {
    if from >= Min(10, |rows|) then None
    else if IsHeader(rows[from]) then Some(from)
    else FirstHeader(rows, from + 1)
  }

  /** The header row: the first of the first ten rows that names both
      columns, else row 2 when there are more than two rows, else row 0. */
  function HeaderIndex(rows: seq<Row>): (h: nat)
    requires |rows| > 0
    ensures h < |rows|
    ensures (exists i :: 0 <= i < Min(10, |rows|) && IsHeader(rows[i])) ==>
      IsHeader(rows[h]) && h < 10 && forall i :: 0 <= i < h ==> !IsHeader(rows[i])
    ensures (forall i :: 0 <= i < Min(10, |rows|) ==> !IsHeader(rows[i])) ==>
      h == (if |rows| > 2 then 2 else 0)
  {
    match FirstHeader(rows, 0)
    case Some(h) => h
    case None => if |rows| > 2 then 2 else 0
  }

  /** The two chosen columns. */
  datatype Columns = Columns(flow: nat, volt: nat)

  /** `find_idx(keys) or default`: Python's `or` also replaces a found column
      0, which is falsy. */
  function PyOr(found: Option<nat>, default: nat): (r: nat)
    ensures found.Some? && found.value != 0 ==> r == found.value
    ensures found.None? || found.value == 0 ==> r == default
  {
    if found.Some? && found.value != 0 then found.value else default
  }

  /** The columns as written: `find_idx(flow) or 0`, `find_idx(volt) or 1`. */
  function ColumnsAsWritten(names: seq<string>): Columns {
    Columns(PyOr(FindIdx(names, FlowKeys), 0), PyOr(FindIdx(names, VoltKeys), 1))
  }

  /** The columns as intended: the column found, else the default. */
  function ChooseColumns(names: seq<string>): (c: Columns)
    ensures FindIdx(names, FlowKeys).Some? ==> c.flow < |names| && MentionsAny(names[c.flow], FlowKeys)
    ensures FindIdx(names, VoltKeys).Some? ==> c.volt < |names| && MentionsAny(names[c.volt], VoltKeys)
    ensures FindIdx(names, FlowKeys).None? ==> c.flow == 0
    ensures FindIdx(names, VoltKeys).None? ==> c.volt == 1
  {
    Columns(FindIdx(names, FlowKeys).Or(0), FindIdx(names, VoltKeys).Or(1))
  }

  /** The code as written picks the same flow column, and the same voltage
      column exactly unless the voltage column found is column 0. */
  lemma AsWrittenDiffers(names: seq<string>)
    ensures ColumnsAsWritten(names).flow == ChooseColumns(names).flow
    ensures ColumnsAsWritten(names) != ChooseColumns(names) <==> FindIdx(names, VoltKeys) == Some(0)
  {
  }

  /** The value of a data cell: `float(str(cell).replace(",", "."))`. */
  function CellValue(cell: string): Option<real> {
    ParseFloat(ReplaceChar(cell, ',', '.'))
  }

  /** The point a data row gives: none when it is too short for the chosen
      columns or a cell does not parse. */
  function RowPoint(r: Row, c: Columns): (p: Option<(real, real)>)
    ensures p.Some? ==> c.flow < |r| && c.volt < |r|
    ensures p.Some? ==> CellValue(r[c.flow]) == Some(p.value.0) && CellValue(r[c.volt]) == Some(p.value.1)
    ensures c.flow < |r| && c.volt < |r| && CellValue(r[c.flow]).Some? && CellValue(r[c.volt]).Some? ==> p.Some?
  {
    if |r| <= Max(c.flow, c.volt) then None
    else
      match (CellValue(r[c.flow]), CellValue(r[c.volt]))
      case (Some(x), Some(y)) => Some((x, y))
      case _ => None
  }

  /** The values present in a list of optional values, in order. */
  function Somes<T>(os: seq<Option<T>>): (vs: seq<T>)
    ensures |vs| <= |os|
    decreases |os|
  {
    if os == [] then []
    else if os[0].Some? then [os[0].value] + Somes(os[1..])
    else Somes(os[1..])
  }

  /** Every value kept was present, and every value present is kept. */
  lemma {:induction false} SomesMembers<T>(os: seq<Option<T>>)
    ensures forall v :: v in Somes(os) ==> Some(v) in os
    ensures forall i :: 0 <= i < |os| && os[i].Some? ==> os[i].value in Somes(os)
    decreases |os|
  {
    if os != [] {
      SomesMembers(os[1..]);
      assert forall i :: 1 <= i < |os| ==> os[i] == os[1..][i - 1];
      assert forall o :: o in os[1..] ==> o in os;
    }
  }

  lemma {:induction false} SomesAppend<T>(a: seq<Option<T>>, b: seq<Option<T>>)
    ensures Somes(a + b) == Somes(a) + Somes(b)
    decreases |a|
  {
    if a != [] {
      assert (a + b)[0] == a[0];
      assert (a + b)[1..] == a[1..] + b;
      SomesAppend(a[1..], b);
      if a[0].Some? {
        assert Somes(a + b) == [a[0].value] + Somes(a[1..] + b);
        assert Somes(a) == [a[0].value] + Somes(a[1..]);
      } else {
        assert Somes(a + b) == Somes(a[1..] + b);
        assert Somes(a) == Somes(a[1..]);
      }
    } else {
      assert a + b == b;
    }
  }

  /** What each data row gives. */
  function RowPoints(rows: seq<Row>, c: Columns): (os: seq<Option<(real, real)>>)
    ensures |os| == |rows| && forall i :: 0 <= i < |rows| ==> os[i] == RowPoint(rows[i], c)
  {
    seq(|rows|, i requires 0 <= i < |rows| => RowPoint(rows[i], c))
  }

  /** The points of the data rows, in order. */
  function Points(rows: seq<Row>, c: Columns): seq<(real, real)> {
    Somes(RowPoints(rows, c))
  }

  /** Every plotted point comes from a row, and every row that gives a point is
      plotted. */
  lemma PointsFromRows(rows: seq<Row>, c: Columns)
    ensures forall p :: p in Points(rows, c) ==> exists i :: 0 <= i < |rows| && RowPoint(rows[i], c) == Some(p)
    ensures forall i :: 0 <= i < |rows| && RowPoint(rows[i], c).Some? ==> RowPoint(rows[i], c).value in Points(rows, c)
  {
    var os := RowPoints(rows, c);
    SomesMembers(os);
    forall p | p in Points(rows, c)
      ensures exists i :: 0 <= i < |rows| && RowPoint(rows[i], c) == Some(p)
    {
      var i :| 0 <= i < |os| && os[i] == Some(p);
    }
  }

  /** Rows read one file after another give their points one after another. */
  lemma PointsAppend(a: seq<Row>, b: seq<Row>, c: Columns)
    ensures Points(a + b, c) == Points(a, c) + Points(b, c)
  {
    var os := RowPoints(a + b, c);
    var oa := RowPoints(a, c);
    var ob := RowPoints(b, c);
    forall i | 0 <= i < |os|
      ensures os[i] == (oa + ob)[i]
    {
      if i < |a| {
        assert (a + b)[i] == a[i];
      } else {
        assert (a + b)[i] == b[i - |a|];
      }
    }
    assert os == oa + ob;
    SomesAppend(RowPoints(a, c), RowPoints(b, c));
  }

  /** The smallest and the largest of a non-empty list. */
  function SeqMin(vs: seq<real>): (m: real)
    requires |vs| > 0
    ensures m in vs && forall i :: 0 <= i < |vs| ==> m <= vs[i]
    decreases |vs|
  {
    if |vs| == 1 then vs[0]
    else
      var m := SeqMin(vs[1..]);
      assert forall i :: 1 <= i < |vs| ==> vs[i] == vs[1..][i - 1];
      if vs[0] <= m then vs[0] else m
  }

  function SeqMax(vs: seq<real>): (m: real)
    requires |vs| > 0
    ensures m in vs && forall i :: 0 <= i < |vs| ==> vs[i] <= m
    decreases |vs|
  {
    if |vs| == 1 then vs[0]
    else
      var m := SeqMax(vs[1..]);
      assert forall i :: 1 <= i < |vs| ==> vs[i] == vs[1..][i - 1];
      if vs[0] >= m then vs[0] else m
  }

  /** An axis range. */
  datatype Range = Range(lo: real, hi: real)

  /** The axis for a list of values: from the smallest to the largest, widened
      by `pad` on each side when they are all equal. */
  function Widen(vs: seq<real>, pad: real): (r: Range)
    requires |vs| > 0 && pad > 0.0
    ensures r.lo < r.hi
    ensures forall i :: 0 <= i < |vs| ==> r.lo <= vs[i] <= r.hi
    ensures (exists i, j :: 0 <= i < |vs| && 0 <= j < |vs| && vs[i] != vs[j]) ==> r.lo in vs && r.hi in vs
    ensures (forall i :: 0 <= i < |vs| ==> vs[i] == vs[0]) ==> r == Range(vs[0] - pad, vs[0] + pad)
  {
    var lo := SeqMin(vs);
    var hi := SeqMax(vs);
    if lo == hi then Range(lo - pad, hi + pad) else Range(lo, hi)
  }

  function Xs(ps: seq<(real, real)>): (xs: seq<real>)
    ensures |xs| == |ps| && forall i :: 0 <= i < |ps| ==> xs[i] == ps[i].0
  {
    seq(|ps|, i requires 0 <= i < |ps| => ps[i].0)
  }

  function Ys(ps: seq<(real, real)>): (ys: seq<real>)
    ensures |ys| == |ps| && forall i :: 0 <= i < |ps| ==> ys[i] == ps[i].1
  {
    seq(|ps|, i requires 0 <= i < |ps| => ps[i].1)
  }

  /** An axis title: the header cell, or the default when it is empty. */
  function Title(header: Row, j: nat, default: string): Option<string> {
    if j < |header| then Some(if header[j] == "" then default else header[j]) else None
  }

  /** What loading leaves: the file is missing, it has no rows, or the chart
      is drawn. When there are points the axes are set and titled; a title
      whose column is missing from the header raises `IndexError`, which the
      handler reports after the points and ranges are already set. */
  datatype Load =
    | Missing
    | NoRows
    | Drawn(points: seq<(real, real)>, axes: Option<(Range, Range)>,
            xTitle: Option<string>, yTitle: Option<string>, failed: bool)

  /** The drawing step: the points, the widened axes when there are points,
      and the titles from the header cells of the chosen columns. */
  function Draw(header: Row, c: Columns, ps: seq<(real, real)>): (l: Load)
    ensures l.Drawn? && l.points == ps
    ensures l.axes.Some? <==> |ps| > 0
    ensures l.axes.Some? ==> var (ax, ay) := l.axes.value;
      && ax.lo < ax.hi && ay.lo < ay.hi
      && forall i :: 0 <= i < |ps| ==> ax.lo <= ps[i].0 <= ax.hi && ay.lo <= ps[i].1 <= ay.hi
    ensures l.failed <==> |ps| > 0 && (c.flow >= |header| || c.volt >= |header|)
    ensures l.failed ==> l.xTitle.None? || l.yTitle.None?
  {
    if ps == [] then Drawn([], None, None, None, false)
    else
      var axes := (Widen(Xs(ps), 1.0), Widen(Ys(ps), 0.5));
      var xTitle := Title(header, c.flow, "Lưu lượng");
      var yTitle := if xTitle.None? then None else Title(header, c.volt, "Volt (V)");
      Drawn(ps, Some(axes), xTitle, yTitle, xTitle.None? || yTitle.None?)
  }

  /** The columns a header's lowered names give, as written or as intended. */
  function PickColumns(names: seq<string>, asWritten: bool): Columns {
    if asWritten then ColumnsAsWritten(names) else ChooseColumns(names)
  }

  /** `load_csv_to_linechart`, with the columns chosen as written or as
      intended: a missing file and an empty file draw nothing; otherwise the
      rows after the header give the points. */
  function LoadCsv(found: bool, rows: seq<Row>, asWritten: bool): (l: Load)
    ensures !found <==> l.Missing?
    ensures found && rows == [] <==> l.NoRows?
    ensures l.Drawn? ==> var h := HeaderIndex(rows);
      l.points == Points(rows[h + 1..], PickColumns(LowRow(rows[h]), asWritten))
  {
    if !found then Missing
    else if rows == [] then NoRows
    else
      var h := HeaderIndex(rows);
      var header := seq(|rows[h]|, j requires 0 <= j < |rows[h]| => Strip(rows[h][j]));
      var c := PickColumns(LowRow(rows[h]), asWritten);
      Draw(header, c, Points(rows[h + 1..], c))
  }

  // ---------------------------------------------------------------------
  // The file `save_csv` writes.

  /** A character a text lacks rules out every text containing it. */
  lemma Lacks(s: string, pat: string, c: char)
    requires c in pat && c !in s
    ensures !Contains(s, pat)
  {
  }

  lemma Prefix(s: string, pat: string)
    requires |pat| <= |s| && s[..|pat|] == pat
    ensures Contains(s, pat)
  {
    assert OccursAt(s, pat, 0);
  }

  /** The saved header, lowered. */
  lemma SavedNames()
    ensures LowRow(LiveChart.SavedHeader) == ["voltage(v)", "flow(g/s)"]
  {
    VoltageLow();
    FlowLow();
    TwoLow(LiveChart.SavedHeader, "voltage(v)", "flow(g/s)");
  }

  lemma VoltageLow()
    ensures Low("Voltage(V)") == "voltage(v)"
  {
    LowOfStripped("Voltage(V)");
    LowerVoltage();
  }

  lemma FlowLow()
    ensures Low("Flow(g/s)") == "flow(g/s)"
  {
    LowOfStripped("Flow(g/s)");
    LowerFlow();
  }

  /** The lowered names of a two-cell row. */
  lemma TwoLow(row: Row, a: string, b: string)
    requires |row| == 2 && Low(row[0]) == a && Low(row[1]) == b
    ensures LowRow(row) == [a, b]
  {
    var r := LowRow(row);
    assert r[0] == a && r[1] == b;
  }

  /** A name without surrounding whitespace is only lowered. */
  lemma LowOfStripped(name: string)
    requires Stripped(name)
    ensures Low(name) == Lower(name)
  {
  }

  lemma LowerVoltage()
    ensures Lower("Voltage(V)") == "voltage(v)"
  {
    var l := Lower("Voltage(V)");
    assert l[0] == 'v' && l[8] == 'v';
  }

  lemma LowerFlow()
    ensures Lower("Flow(g/s)") == "flow(g/s)"
  {
    var l := Lower("Flow(g/s)");
    assert l[0] == 'f';
  }

  /** Which keywords the two saved names mention. */
  lemma SavedMentions()
    ensures !MentionsAny("voltage(v)", FlowKeys) && MentionsAny("voltage(v)", VoltKeys)
    ensures MentionsAny("flow(g/s)", FlowKeys)
  {
    var v := "voltage(v)";
    var f := "flow(g/s)";
    Lacks(v, FlowKeys[0], 'ư');
    Lacks(v, FlowKeys[1], 'u');
    Lacks(v, FlowKeys[2], 'f');
    Lacks(f, FlowKeys[0], 'ư');
    Lacks(f, FlowKeys[1], 'u');
    Prefix(f, FlowKeys[2]);
    Prefix(v, VoltKeys[0]);
  }

  /** The saved header names the voltage column first: as written, both
      columns become column 1 (flow is plotted against itself); as intended,
      flow is column 1 and voltage column 0. */
  lemma SavedHeaderColumns()
    ensures ColumnsAsWritten(LowRow(LiveChart.SavedHeader)) == Columns(1, 1)
    ensures ChooseColumns(LowRow(LiveChart.SavedHeader)) == Columns(1, 0)
  {
    SavedNames();
    SavedMentions();
    var names := LowRow(LiveChart.SavedHeader);
    assert FindIdx(names, FlowKeys) == Some(1);
    assert FindIdx(names, VoltKeys) == Some(0);
  }

  /** A cell holding a whole number as `str()` prints a float, `n.0`, reads
      as that number. */
  lemma CellOfWholeFloat(n: nat)
    ensures CellValue(NatToString(n) + ".0") == Some(n as real)
  {
    var s := NatToString(n);
    var t := s + ".0";
    assert ReplaceChar(t, ',', '.') == t;
    assert DecimalText(false, s, "0", true) == t;
    assert DecimalValue(false, s, "0") == n as real by {
      assert DigitsValue("0") == 0;
    }
    ParseFloatDecimal(false, s, "0", true);
  }

  /** The file `save_csv` writes for one reading, voltage 3.0 and flow 20.0,
      loaded back: as written the chart shows flow against flow. */
  lemma LoadSavedAsWritten()
    ensures LoadCsv(true, [LiveChart.SavedHeader, [NatToString(3) + ".0", NatToString(20) + ".0"]], true).points == [(20.0, 20.0)]
  {
    LoadSaved(true);
  }

  /** ... and as intended it shows the voltage against the flow. */
  lemma LoadSavedCorrected()
    ensures LoadCsv(true, [LiveChart.SavedHeader, [NatToString(3) + ".0", NatToString(20) + ".0"]], false).points == [(20.0, 3.0)]
  {
    LoadSaved(false);
  }

  lemma LoadSaved(asWritten: bool)
    ensures var rows := [LiveChart.SavedHeader, [NatToString(3) + ".0", NatToString(20) + ".0"]];
      var c := PickColumns(LowRow(LiveChart.SavedHeader), asWritten);
      && HeaderIndex(rows) == 0
      && Points(rows[1..], c) == [(20.0, if asWritten then 20.0 else 3.0)]
  {
    var row := [NatToString(3) + ".0", NatToString(20) + ".0"];
    var rows := [LiveChart.SavedHeader, row];
    SavedHeaderFirst(row);
    assert rows[1..] == [row];
    SavedRowPoint(asWritten);
  }

  /** The saved header is found as the header of the file it starts. */
  lemma SavedHeaderFirst(row: Row)
    ensures HeaderIndex([LiveChart.SavedHeader, row]) == 0
  {
    var rows := [LiveChart.SavedHeader, row];
    SavedNames();
    SavedMentions();
    assert IsHeader(rows[0]);
    assert FirstHeader(rows, 0) == Some(0);
  }

  /** The saved row read with the columns chosen from the saved header. */
  lemma SavedRowPoint(asWritten: bool)
    ensures Points([[NatToString(3) + ".0", NatToString(20) + ".0"]], PickColumns(LowRow(LiveChart.SavedHeader), asWritten))
      == [(20.0, if asWritten then 20.0 else 3.0)]
  {
    SavedHeaderColumns();
    CellOfWholeFloat(3);
    CellOfWholeFloat(20);
    TwoCells(NatToString(3) + ".0", NatToString(20) + ".0", PickColumns(LowRow(LiveChart.SavedHeader), asWritten), 3.0, 20.0);
  }

  /** A row of two readable cells, read with the flow in the second column. */
  lemma TwoCells(a: string, b: string, c: Columns, va: real, vb: real)
    requires c.flow == 1 && c.volt <= 1
    requires CellValue(a) == Some(va) && CellValue(b) == Some(vb)
    ensures Points([[a, b]], c) == [(vb, if c.volt == 0 then va else vb)]
  {
    var row := [a, b];
    assert RowPoint(row, c) == Some((vb, if c.volt == 0 then va else vb));
    OnePoint(row, c);
  }

  lemma OnePoint(row: Row, c: Columns)
    requires RowPoint(row, c).Some?
    ensures Points([row], c) == [RowPoint(row, c).value]
  {
    var o := RowPoint(row, c);
    assert RowPoints([row], c) == [o];
    SomesOne(o);
  }

  lemma SomesOne<T>(o: Option<T>)
    requires o.Some?
    ensures Somes([o]) == [o.value]
  {
    assert [o][1..] == [];
  }
}
