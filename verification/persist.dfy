/** The CSV log of the acquisition scripts: opened in append mode, with the
    header row written only when the file did not exist before
    (save_data/run.py, save_data/save_data.py).

    The file is modelled as its sequence of records; the CSV text encoding of
    a record is not part of the model. */
module Persist {
  import opened Wrappers

  datatype Record<R> = Header(names: seq<string>) | Values(row: R)

  function Rows<R>(rows: seq<R>): (rs: seq<Record<R>>)
    ensures |rs| == |rows|
    ensures forall i :: 0 <= i < |rows| ==> rs[i] == Values(rows[i])
  {
    seq(|rows|, i requires 0 <= i < |rows| => Values(rows[i]))
  }

  /** One session: the file as it was (`None` when it did not exist), then
      the header if it had to be created, then the session's rows. */
  function Session<R>(file: Option<seq<Record<R>>>, header: seq<string>, rows: seq<R>): (f: seq<Record<R>>)
    ensures file.None? ==> |f| > 0 && f[0] == Header(header) && f[1..] == Rows(rows)
    ensures file.Some? ==> |f| >= |file.value| && f[..|file.value|] == file.value && f[|file.value|..] == Rows(rows)
  {
    var before := if file.None? then [Header(header)] else file.value;
    var f := before + Rows(rows);
    assert f[..|before|] == before;
    assert f[|before|..] == Rows(rows);
    f
  }

  /** A session appends no header to a file that already exists. */
  lemma SessionHeaderIffNew<R>(file: Option<seq<Record<R>>>, header: seq<string>, rows: seq<R>)
    ensures var f := Session(file, header, rows);
      var added := if file.None? then f else f[|file.value|..];
      (exists i :: 0 <= i < |added| && added[i].Header?) <==> file.None?
  {
    var f := Session(file, header, rows);
    if file.Some? {
      var added := f[|file.value|..];
      assert forall i :: 0 <= i < |added| ==> added[i] == Values(rows[i]);
    } else {
      assert f[0].Header?;
    }
  }

  /** The file after several sessions. */
  function Replay<R>(file: Option<seq<Record<R>>>, header: seq<string>, sessions: seq<seq<R>>): Option<seq<Record<R>>>
    decreases |sessions|
  {
    if sessions == [] then file
    else Replay(Some(Session(file, header, sessions[0])), header, sessions[1..])
  }

  function Concat<R>(sessions: seq<seq<R>>): seq<R>
    decreases |sessions|
  {
    if sessions == [] then [] else sessions[0] + Concat(sessions[1..])
  }

  /** A log started from no file holds the header once, first, followed by
      every session's rows in order. */
  lemma {:induction false} HeaderOnce<R>(header: seq<string>, sessions: seq<seq<R>>)
    requires |sessions| > 0
    ensures Replay(None, header, sessions) == Some([Header(header)] + Rows(Concat(sessions)))
  {
    var first := Session(None, header, sessions[0]);
    assert first == [Header(header)] + Rows(sessions[0]);
    ReplayExisting([Header(header)], sessions[0], header, sessions[1..]);
    assert sessions == [sessions[0]] + sessions[1..];
  }

  /** Sessions on an existing file only append their rows. */
  lemma {:induction false} ReplayExisting<R>(prefix: seq<Record<R>>, rows: seq<R>, header: seq<string>, sessions: seq<seq<R>>)
    ensures Replay(Some(prefix + Rows(rows)), header, sessions) == Some(prefix + Rows(rows + Concat(sessions)))
    decreases |sessions|
  {
    if sessions == [] {
      assert rows + [] == rows;
    } else {
      ReplayStep(prefix, rows, header, sessions[0]);
      ReplayExisting(prefix, rows + sessions[0], header, sessions[1..]);
      assert rows + sessions[0] + Concat(sessions[1..]) == rows + Concat(sessions);
    }
  }

  /** One more session on an existing file appends its rows. */
  lemma ReplayStep<R>(prefix: seq<Record<R>>, rows: seq<R>, header: seq<string>, more: seq<R>)
    ensures Session(Some(prefix + Rows(rows)), header, more) == prefix + Rows(rows + more)
  {
    var before := prefix + Rows(rows);
    var next := Session(Some(before), header, more);
    RowsAppend(rows, more);
    assert next == before + Rows(more);
  }

  lemma RowsAppend<R>(a: seq<R>, b: seq<R>)
    ensures Rows(a + b) == Rows(a) + Rows(b)
  {
  }
}
