/** The text commands sent to the controller board, and the two ways the
    program puts them on the wire.

    The acquisition scripts' `send_cmd` (save_data/run.py, save_data/save_data.py)
    strips the command and adds exactly one line feed; the motor panels'
    `send_cmd` (RPM.py, test/T2.py) adds a line feed only when the command does
    not already end with one. Both encode the text as UTF-8. */
module Commands {
  import opened Wrappers
  import opened Text
  import opened Numbers
  import opened Utf8

  /** Every command the program sends. */
  datatype Command = Reset | Run | Stop | Status | SetHz(hz: int) | HoldStop(on: bool)

  /** The text of a command: `f"SET_HZ {hz}"`, `"HOLD_STOP ON"`, ... */
  function CommandText(c: Command): (s: string)
    ensures |s| > 0 && Stripped(s) && '\n' !in s
  {
    match c
    case Reset => "RESET"
    case Run => "RUN"
    case Stop => "STOP"
    case Status => "STATUS"
    case HoldStop(on) => if on then "HOLD_STOP ON" else "HOLD_STOP OFF"
    case SetHz(hz) =>
      SetHzText(hz);
      "SET_HZ " + IntToString(hz)
  }

  lemma SetHzText(hz: int)
    ensures var s := "SET_HZ " + IntToString(hz);
      Stripped(s) && '\n' !in s
  {
    var n := IntToString(hz);
    var s := "SET_HZ " + n;
    NumberText(hz);
    assert s[|s| - 1] == n[|n| - 1];
    assert '\n' !in s by {
      assert forall k :: 7 <= k < |s| ==> s[k] == n[k - 7];
    }
  }

  /** The text of an integer holds no whitespace and no line feed. */
  lemma NumberText(i: int)
    ensures forall k :: 0 <= k < |IntToString(i)| ==> !IsSpace(IntToString(i)[k])
    ensures '\n' !in IntToString(i)
  {
    var s := IntToString(i);
    if i < 0 {
      assert s == "-" + NatToString(-i);
      assert forall k :: 1 <= k < |s| ==> s[k] == NatToString(-i)[k - 1];
    }
  }

  /** How the receiving side reads a command text: the independent reading
      that `CommandText` is checked against. */
  function ParseCommand(s: string): (r: Option<Command>)
    ensures r.Some? && r.value.SetHz? ==> StartsWith(s, "SET_HZ ")
  {
    if StartsWith(s, "SET_HZ ") then
      match ParseInt(s[7..])
      case None => None
      case Some(n) => Some(SetHz(n))
    else if s == "RESET" then Some(Reset)
    else if s == "RUN" then Some(Run)
    else if s == "STOP" then Some(Stop)
    else if s == "STATUS" then Some(Status)
    else if s == "HOLD_STOP ON" then Some(HoldStop(true))
    else if s == "HOLD_STOP OFF" then Some(HoldStop(false))
    else None
  }

  /** Every command's text is read back as that command, so distinct commands
      have distinct texts. */
  lemma ParseCommandText(c: Command)
    ensures ParseCommand(CommandText(c)) == Some(c)
  {
    match c
    case SetHz(hz) =>
      var s := CommandText(c);
      assert s[7..] == IntToString(hz);
      IntRoundTrip(hz);
    case HoldStop(on) =>
      assert !StartsWith(CommandText(c), "SET_HZ ") by {
        assert CommandText(c)[0] == 'H';
      }
    case _ =>
  }

  lemma CommandTextInjective(c: Command, d: Command)
    requires CommandText(c) == CommandText(d)
    ensures c == d
  {
    ParseCommandText(c);
    ParseCommandText(d);
  }

  /** The line the scripts' `send_cmd` writes: `cmd.strip() + "\n"`. It ends
      in exactly one line feed: whatever precedes it is not whitespace. */
  function ScriptLine(cmd: string): (s: string)
    ensures |s| >= 1 && s[|s| - 1] == '\n' && s[..|s| - 1] == Strip(cmd)
    ensures |s| >= 2 ==> !IsSpace(s[|s| - 2])
    ensures |s| == 1 <==> AllSpace(cmd)
  {
    var t := Strip(cmd);
    assert (t + "\n")[..|t|] == t;
    t + "\n"
  }

  /** The bytes the scripts' `send_cmd` writes. */
  function ScriptWire(cmd: string): (bs: seq<byte>)
    ensures |bs| >= 1 && bs[|bs| - 1] == 0x0A
  {
    var s := ScriptLine(cmd);
    EncodeLast(s[..|s| - 1], '\n');
    assert s[..|s| - 1] + ['\n'] == s;
    Encode(s)
  }

  /** The encoding of a text ending in an ASCII character ends in its byte. */
  lemma {:induction false} EncodeLast(s: string, c: char)
    requires c as int < 0x80
    ensures |Encode(s + [c])| >= 1 && Encode(s + [c])[|Encode(s + [c])| - 1] == c as int
    decreases |s|
  {
    if s == [] {
      assert s + [c] == [c];
      assert Encode([c]) == EncodeChar(c) + Encode([]);
    } else {
      assert (s + [c])[1..] == s[1..] + [c];
      EncodeLast(s[1..], c);
    }
  }

  /** Decoding what the scripts write gives back the stripped command and one
      line feed. */
  lemma ScriptWireDecodes(cmd: string)
    ensures Decode(ScriptWire(cmd)) == Strip(cmd) + "\n"
  {
    DecodeEncode(ScriptLine(cmd));
  }

  /** The line the panels' `send_cmd` writes: a line feed is added only when
      the command does not already end with one. */
  function PanelLine(cmd: string): (s: string)
    ensures EndsWith(s, "\n")
    ensures s == cmd || s == cmd + "\n"
    ensures s == cmd <==> EndsWith(cmd, "\n")
  {
    if EndsWith(cmd, "\n") then cmd
    else
      assert (cmd + "\n")[|cmd|..] == "\n";
      cmd + "\n"
  }

  /** Sending through the panels' rule twice adds nothing more. */
  lemma PanelLineIdempotent(cmd: string)
    ensures PanelLine(PanelLine(cmd)) == PanelLine(cmd)
  {
  }

  /** For every command the program sends, the two `send_cmd` rules write the
      same bytes. */
  lemma SameWire(c: Command)
    ensures Encode(PanelLine(CommandText(c))) == ScriptWire(CommandText(c))
  {
    var t := CommandText(c);
    NoLineFeedEnd(t);
    assert PanelLine(t) == t + "\n";
    assert ScriptLine(t) == t + "\n";
  }

  /** A text without a line feed does not end with one. */
  lemma NoLineFeedEnd(t: string)
    requires '\n' !in t
    ensures !EndsWith(t, "\n")
  {
    if |t| >= 1 {
      assert t[|t| - 1] in t;
      assert t[|t| - 1..] != "\n";
    }
  }

  /** What the receiving side makes of a wire: the decoded text must end in a
      line feed, and what precedes it must be a command. */
  function Received(bs: seq<byte>): Option<Command> {
    var s := Decode(bs);
    if |s| > 0 && s[|s| - 1] == '\n' then ParseCommand(s[..|s| - 1]) else None
  }

  /** Every command the scripts send arrives as itself. */
  lemma ScriptRoundTrip(c: Command)
    ensures Received(ScriptWire(CommandText(c))) == Some(c)
  {
    var t := CommandText(c);
    ScriptWireDecodes(t);
    assert (t + "\n")[..|t|] == t;
    ParseCommandText(c);
  }
}
