/** The shutdown of the acquisition scripts: `graceful_stop` and the `finally`
    block that follows the main loop (save_data/run.py, save_data/save_data.py).

    The pauses between the writes are not part of the model. */
module Shutdown {
  import opened Wrappers
  import opened Commands
  import opened Utf8

  /** How a main loop ended: the sweep ran out of targets, the stop flag was
      seen, the overall deadline passed, or an exception escaped the loop. */
  datatype Exit = Finished | Interrupted | Deadline | Raised

  /** What the teardown does, in order. */
  datatype Action = Send(cmd: Command) | StopReader | ClosePort | CloseFile

  /** `graceful_stop`: `SET_HZ 0`, then `STOP`, both inside one `try`; the
      `STOP` write is attempted only if the first write did not raise, and
      nothing escapes. */
  function GracefulStop(setHzSent: bool): (sends: seq<Command>)
    ensures |sends| >= 1 && sends[0] == SetHz(0)
    ensures Stop in sends <==> setHzSent
    ensures setHzSent ==> sends == [SetHz(0), Stop]
  {
    if setHzSent then [SetHz(0), Stop] else [SetHz(0)]
  }

  /** The `finally` block: the graceful stop, then (in the inner `finally`) the
      reader is stopped, the port closed with its error swallowed, and the file
      closed. It does not depend on how the loop ended. */
  function Teardown(setHzSent: bool): (actions: seq<Action>)
    ensures |actions| >= 4 && actions[0] == Send(SetHz(0))
    ensures actions[|actions| - 3..] == [StopReader, ClosePort, CloseFile]
    ensures Send(Stop) in actions <==> setHzSent
    ensures setHzSent ==> actions[1] == Send(Stop)
  {
    var sends := GracefulStop(setHzSent);
    var acts := seq(|sends|, i requires 0 <= i < |sends| => Send(sends[i]));
    assert setHzSent ==> acts[1] == Send(Stop);
    assert Send(Stop) in acts ==> Stop in sends;
    acts + [StopReader, ClosePort, CloseFile]
  }

  /** The bytes `graceful_stop` writes read back as `SET_HZ 0` and `STOP`. */
  lemma StopBytesDecode()
    ensures Received(ScriptWire(CommandText(GracefulStop(true)[0]))) == Some(SetHz(0))
    ensures Received(ScriptWire(CommandText(GracefulStop(true)[1]))) == Some(Stop)
  {
    ScriptRoundTrip(SetHz(0));
    ScriptRoundTrip(Stop);
  }
}
