/** How the acquisition scripts sort the lines they take from the queue
    (save_data/save_data.py, and the sweep of save_data/run.py): a reader error,
    then a command acknowledgement, and only then a status line. */
module Classify {
  import opened Wrappers
  import opened Text
  import opened StatusLine
  import opened LineReader

  datatype Kind = SerialError | Ack | Reading(t: Telemetry) | Ignored

  /** The first test that succeeds decides. */
  function Classify(line: string): (k: Kind)
    ensures k.SerialError? <==> StartsWith(line, "__ERR__")
    ensures k.Ack? <==> !StartsWith(line, "__ERR__") && (StartsWith(line, "OK") || StartsWith(line, "ERR"))
    ensures k.Reading? ==> Match(line) == Some(k.t)
  {
    if StartsWith(line, "__ERR__") then SerialError
    else if StartsWith(line, "OK") || StartsWith(line, "ERR") then Ack
    else match Match(line)
      case Some(t) => Reading(t)
      case None => Ignored
  }

  /** The first two tests never hide a status line: a line is read as
      telemetry exactly when the status grammar matches it, so the order of
      the tests does not matter. */
  lemma ClassifyAgreesWithMatch(line: string)
    ensures Classify(line).Reading? <==> Match(line).Some?
    ensures Match(line).Some? ==> Classify(line) == Reading(Match(line).value)
  {
    if Match(line).Some? {
      StatusPrefix(line);
      NotBoth(line);
    }
  }

  /** A line the status grammar matches starts with `STATUS`. */
  lemma StatusPrefix(line: string)
    requires Match(line).Some?
    ensures StartsWith(line, "STATUS")
  {
    assert Parse(line).Some?;
  }

  lemma NotBoth(line: string)
    requires StartsWith(line, "STATUS")
    ensures !StartsWith(line, "__ERR__") && !StartsWith(line, "OK") && !StartsWith(line, "ERR")
  {
    assert line[0] == 'S';
  }

  /** What the reader queues for a read failure is taken for a reader error. */
  lemma ErrorEntryIsSerialError(m: string)
    ensures Classify(QueueText(Error(m))) == SerialError
  {
    assert ("__ERR__ " + m)[..7] == "__ERR__";
  }
}
