/** `wait_banner` of the acquisition scripts (save_data/run.py,
    save_data/save_data.py): lines are taken from the reader's queue until one
    contains `Arduino Ready` or the timeout has passed since the start.

    The clock and the queue are the sequence of polls the loop makes: the
    clock value read by the loop test, and the line the 0.2 s `get` returned
    (`None` when it timed out). */
module Banner {
  import opened Wrappers
  import opened Text

  datatype Poll = Poll(clock: real, line: Option<string>)

  const ReadyText: string := "Arduino Ready"

  predicate Ready(line: Option<string>) {
    line.Some? && Has(line.value, ReadyText)
  }

  /** The loop test held for the polls up to and including `i`. */
  ghost predicate OnTime(t0: real, timeout: real, polls: seq<Poll>, i: int)
    requires i < |polls|
  {
    forall j :: 0 <= j <= i ==> polls[j].clock - t0 < timeout
  }

  /** The banner is reported exactly when some line taken before the timeout
      contains it; the result does not depend on anything polled after it. */
  method WaitBanner(t0: real, timeout: real, polls: seq<Poll>) returns (found: bool)
    ensures found <==> exists i :: 0 <= i < |polls| && OnTime(t0, timeout, polls, i) && Ready(polls[i].line)
  {
    var i := 0;
    while i < |polls| && polls[i].clock - t0 < timeout
      invariant 0 <= i <= |polls|
      invariant i > 0 ==> OnTime(t0, timeout, polls, i - 1)
      invariant forall j :: 0 <= j < i ==> !Ready(polls[j].line)
    {
      if Ready(polls[i].line) {
        assert OnTime(t0, timeout, polls, i);
        return true;
      }
      i := i + 1;
    }
    return false;
  }
}
