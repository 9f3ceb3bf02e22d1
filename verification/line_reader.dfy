/** The reader thread of the acquisition scripts (`SerialReader.run` in
    save_data/run.py and save_data/save_data.py): it reads the serial port one
    byte at a time, collects bytes up to a CR or LF, and puts each collected
    line — decoded as UTF-8 with undecodable bytes dropped, then stripped — on
    the line queue, unless it is empty. An exception while reading puts an
    `__ERR__` note on the queue instead.

    The thread, the queue and the pause after an error are not modelled: the
    reader is a step function over what successive `read(1)` calls return, and
    the queue is the sequence of entries it puts. */
module LineReader {
  import opened Text
  import opened Utf8
  import opened Wrappers

  /** What one `read(1)` call does: a byte, nothing before the port's timeout,
      or an exception with its message. */
  datatype Read = Byte(b: byte) | Nothing | Fault(message: string)

  /** An entry the reader puts on the queue: a received line, or the note about
      a read that raised. */
  datatype Entry = Data(line: string) | Error(message: string)

  /** The string the queue carries for an entry. */
  function QueueText(e: Entry): (s: string)
    ensures e.Error? ==> StartsWith(s, "__ERR__ ")
  {
    match e
    case Data(line) => line
    case Error(m) => "__ERR__ " + m
  }

  /** `b in b"\r\n"` for a single byte. */
  predicate IsTerminator(b: byte) {
    b == 0x0D || b == 0x0A
  }

  predicate NoTerminator(bs: seq<byte>) {
    forall k :: 0 <= k < |bs| ==> !IsTerminator(bs[k])
  }

  /** A line as the queue's consumers see it: not empty, no whitespace at
      either end, and no carriage return or line feed anywhere. */
  predicate CleanLine(s: string) {
    |s| > 0 && Stripped(s) && '\r' !in s && '\n' !in s
  }

  /** Every data entry holds a clean line. */
  predicate CleanEntries(es: seq<Entry>) {
    forall k :: 0 <= k < |es| ==> es[k].Data? ==> CleanLine(es[k].line)
  }

  /** What a terminator does with the collected bytes: nothing when there are
      none, otherwise the decoded, stripped line, unless that is empty. */
  function Flush(buff: seq<byte>): (es: seq<Entry>)
    requires NoTerminator(buff)
    ensures |es| <= 1 && CleanEntries(es)
    ensures forall k :: 0 <= k < |es| ==> es[k].Data?
    ensures buff == [] ==> es == []
  {
    if buff == [] then []
    else
      var line := Strip(Decode(buff));
      if line == [] then []
      else
        NoControl(buff, line);
        [Data(line)]
  }

  /** A line decoded from bytes without CR or LF has neither character: ASCII
      characters only come from bytes of the same value. */
  lemma NoControl(buff: seq<byte>, line: string)
    requires NoTerminator(buff) && line == Strip(Decode(buff))
    ensures '\r' !in line && '\n' !in line
  {
  }

  /** One pass of the reader loop: the new buffer and the entries put on the
      queue. */
  function Step(buff: seq<byte>, r: Read): (out: (seq<byte>, seq<Entry>))
    requires NoTerminator(buff)
    ensures NoTerminator(out.0) && CleanEntries(out.1)
    ensures r.Byte? && IsTerminator(r.b) ==> out.0 == [] && out.1 == Flush(buff)
    ensures r.Byte? && !IsTerminator(r.b) ==> out.0 == buff + [r.b] && out.1 == []
    ensures r.Nothing? ==> out == (buff, [])
    ensures r.Fault? ==> out == (buff, [Error(r.message)])
  {
    match r
    case Nothing => (buff, [])
    case Fault(m) => (buff, [Error(m)])
    case Byte(b) =>
      if IsTerminator(b) then ([], Flush(buff))
      else (buff + [b], [])
  }

  /** The reader over a sequence of reads: the final buffer and every entry put
      on the queue, in order. Every data line is clean and the buffer never
      holds a terminator. */
  function Run(buff: seq<byte>, input: seq<Read>): (out: (seq<byte>, seq<Entry>))
    requires NoTerminator(buff)
    ensures NoTerminator(out.0) && CleanEntries(out.1)
    ensures |out.1| <= |input|
    decreases |input|
  {
    if input == [] then (buff, [])
    else
      var (b1, e1) := Step(buff, input[0]);
      var (b2, e2) := Run(b1, input[1..]);
      CleanConcat(e1, e2);
      (b2, e1 + e2)
  }

  lemma CleanConcat(a: seq<Entry>, b: seq<Entry>)
    requires CleanEntries(a) && CleanEntries(b)
    ensures CleanEntries(a + b)
  {
    forall k | 0 <= k < |a + b|
      ensures (a + b)[k].Data? ==> CleanLine((a + b)[k].line)
    {
      if k >= |a| {
        assert (a + b)[k] == b[k - |a|];
      }
    }
  }

  /** The reader loop itself, one read per pass. */
  method Reassemble(input: seq<Read>) returns (entries: seq<Entry>, buff: seq<byte>)
    ensures (buff, entries) == Run([], input)
    ensures CleanEntries(entries) && NoTerminator(buff)
  {
    entries, buff := [], [];
    var i := 0;
    while i < |input|
      invariant 0 <= i <= |input|
      invariant NoTerminator(buff)
      invariant Run(buff, input[i..]).0 == Run([], input).0
      invariant entries + Run(buff, input[i..]).1 == Run([], input).1
    {
      var (b, es) := Step(buff, input[i]);
      assert input[i..][1..] == input[i + 1..];
      AppendAssoc(entries, es, Run(b, input[i + 1..]).1);
      entries, buff := entries + es, b;
      i := i + 1;
    }
    assert input[i..] == [];
    assert entries + [] == entries;
  }

  lemma AppendAssoc(a: seq<Entry>, b: seq<Entry>, c: seq<Entry>)
    ensures (a + b) + c == a + (b + c)
  {
  }

  /** The reads of a port that delivers the given bytes and nothing else. */
  function Bytes(bs: seq<byte>): (rs: seq<Read>)
    ensures |rs| == |bs|
    ensures forall k :: 0 <= k < |bs| ==> rs[k] == Byte(bs[k])
  {
    seq(|bs|, k requires 0 <= k < |bs| => Byte(bs[k]))
  }

  /** The position of the first terminator byte. */
  function FirstTerminator(bs: seq<byte>): (r: Option<nat>)
    ensures r.Some? ==> r.value < |bs| && IsTerminator(bs[r.value]) && NoTerminator(bs[..r.value])
    ensures r.None? ==> NoTerminator(bs)
    decreases |bs|
  {
    if bs == [] then None
    else if IsTerminator(bs[0]) then Some(0)
    else
      match FirstTerminator(bs[1..])
      case None => None
      case Some(k) =>
        assert bs[..k + 1] == [bs[0]] + bs[1..][..k];
        Some(k + 1)
  }

  /** Reference reading of a byte stream, cut at terminators from the front:
      each terminated piece gives its line, and the unterminated rest stays in
      the buffer. */
  function Lines(bs: seq<byte>): (out: (seq<Entry>, seq<byte>))
    decreases |bs|
  {
    match FirstTerminator(bs)
    case None => ([], bs)
    case Some(k) =>
      var (more, pending) := Lines(bs[k + 1..]);
      (Flush(bs[..k]) + more, pending)
  }

  /** Feeding bytes one by one to the reader cuts the stream into lines exactly
      as the reference does, whatever the buffer held before. */
  lemma {:induction false} RunBytes(buff: seq<byte>, bs: seq<byte>)
    requires NoTerminator(buff)
    ensures Run(buff, Bytes(bs)) == (Lines(buff + bs).1, Lines(buff + bs).0)
    decreases |bs|
  {
    if bs == [] {
      assert buff + bs == buff;
      LinesNoTerminator(buff);
    } else if IsTerminator(bs[0]) {
      RunBytes([], bs[1..]);
      RunBytesTerminator(buff, bs);
    } else {
      RunOther(buff, bs);
      RunBytes(buff + [bs[0]], bs[1..]);
      ConsAgain(buff, bs);
    }
  }

  /** The step of `RunBytes` at a terminator. */
  lemma {:induction false} RunBytesTerminator(buff: seq<byte>, bs: seq<byte>)
    requires NoTerminator(buff) && |bs| > 0 && IsTerminator(bs[0])
    requires Run([], Bytes(bs[1..])) == (Lines([] + bs[1..]).1, Lines([] + bs[1..]).0)
    ensures Run(buff, Bytes(bs)) == (Lines(buff + bs).1, Lines(buff + bs).0)
  {
    assert [] + bs[1..] == bs[1..];
    BytesCons(bs);
    RunCons(buff, Byte(bs[0]), Bytes(bs[1..]));
    LinesAt(buff, bs);
  }

  /** A byte that is not a terminator only joins the buffer. */
  lemma {:induction false} RunOther(buff: seq<byte>, bs: seq<byte>)
    requires NoTerminator(buff) && |bs| > 0 && !IsTerminator(bs[0])
    ensures NoTerminator(buff + [bs[0]])
    ensures Run(buff, Bytes(bs)) == Run(buff + [bs[0]], Bytes(bs[1..]))
  {
    var nb := buff + [bs[0]];
    var rest := Bytes(bs[1..]);
    BytesCons(bs);
    RunCons(buff, Byte(bs[0]), rest);
    var step := Step(buff, Byte(bs[0]));
    assert step == (nb, []);
    assert step.1 + Run(nb, rest).1 == Run(nb, rest).1;
  }

  lemma ConsAgain(buff: seq<byte>, bs: seq<byte>)
    requires |bs| > 0
    ensures buff + [bs[0]] + bs[1..] == buff + bs
  {
    assert [bs[0]] + bs[1..] == bs;
    assert buff + [bs[0]] + bs[1..] == buff + ([bs[0]] + bs[1..]);
  }

  lemma BytesCons(bs: seq<byte>)
    requires |bs| > 0
    ensures Bytes(bs) == [Byte(bs[0])] + Bytes(bs[1..])
  {
  }

  /** The reader over one read and then more. */
  lemma RunCons(buff: seq<byte>, r: Read, rest: seq<Read>)
    requires NoTerminator(buff)
    ensures var step := Step(buff, r);
      Run(buff, [r] + rest) == (Run(step.0, rest).0, step.1 + Run(step.0, rest).1)
  {
    assert ([r] + rest)[0] == r;
    assert ([r] + rest)[1..] == rest;
  }

  /** Bytes without a terminator stay in the buffer. */
  lemma LinesNoTerminator(bs: seq<byte>)
    requires NoTerminator(bs)
    ensures Lines(bs) == ([], bs)
  {
  }

  /** When the buffer holds no terminator and the next byte is one, the
      reference cuts the buffer off as the first line. */
  lemma LinesAt(buff: seq<byte>, bs: seq<byte>)
    requires NoTerminator(buff) && |bs| > 0 && IsTerminator(bs[0])
    ensures Lines(buff + bs) == (Flush(buff) + Lines(bs[1..]).0, Lines(bs[1..]).1)
  {
    var all := buff + bs;
    TerminatorAt(buff, bs);
    assert all[..|buff|] == buff;
    assert all[|buff| + 1..] == bs[1..];
  }

  /** The first terminator of `buff + bs` is the first byte of `bs` when the
      buffer holds none and that byte is one. */
  lemma TerminatorAt(buff: seq<byte>, bs: seq<byte>)
    requires NoTerminator(buff) && |bs| > 0 && IsTerminator(bs[0])
    ensures FirstTerminator(buff + bs) == Some(|buff|)
  {
    var all := buff + bs;
    assert all[|buff|] == bs[0];
  }

  /** A terminator that arrives while the buffer is empty puts nothing on the
      queue, and the buffer is empty after every terminator. */
  lemma TerminatorOnEmpty(b: byte)
    requires IsTerminator(b)
    ensures Step([], Byte(b)) == ([], [])
  {
  }

  /** A failing read leaves the collected bytes alone and puts exactly one
      error note on the queue, whose text starts with `__ERR__`. */
  lemma FaultKeepsBuffer(buff: seq<byte>, m: string)
    requires NoTerminator(buff)
    ensures Step(buff, Fault(m)).0 == buff
    ensures |Step(buff, Fault(m)).1| == 1 && StartsWith(QueueText(Step(buff, Fault(m)).1[0]), "__ERR__")
  {
    assert QueueText(Error(m)) == "__ERR__ " + m;
    assert ("__ERR__ " + m)[..7] == "__ERR__";
  }
}
