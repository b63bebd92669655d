/**
 Forwarding log records to a syslog collector (app/log_forward.py): a bounded
 queue, one worker, and octet-counted frames on a TCP stream.
 */
module LogForward {
  import opened Wrappers

  const MAX_QUEUE := 5_000

  const SPACE: byte := 32

  /** A formatted record in UTF-8. It starts with "<", so it is never empty. */
  type Line = s: seq<byte> | s != [] witness [60]

  // ---- Frames: section 3.4.1 of RFC 6587 ------------------------------------------------

  function Digits(n: nat): (r: seq<byte>)
    ensures r != [] && forall i | 0 <= i < |r| :: 48 <= r[i] <= 57
    ensures n > 0 ==> r[0] != 48
  {
    if n < 10 then [(48 + n) as byte] else Digits(n / 10) + [(48 + n % 10) as byte]
  }

  /** f"{len(data)} ".encode() + data */
  function Frame(line: Line): (r: seq<byte>)
    ensures r != []
  {
    Digits(|line|) + [SPACE] + line
  }

  function Frames(lines: seq<Line>): seq<byte> {
    if lines == [] then [] else Frames(lines[..|lines| - 1]) + Frame(lines[|lines| - 1])
  }

  datatype Count = Count(length: nat, rest: seq<byte>)

  /** MSG-LEN SP, after some digits worth `so_far`. */
  function ReadCount(stream: seq<byte>, soFar: nat): (r: Option<Count>)
    ensures r.Some? ==> |r.value.rest| < |stream|
  {
    if stream == [] then None
    else if stream[0] == SPACE then Some(Count(soFar, stream[1..]))
    else if 48 <= stream[0] <= 57 then ReadCount(stream[1..], 10 * soFar + (stream[0] - 48) as nat)
    else None
  }

  /**
   What a collector makes of a stream: the first whole frame, if there is one. MSG-LEN begins with a
   nonzero digit.
   */
  function ReadFrame(stream: seq<byte>): (r: Option<(Line, seq<byte>)>)
    ensures r.Some? ==> |r.value.1| < |stream|
  {
    if stream == [] || !(49 <= stream[0] <= 57) then None
    else match ReadCount(stream, 0)
      case None => None
      case Some(Count(length, rest)) => if 0 < length <= |rest| then Some((rest[..length], rest[length..])) else None
  }

  /** The lines of a stream; what is left of a frame cut short is ignored. */
  function Decode(stream: seq<byte>): seq<Line>
    decreases |stream|
  {
    match ReadFrame(stream)
    case None => []
    case Some((line, rest)) => [line] + Decode(rest)
  }

  lemma {:induction false} CountReadsBack(n: nat, tail: seq<byte>)
    ensures ReadCount(Digits(n) + tail, 0) == ReadCount(tail, n)
  {
    if n >= 10 {
      var d := [(48 + n % 10) as byte];
      CountReadsBack(n / 10, d + tail);
      assert Digits(n) + tail == Digits(n / 10) + (d + tail);
      assert (d + tail)[1..] == tail;
    } else {
      assert (Digits(n) + tail)[1..] == tail;
    }
  }

  lemma CountEnds(n: nat, rest: seq<byte>)
    ensures ReadCount([SPACE] + rest, n) == Some(Count(n, rest))
  {
    assert ([SPACE] + rest)[1..] == rest;
  }

  lemma CountedFrame(stream: seq<byte>, line: Line, tail: seq<byte>)
    requires stream != [] && 49 <= stream[0] <= 57 && ReadCount(stream, 0) == Some(Count(|line|, line + tail))
    ensures ReadFrame(stream) == Some((line, tail))
  {
    assert (line + tail)[..|line|] == line && (line + tail)[|line|..] == tail;
  }

  lemma FrameReadsBack(line: Line, tail: seq<byte>)
    ensures ReadFrame(Frame(line) + tail) == Some((line, tail))
  {
    var count, rest := Digits(|line|), [SPACE] + (line + tail);
    assert Frame(line) + tail == count + rest;
    assert 49 <= (count + rest)[0] <= 57;
    hide *;
    CountReadsBack(|line|, rest);
    CountEnds(|line|, line + tail);
    CountedFrame(count + rest, line, tail);
  }

  lemma {:induction false} OnlyDigits(digits: seq<byte>, soFar: nat)
    requires forall i | 0 <= i < |digits| :: 48 <= digits[i] <= 57
    ensures ReadCount(digits, soFar).None?
  {
    if digits != [] {
      OnlyDigits(digits[1..], 10 * soFar + (digits[0] - 48) as nat);
    }
  }

  lemma CutFrameIsIgnored(line: Line, n: nat)
    requires n < |Frame(line)|
    ensures ReadFrame(Frame(line)[..n]).None?
  {
    var count := Digits(|line|);
    if n <= |count| {
      assert Frame(line)[..n] == count[..n];
      OnlyDigits(count[..n], 0);
    } else {
      var tail := line[..n - |count| - 1];
      assert Frame(line)[..n] == count + ([SPACE] + tail);
      CountReadsBack(|line|, [SPACE] + tail);
      assert ([SPACE] + tail)[1..] == tail;
    }
  }

  /** Decoding gives back what was framed, in order, then whatever the rest of the stream holds. */
  lemma {:induction false} DecodesBack(lines: seq<Line>, tail: seq<byte>)
    ensures Decode(Frames(lines) + tail) == lines + Decode(tail)
  {
    if lines == [] {
      assert Frames(lines) + tail == tail;
    } else {
      var front, line := lines[..|lines| - 1], lines[|lines| - 1];
      assert lines == front + [line];
      FramesMore(front, line);
      FrameReadsBack(line, tail);
      DecodeNext(Frame(line) + tail, line, tail);
      hide Frames, Frame, Decode;
      DecodesBack(front, Frame(line) + tail);
      assert Frames(front) + Frame(line) + tail == Frames(front) + (Frame(line) + tail);
    }
  }

  lemma DecodeNext(stream: seq<byte>, line: Line, rest: seq<byte>)
    requires ReadFrame(stream) == Some((line, rest))
    ensures Decode(stream) == [line] + Decode(rest)
  {}

  lemma FramesMore(lines: seq<Line>, line: Line)
    ensures Frames(lines + [line]) == Frames(lines) + Frame(line)
  {
    assert (lines + [line])[..|lines|] == lines;
  }

  // ---- The forwarder ---------------------------------------------------------------------

  /** One line the worker took, and whether sending it raised nothing. */
  datatype Attempt = Attempt(line: Line, sent: bool)

  function SentLines(attempts: seq<Attempt>): seq<Line> {
    if attempts == [] then []
    else SentLines(attempts[..|attempts| - 1]) + if attempts[|attempts| - 1].sent then [attempts[|attempts| - 1].line]
        else []
  }

  function Attempted(attempts: seq<Attempt>): seq<Line> {
    seq(|attempts|, i requires 0 <= i < |attempts| => attempts[i].line)
  }

  lemma SentLinesMore(attempts: seq<Attempt>, a: Attempt)
    ensures SentLines(attempts + [a]) == SentLines(attempts) + if a.sent then [a.line] else []
    ensures Attempted(attempts + [a]) == Attempted(attempts) + [a.line]
  {
    assert (attempts + [a])[..|attempts|] == attempts;
  }

  /** What a collector has read from all the connections there were. */
  function DecodeAll(streams: seq<seq<byte>>): seq<Line> {
    if streams == [] then [] else DecodeAll(streams[..|streams| - 1]) + Decode(streams[|streams| - 1])
  }

  lemma DecodeAllMore(streams: seq<seq<byte>>, stream: seq<byte>)
    ensures DecodeAll(streams + [stream]) == DecodeAll(streams) + Decode(stream)
  {
    assert (streams + [stream])[..|streams|] == streams;
  }

  /**
   How the network treats one line: whether connecting works, and how many bytes
   go out before an error, if there is one. sendall only fails with bytes left.
   */
  datatype Net = Net(connects: bool, failsAfter: Option<nat>)

  class Forwarder {
    const tcp: bool

    var queue: seq<Line>
    var waiting: bool            // the worker is inside queue.get
    var inFlight: Option<Line>   // taken from the queue by the worker
    var connected: bool          // _sock is not None
    var shut: bool               // close() has closed the socket underneath
    var stopped: bool
    var sent: nat
    var errors: nat
    var dropped: nat

    // What is on the wire.
    var stream: seq<byte>        // bytes of the current TCP connection
    var streams: seq<seq<byte>>  // and of earlier ones
    var datagrams: seq<Line>

    // History.
    ghost var offered: nat
    ghost var accepted: seq<Line>    // the lines put on the queue, in order
    ghost var attempts: seq<Attempt> // what became of those the worker took
    ghost var current: seq<Line>     // the lines sent whole on the current connection

    ghost function Flight(): nat
      reads this
    {
      if inFlight.Some? then 1 else 0
    }

    /** The lines that have left the queue. */
    ghost function Taken(): nat
      reads this
    {
      |attempts| + Flight()
    }

    ghost predicate Valid()
      reads this
    {
      && |queue| <= MAX_QUEUE && (waiting ==> inFlight.None?)
      && offered == |queue| + Flight() + sent + errors + dropped
      && |attempts| == sent + errors && |SentLines(attempts)| == sent
      && accepted == Attempted(attempts) + (if inFlight.Some? then [inFlight.value] else []) + queue
      && stream == Frames(current)
      && (tcp ==> DecodeAll(streams) + current == SentLines(attempts))
      && (!tcp ==> datagrams == SentLines(attempts) && current == [])
      && (!connected ==> current == [])
    }

    constructor (tcp: bool)
      ensures Valid() && this.tcp == tcp && offered == 0 && queue == []
    {
      this.tcp := tcp;
      queue, waiting, inFlight, connected, shut, stopped := [], false, None, false, false, false;
      sent, errors, dropped := 0, 0, 0;
      stream, streams, datagrams := [], [], [];
      offered, accepted, attempts, current := 0, [], [], [];
    }

    /** `line` is None where formatting the record raises. */
    method Emit(ownRecord: bool, line: Option<Line>)
      requires Valid()
      modifies this`queue, this`dropped, this`offered, this`accepted
      ensures Valid()
      ensures ownRecord ==> unchanged(this)
      ensures old(accepted) <= accepted
      ensures !ownRecord ==>
                && offered == old(offered) + 1
                && (if line.Some? && |old(queue)| < MAX_QUEUE
                    then queue == old(queue) + [line.value] && dropped == old(dropped)
                    else queue == old(queue) && dropped == old(dropped) + 1)
    {
      hide Frames, DecodeAll, SentLines, Attempted;
      if ownRecord {
        return;
      }
      offered := offered + 1;
      if line.None? || |queue| >= MAX_QUEUE {
        dropped := dropped + 1;
        return;
      }
      queue := queue + [line.value];
      accepted := accepted + [line.value];
    }

    /** The head of the worker's loop: unless it has been stopped, it goes on to wait for a line. */
    method Await()
      requires Valid() && inFlight.None?
      modifies this`waiting
      ensures Valid() && waiting == (old(waiting) || !stopped)
    {
      hide Frames, DecodeAll, SentLines, Attempted;
      waiting := waiting || !stopped;
    }

    /** queue.get returns, with a line or because its time is over; a close() does not interrupt it. */
    method Take() returns (any: bool)
      requires Valid() && waiting
      modifies this`queue, this`inFlight, this`waiting
      ensures Valid() && !waiting
      ensures any == (old(queue) != [])
      ensures if any then inFlight == Some(old(queue)[0]) && queue == old(queue)[1..]
              else inFlight.None? && queue == old(queue)
    {
      hide Frames, DecodeAll, SentLines, Attempted;
      any, waiting := queue != [], false;
      if any {
        inFlight, queue := Some(queue[0]), queue[1..];
      }
    }

    /** The bytes of a frame that go out, and whether all did. */
    function Written(frame: seq<byte>, net: Net): (r: nat)
      requires frame != []
      reads this
      ensures r <= |frame|
    {
      if (if connected then shut else !net.connects) then 0
      else match net.failsAfter
        case None => |frame|
        case Some(n) => if n < |frame| then n else |frame| - 1
    }

    /** _send, and what _run does with its outcome. An error costs the line and the connection. */
    method Deliver(net: Net)
      requires Valid() && inFlight.Some?
      modifies this
      ensures Valid()
      ensures inFlight.None? && queue == old(queue) && dropped == old(dropped) && offered == old(offered)
                && accepted == old(accepted)
      ensures var line := old(inFlight).value;
              var ok := old(Written(Frame(line), net)) == |Frame(line)|;
              && attempts == old(attempts) + [Attempt(line, ok)]
              && connected == ok
              && sent == old(sent) + (if ok then 1 else 0) && errors == old(errors) + (if ok then 0 else 1)
              && (ok && tcp ==> stream == old(stream) + Frame(line) && streams == old(streams))
              && (ok && !tcp ==> datagrams == old(datagrams) + [line])
              && (!ok && tcp ==>
                    streams == old(streams) + [old(stream) + Frame(line)[..old(Written(Frame(line), net))]])
              && (!ok && !tcp ==> datagrams == old(datagrams))
      ensures stopped == old(stopped) && waiting == old(waiting)
    {
      hide Frame, Frames, Decode, DecodeAll, SentLines, Attempted;
      var line := inFlight.value;
      var frame := Frame(line);
      var n := Written(frame, net);
      if !connected && net.connects {
        connected, shut := true, false;
      }
      if n == |frame| {
        Succeed(line);
      } else {
        Fail(line, n);
      }
    }

    method Succeed(line: Line)
      requires Valid() && inFlight == Some(line) && connected
      modifies this
      ensures Valid()
      ensures inFlight.None? && queue == old(queue) && dropped == old(dropped) && offered == old(offered)
                && accepted == old(accepted)
      ensures attempts == old(attempts) + [Attempt(line, true)]
      ensures connected && stopped == old(stopped) && waiting == old(waiting) && sent == old(sent) + 1
                && errors == old(errors)
      ensures streams == old(streams)
      ensures stream == if tcp then old(stream) + Frame(line) else old(stream)
      ensures datagrams == if tcp then old(datagrams) else old(datagrams) + [line]
    {
      hide Frame, Frames, Decode, DecodeAll, SentLines, Attempted;
      SentLinesMore(attempts, Attempt(line, true));
      FramesMore(current, line);
      inFlight, sent, attempts := None, sent + 1, attempts + [Attempt(line, true)];
      if tcp {
        stream, current := stream + Frame(line), current + [line];
      } else {
        datagrams := datagrams + [line];
      }
    }

    method Fail(line: Line, n: nat)
      requires Valid() && inFlight == Some(line) && n < |Frame(line)|
      modifies this`inFlight, this`errors, this`attempts, this`streams, this`stream, this`connected, this`current
      ensures Valid()
      ensures inFlight.None?
      ensures attempts == old(attempts) + [Attempt(line, false)]
      ensures !connected && errors == old(errors) + 1
      ensures streams == if tcp then old(streams) + [old(stream) + Frame(line)[..n]] else old(streams)
    {
      hide Frame, Frames, Decode, DecodeAll, SentLines, Attempted;
      SentLinesMore(attempts, Attempt(line, false));
      assert Attempted(attempts) + [line] + [] == Attempted(attempts) + [line];
      inFlight, errors, attempts := None, errors + 1, attempts + [Attempt(line, false)];
      if tcp {
        CutStreamDecodes(streams, current, line, n);
        streams := streams + [stream + Frame(line)[..n]];
      }
      NoFrames();
      stream, connected, current := [], false, [];
    }

    /** close() */
    method Close()
      requires Valid()
      modifies this`stopped, this`shut
      ensures Valid() && stopped && (connected ==> shut)
    {
      stopped := true;
      if connected {
        shut := true;
      }
    }
  }

  lemma NoFrames()
    ensures Frames([]) == []
  {}

  lemma CutStreamDecodes(streams: seq<seq<byte>>, current: seq<Line>, line: Line, n: nat)
    requires n < |Frame(line)|
    ensures DecodeAll(streams + [Frames(current) + Frame(line)[..n]]) == DecodeAll(streams) + current
  {
    DecodesBack(current, Frame(line)[..n]);
    CutFrameIsIgnored(line, n);
    DecodeAllMore(streams, Frames(current) + Frame(line)[..n]);
  }

  /** What producers, the worker and close() do, in any order. */
  datatype Step = Record(own: bool, line: Option<Line>) | Look | Get | Send(net: Net) | Shut

  /**
   Any run: every record offered is queued, in flight, sent, failed or dropped; and
   over TCP the collectors read exactly the lines counted as sent, in the order
   they were queued, whatever connections broke in the middle of a frame. After close()
   at most one more line leaves the queue: one the worker was already waiting for.
   */
  method Run(f: Forwarder, steps: seq<Step>)
    requires f.Valid()
    modifies f
    ensures f.Valid()
    ensures f.offered == |f.queue| + f.Flight() + f.sent + f.errors + f.dropped && |f.queue| <= 5_000
    ensures f.tcp ==> DecodeAll(f.streams + [f.stream]) == SentLines(f.attempts)
    ensures !f.tcp ==> f.datagrams == SentLines(f.attempts)
    ensures Attempted(f.attempts) <= f.accepted && |SentLines(f.attempts)| == f.sent
    ensures old(f.accepted) <= f.accepted && old(f.attempts) <= f.attempts
    ensures old(f.stopped) ==> f.Taken() <= old(f.Taken()) + if old(f.waiting) then 1 else 0
  {
    hide Frames, Decode, DecodeAll, SentLines, Attempted;
    for i := 0 to |steps|
      invariant f.Valid()
      invariant old(f.accepted) <= f.accepted && old(f.attempts) <= f.attempts
      invariant old(f.stopped) ==> f.stopped
      invariant old(f.stopped) ==>
                  f.Taken() + (if f.waiting then 1 else 0) <= old(f.Taken()) + if old(f.waiting) then 1 else 0
    {
      match steps[i] {
        case Record(own, line) => f.Emit(own, line);
        case Look => if f.inFlight.None? { f.Await(); }
        case Get => if f.waiting { var _ := f.Take(); }
        case Send(net) => if f.inFlight.Some? { f.Deliver(net); }
        case Shut => f.Close();
      }
    }
    DecodesBack(f.current, []);
    NothingDecoded();
    assert f.stream + [] == f.stream;
    DecodeAllMore(f.streams, f.stream);
  }

  lemma NothingDecoded()
    ensures Decode([]) == []
  {}
}
