/**
 A download's goroutine beside everything else: what it reads, stamps and sends
 depends on what happens at every moment between its steps, and on nothing more.
 */
module Downloads {
  import opened Wrappers
  import opened FileTransfer

  const FILE_CHUNK_SIZE := 256 * 1024

  /** A frame in the history: who wrote it, the handler (0) or a goroutine, and the generation at that moment. */
  datatype Entry = Entry(frame: Frame, writer: nat, generation: nat)

  datatype End = More | Eof | Failed

  /** One Read: how many bytes it would give, and whether the error beside them is nil, io.EOF or another. */
  datatype Read = Read(n: nat, end: End)

  /**
   The goroutine `me`, started when the state was `s` to send `path` in generation
   `gen`. `opens` says whether os.Open and Stat succeed, `answers` what the Reads
   give, `during` what happens between one step and the next.
   */
  datatype Job = Job(s: State, path: string, gen: nat, opens: bool, answers: seq<Read>, during: nat -> seq<Event>,
                     me: nat)

  /** The state when `k` stretches of other things have passed. */
  ghost function At(j: Job, k: nat): State {
    if k == 0 then j.s else After(At(j, k - 1), j.during(k - 1))
  }

  // ---- What the others write --------------------------------------------------------------------

  /** The handler's answer, if any, stamped when its message has been dealt with. */
  function Answer(after: State, reply: Option<Wire>): seq<Entry> {
    if reply.Some? then [Entry(Frame(after.session, reply.value), 0, after.generation)] else []
  }

  /** The frames one event puts on the wire: the handler's answer, or what another download sends. */
  function Aside(s: State, e: Event, me: nat): seq<Entry> {
    match e
    case Message(msg, os) => Answer(Handled(s, msg, os), Reply(s, msg, os))
    case OtherDownload(writer, frame) =>
      if writer != 0 && writer != me then [Entry(frame, writer, s.generation)] else []
    case Elsewhere(_, _, _) => []
  }

  function Asides(s: State, events: seq<Event>, me: nat): seq<Entry> {
    if events == [] then []
    else
      var front := events[..|events| - 1];
      Asides(s, front, me) + Aside(After(s, front), events[|events| - 1], me)
  }

  /** What the others write in one stretch. */
  ghost function Beside(j: Job, k: nat): seq<Entry> {
    Asides(At(j, k), j.during(k), j.me)
  }

  // ---- The goroutine ------------------------------------------------------------------------------

  /**
   How far the loop has come: everything written since it began, the chunks among
   that, the bytes read, and how it ended, if it has: None when it saw that it is
   superseded.
   */
  datatype Progress = Progress(log: seq<Entry>, chunks: seq<Entry>, offset: nat, end: Option<End>, rounds: nat)

  function Inode(j: Job): nat {
    if j.path in j.s.names then j.s.names[j.path] else 0
  }

  predicate Found(j: Job) {
    j.opens && j.path in j.s.names && |Content(j.s.files, Inode(j))| <= MAX_FILE_TRANSFER_BYTES
  }

  function Left(now: seq<byte>, offset: nat): nat {
    if offset <= |now| then |now| - offset else 0
  }

  function Count(now: seq<byte>, offset: nat, answer: Read): nat {
    Min(answer.n, Min(FILE_CHUNK_SIZE, Left(now, offset)))
  }

  /** io.EOF comes with the last byte at the earliest. */
  function EndOfRead(now: seq<byte>, offset: nat, answer: Read): End {
    if answer.end == Eof && Count(now, offset, answer) < Left(now, offset) then More else answer.end
  }

  /** The chunk a Read gives, if it gives anything: the file is read as it is by then. */
  function ChunkOf(read: State, sent: State, inode: nat, offset: nat, answer: Read, me: nat): seq<Entry> {
    var now := Content(read.files, inode);
    var n := Count(now, offset, answer);
    if n == 0 then [] else [Entry(Frame(read.session, Chunk(now[offset..offset + n])), me, sent.generation)]
  }

  /** What one round adds to the history: two stretches of other things, and the chunk. */
  ghost function RoundLog(j: Job, p: Progress, answer: Read): seq<Entry> {
    var k := 2 * p.rounds;
    Beside(j, k) + Beside(j, k + 1) + ChunkOf(At(j, k + 1), At(j, k + 2), Inode(j), p.offset, answer, j.me)
  }

  /** One round of the loop that is not superseded when it begins. */
  ghost function Round(j: Job, p: Progress, answer: Read): Progress {
    var k := 2 * p.rounds;
    var now := Content(At(j, k + 1).files, Inode(j));
    Progress(p.log + RoundLog(j, p, answer),
             p.chunks + ChunkOf(At(j, k + 1), At(j, k + 2), Inode(j), p.offset, answer, j.me),
             p.offset + Count(now, p.offset, answer), Some(EndOfRead(now, p.offset, answer)), p.rounds + 1)
  }

  ghost function Next(j: Job, p: Progress, answer: Read): Progress {
    if p.end != Some(More) then p
    else if At(j, 2 * p.rounds).generation != j.gen then p.(end := None)
    else Round(j, p, answer)
  }

  const BEGIN := Progress([], [], 0, Some(More), 0)

  /** After at most `i` rounds. */
  ghost function Loop(j: Job, i: nat): Progress
    requires i <= |j.answers|
  {
    if i == 0 then BEGIN else Next(j, Loop(j, i - 1), j.answers[i - 1])
  }

  datatype Outcome = Refused | Running | Superseded | Broken | Done

  /** All that is written from the start of a download to its end, and the download's own part of it. */
  datatype Stream = Stream(log: seq<Entry>, mine: seq<Entry>, chunks: nat, outcome: Outcome, moments: nat)

  /** A last frame, stamped one stretch later and sent after another. */
  ghost function Closing(j: Job, p: Progress, msg: Wire, outcome: Outcome): Stream {
    var k := 2 * p.rounds;
    var last := Entry(Frame(At(j, k + 1).session, msg), j.me, At(j, k + 2).generation);
    Stream(p.log + (Beside(j, k) + Beside(j, k + 1) + [last]), p.chunks + [last], |p.chunks|, outcome, k + 2)
  }

  ghost function Ended(j: Job, p: Progress): Stream {
    match p.end
    case None => Stream(p.log, p.chunks, |p.chunks|, Superseded, 2 * p.rounds)
    case Some(More) => Stream(p.log, p.chunks, |p.chunks|, Running, 2 * p.rounds)
    case Some(Failed) => Closing(j, p, Error("download"), Broken)
    case Some(Eof) =>
      if At(j, 2 * p.rounds).generation == j.gen then Closing(j, p, DownloadDone, Done)
      else Stream(p.log, p.chunks, |p.chunks|, Superseded, 2 * p.rounds)
  }

  ghost function Streamed(j: Job): Stream {
    if Found(j) then Ended(j, Loop(j, |j.answers|)) else Closing(j, BEGIN, Error("download"), Refused)
  }

  /** The loop has come to round `i`. */
  ghost predicate Reading(j: Job, i: nat) {
    i <= |j.answers| && Loop(j, i).end == Some(More) && Loop(j, i).rounds == i
  }

  lemma NextRound(j: Job, i: nat)
    requires i < |j.answers| && Reading(j, i)
    ensures At(j, 2 * i + 1) == After(At(j, 2 * i), j.during(2 * i))
    ensures At(j, 2 * i + 2) == After(At(j, 2 * i + 1), j.during(2 * i + 1))
    ensures Loop(j, i + 1) == if At(j, 2 * i).generation != j.gen then Loop(j, i).(end := None)
                              else Round(j, Loop(j, i), j.answers[i])
  {
    hide After, At, Round, Beside;
    AtNext(j, 2 * i);
    AtNext(j, 2 * i + 1);
  }

  /** A round in terms of the states it passes. */
  lemma RoundPasses(j: Job, i: nat, before: State, read: State, sent: State)
    requires i < |j.answers| && Reading(j, i) && before == At(j, 2 * i) && before.generation == j.gen
    requires read == After(before, j.during(2 * i)) && sent == After(read, j.during(2 * i + 1))
    ensures var p, q, answer := Loop(j, i), Loop(j, i + 1), j.answers[i];
            var now := Content(read.files, Inode(j));
            && At(j, 2 * i + 2) == sent
            && q.offset == p.offset + Count(now, p.offset, answer) && q.end == Some(EndOfRead(now, p.offset, answer))
            && q.rounds == i + 1
            && RoundLog(j, p, answer) == Asides(before, j.during(2 * i), j.me) + Asides(read, j.during(2 * i + 1), j.me)
                                         + ChunkOf(read, sent, Inode(j), p.offset, answer, j.me)
            && q.log == p.log + RoundLog(j, p, answer)
  {
    hide After, At, Loop, ChunkOf, Count, EndOfRead, Asides, Content, Inode, RoundLog;
    NextRound(j, i);
    RoundLogIs(j, Loop(j, i), j.answers[i], before, read, sent);
  }

  lemma RoundLogIs(j: Job, p: Progress, answer: Read, before: State, read: State, sent: State)
    requires var k := 2 * p.rounds; before == At(j, k) && read == At(j, k + 1) && sent == At(j, k + 2)
    ensures RoundLog(j, p, answer)
         == Asides(before, j.during(2 * p.rounds), j.me) + Asides(read, j.during(2 * p.rounds + 1), j.me)
            + ChunkOf(read, sent, Inode(j), p.offset, answer, j.me)
  {
    hide At, Asides, ChunkOf, Inode;
  }

  lemma ClosingPasses(j: Job, p: Progress, msg: Wire, outcome: Outcome, before: State, stamped: State, sent: State)
    requires before == At(j, 2 * p.rounds)
    requires stamped == After(before, j.during(2 * p.rounds)) && sent == After(stamped, j.during(2 * p.rounds + 1))
    ensures var r := Closing(j, p, msg, outcome);
            && r.log == p.log + (Asides(before, j.during(2 * p.rounds), j.me)
                                 + Asides(stamped, j.during(2 * p.rounds + 1), j.me)
                                 + [Entry(Frame(stamped.session, msg), j.me, sent.generation)])
            && At(j, r.moments) == sent
  {
    hide After, At, Asides;
    var k := 2 * p.rounds;
    AtNext(j, k);
    AtNext(j, k + 1);
  }

  lemma AtNext(j: Job, k: nat)
    ensures At(j, k + 1) == After(At(j, k), j.during(k))
  {
    hide After;
  }

  lemma FoundIs(j: Job)
    ensures j.path in j.s.names && Sound(j.s) ==>
              Inode(j) == j.s.names[j.path] && Inode(j) in j.s.files
              && (Found(j) <==> j.opens && |j.s.files[Inode(j)]| <= MAX_FILE_TRANSFER_BYTES)
    ensures !j.opens || j.path !in j.s.names ==> !Found(j)
  {}

  lemma ReadingBegins(j: Job)
    ensures Reading(j, 0) && Loop(j, 0) == BEGIN && At(j, 0) == j.s
  {}

  /** Once it has ended, the loop stays as it is. */
  lemma {:induction false} LoopStops(j: Job, i: nat)
    requires i <= |j.answers| && Loop(j, i).end != Some(More)
    ensures Loop(j, |j.answers|) == Loop(j, i)
    decreases |j.answers| - i
  {
    if i < |j.answers| {
      LoopStops(j, i + 1);
    }
  }

  // ---- Whose frames are on the wire ----------------------------------------------------------------

  function Frames(log: seq<Entry>): seq<Frame> {
    seq(|log|, i requires 0 <= i < |log| => log[i].frame)
  }

  lemma FramesBoth(a: seq<Entry>, b: seq<Entry>)
    ensures Frames(a + b) == Frames(a) + Frames(b)
  {}

  /** What one goroutine has written. */
  function Own(log: seq<Entry>, me: nat): seq<Entry> {
    if log == [] then []
    else Own(log[..|log| - 1], me) + if log[|log| - 1].writer == me then [log[|log| - 1]] else []
  }

  /** What only downloads send. */
  function DownloadsOf(log: seq<Entry>): seq<Entry> {
    if log == [] then []
    else DownloadsOf(log[..|log| - 1]) + if IsDownload(log[|log| - 1].frame.msg) then [log[|log| - 1]] else []
  }

  lemma {:induction false} OwnBoth(a: seq<Entry>, b: seq<Entry>, me: nat)
    ensures Own(a + b, me) == Own(a, me) + Own(b, me)
    ensures DownloadsOf(a + b) == DownloadsOf(a) + DownloadsOf(b)
  {
    if b == [] {
      assert a + b == a;
    } else {
      var front, e := b[..|b| - 1], b[|b| - 1];
      OwnBoth(a, front, me);
      assert (a + b)[..|a + b| - 1] == a + front && (a + b)[|a + b| - 1] == e;
    }
  }

  /** The handler, and no other download. */
  predicate Alone(events: seq<Event>) {
    forall e | e in events :: !e.OtherDownload?
  }

  ghost predicate AllAlone(j: Job) {
    forall k :: Alone(j.during(k))
  }

  /** Nothing else happens. */
  ghost predicate Quiet(j: Job) {
    forall k :: j.during(k) == []
  }

  lemma AsideIsOthers(s: State, e: Event, me: nat)
    requires me > 0
    ensures Own(Aside(s, e, me), me) == []
    ensures !e.OtherDownload? ==> DownloadsOf(Aside(s, e, me)) == []
  {
    hide Handled;
  }

  lemma {:induction false} AsidesAreOthers(s: State, events: seq<Event>, me: nat)
    requires me > 0
    ensures Own(Asides(s, events, me), me) == []
    ensures Alone(events) ==> DownloadsOf(Asides(s, events, me)) == []
    ensures events == [] ==> Asides(s, events, me) == []
  {
    if events != [] {
      var front, e := events[..|events| - 1], events[|events| - 1];
      assert e in events && forall x | x in front :: x in events;
      AsidesAreOthers(s, front, me);
      AsideIsOthers(After(s, front), e, me);
      OwnBoth(Asides(s, front, me), Aside(After(s, front), e, me), me);
      hide Aside, Own, DownloadsOf;
    }
  }

  /** Of all that was written, `mine` is this download's part: in order, each frame once, and nothing else. */
  ghost predicate OnRecord(j: Job, log: seq<Entry>, mine: seq<Entry>) {
    && Own(log, j.me) == mine
    && (AllAlone(j) ==> DownloadsOf(log) == mine)
    && (Quiet(j) ==> log == mine)
  }

  lemma OneFrame(e: Entry, me: nat)
    requires e.writer == me && IsDownload(e.frame.msg)
    ensures Own([e], me) == [e] && DownloadsOf([e]) == [e] && Own([], me) == [] && DownloadsOf([]) == []
  {
    assert [e][..0] == [];
  }

  /** Two stretches of other things, then at most one frame of the download. */
  lemma OnRecordMore(j: Job, log: seq<Entry>, mine: seq<Entry>, k: nat, last: seq<Entry>)
    requires j.me > 0 && OnRecord(j, log, mine) && |last| <= 1
    requires forall e | e in last :: e.writer == j.me && IsDownload(e.frame.msg)
    ensures OnRecord(j, log + (Beside(j, k) + Beside(j, k + 1) + last), mine + last)
  {
    hide Own, DownloadsOf, Asides, At, After;
    var first, second := Beside(j, k), Beside(j, k + 1);
    AsidesAreOthers(At(j, k), j.during(k), j.me);
    AsidesAreOthers(At(j, k + 1), j.during(k + 1), j.me);
    OwnBoth(first, second, j.me);
    OwnBoth(first + second, last, j.me);
    OwnBoth(log, first + second + last, j.me);
    if last != [] {
      OneFrame(last[0], j.me);
      assert last == [last[0]];
    } else {
      OneFrame(Entry(Frame("", DownloadDone), j.me, 0), j.me);
    }
  }

  lemma {:induction false} LoopOnRecord(j: Job, i: nat)
    requires j.me > 0 && i <= |j.answers|
    ensures OnRecord(j, Loop(j, i).log, Loop(j, i).chunks)
  {
    hide OnRecord, Beside, At, Loop;
    if i == 0 {
      BeginOnRecord(j);
    } else {
      var p := Loop(j, i - 1);
      LoopOnRecord(j, i - 1);
      assert Loop(j, i) == Next(j, p, j.answers[i - 1]) by { LoopNext(j, i); }
      if Next(j, p, j.answers[i - 1]).rounds != p.rounds {
        var q := Round(j, p, j.answers[i - 1]);
        OnRecordMore(j, p.log, p.chunks, 2 * p.rounds, q.chunks[|p.chunks|..]);
      }
    }
  }

  lemma LoopNext(j: Job, i: nat)
    requires 0 < i <= |j.answers|
    ensures Loop(j, i) == Next(j, Loop(j, i - 1), j.answers[i - 1])
  {
    hide Next;
  }

  lemma BeginOnRecord(j: Job)
    ensures Loop(j, 0) == BEGIN && OnRecord(j, [], [])
  {}

  /**
   Main result on what a download puts on the wire: of everything written while it
   runs, its own frames are `mine`, in that order and once each. They are all the
   download frames if no other download runs, and everything if nothing happens.
   */
  lemma WritesItsOwn(j: Job)
    requires j.me > 0
    ensures OnRecord(j, Streamed(j).log, Streamed(j).mine)
  {
    hide OnRecord, Beside, At, Loop;
    BeginOnRecord(j);
    var p := if Found(j) then Loop(j, |j.answers|) else BEGIN;
    LoopOnRecord(j, |j.answers|);
    var last := Streamed(j).mine[|p.chunks|..];
    if last != [] {
      OnRecordMore(j, p.log, p.chunks, 2 * p.rounds, last);
    }
  }

  // ---- Superseded downloads ------------------------------------------------------------------------

  lemma {:induction false} AtIsOnward(j: Job, k: nat, m: nat)
    requires k <= m
    ensures Onward(At(j, k), At(j, m))
  {
    hide After;
    if k < m {
      AtIsOnward(j, k, m - 1);
      AfterIsOnward(At(j, m - 1), j.during(m - 1));
    }
  }

  lemma BeginsOnward(j: Job, k: nat)
    ensures Onward(j.s, At(j, k))
  {
    AtIsOnward(j, 0, k);
  }

  predicate AreChunks(log: seq<Entry>) {
    forall e | e in log :: e.frame.msg.Chunk? && 0 < |e.frame.msg.data| <= FILE_CHUNK_SIZE
  }

  ghost predicate AllAt(mine: seq<Entry>, gen: nat) {
    forall e | e in mine :: e.generation == gen
  }

  ghost predicate AllButLastAt(mine: seq<Entry>, gen: nat) {
    mine != [] ==> AllAt(mine[..|mine| - 1], gen)
  }

  /** What was written before the download was superseded carries the session it was asked in. */
  ghost predicate Timely(j: Job, mine: seq<Entry>, now: nat) {
    forall e | e in mine :: j.gen <= e.generation <= now && (e.generation == j.gen ==> e.frame.session == j.s.session)
  }

  /** The loop has sent chunks, all but the last of them before it was superseded. */
  ghost predicate Shaped(j: Job, p: Progress) {
    var now := At(j, 2 * p.rounds).generation;
    && j.gen <= now
    && AreChunks(p.chunks) && Timely(j, p.chunks, now)
    && AllButLastAt(p.chunks, j.gen)
    && (now == j.gen ==> AllAt(p.chunks, j.gen))
    && (p.end.None? ==> now != j.gen)
  }

  lemma TimelyStill(j: Job, mine: seq<Entry>, before: nat, now: nat)
    requires before <= now
    ensures Timely(j, mine, before) ==> Timely(j, mine, now)
  {}

  lemma TimelyMore(j: Job, mine: seq<Entry>, before: nat, now: nat, e: Entry)
    requires before <= now
    requires j.gen <= e.generation <= now && (e.generation == j.gen ==> e.frame.session == j.s.session)
    ensures Timely(j, mine, before) ==> Timely(j, mine + [e], now)
  {}

  lemma ChunksMore(mine: seq<Entry>, e: Entry, gen: nat)
    requires AllAt(mine, gen)
    ensures AllButLastAt(mine, gen) && AllButLastAt(mine + [e], gen)
    ensures e.generation == gen ==> AllAt(mine + [e], gen)
    ensures AreChunks(mine) && AreChunks([e]) ==> AreChunks(mine + [e])
  {
    assert (mine + [e])[..|mine|] == mine;
  }

  /** What a round adds: nothing, or a chunk, which is of the session if the download is not superseded by then. */
  lemma RoundAdds(j: Job, p: Progress, answer: Read)
    requires j.gen <= j.s.generation
    ensures var q, now := Round(j, p, answer), At(j, 2 * p.rounds + 2);
            && q.rounds == p.rounds + 1 && q.end.Some?
            && j.gen <= now.generation && At(j, 2 * p.rounds).generation <= now.generation
            && (q.chunks == p.chunks ||
                (var e := q.chunks[|q.chunks| - 1];
                 && q.chunks == p.chunks + [e] && AreChunks([e]) && e.generation == now.generation
                 && (e.generation == j.gen ==> e.frame.session == j.s.session)))
  {
    hide At, Beside, Content;
    var k := 2 * p.rounds;
    BeginsOnward(j, k + 1);
    AtIsOnward(j, k, k + 2);
    AtIsOnward(j, k + 1, k + 2);
  }

  lemma ShapedNext(j: Job, p: Progress, answer: Read)
    requires j.gen <= j.s.generation
    ensures Shaped(j, p) ==> Shaped(j, Next(j, p, answer))
  {
    hide At, Beside, Round, Timely, AreChunks, AllAt, AllButLastAt;
    if Shaped(j, p) && p.end == Some(More) && At(j, 2 * p.rounds).generation == j.gen {
      RoundAdds(j, p, answer);
      var q, now := Round(j, p, answer), At(j, 2 * p.rounds + 2).generation;
      if q.chunks == p.chunks {
        TimelyStill(j, p.chunks, j.gen, now);
      } else {
        var e := q.chunks[|q.chunks| - 1];
        TimelyMore(j, p.chunks, j.gen, now, e);
        ChunksMore(p.chunks, e, j.gen);
      }
    }
  }

  lemma {:induction false} LoopIsShaped(j: Job, i: nat)
    requires j.gen <= j.s.generation && i <= |j.answers|
    ensures Shaped(j, Loop(j, i))
  {
    hide Shaped, Next;
    if i == 0 {
      BeginIsShaped(j);
    } else {
      LoopIsShaped(j, i - 1);
      ShapedNext(j, Loop(j, i - 1), j.answers[i - 1]);
    }
  }

  lemma BeginIsShaped(j: Job)
    requires j.gen <= j.s.generation
    ensures Shaped(j, BEGIN)
  {}

  /** What ends a download: one frame, or none. */
  predicate Tail(tail: seq<Entry>, outcome: Outcome) {
    match outcome
    case Done => |tail| == 1 && tail[0].frame.msg == DownloadDone
    case Broken => |tail| == 1 && tail[0].frame.msg == Error("download")
    case Refused => |tail| == 1 && tail[0].frame.msg == Error("download")
    case _ => tail == []
  }

  /**
   Whatever happens beside it, a download sends chunks, then at most one frame that
   ends it. Once superseded it sends at most the chunk it was reading, and at most
   one error or done; after a late chunk no done. All before that is of its session.
   */
  lemma SendsChunksThenOneEnd(j: Job)
    requires j.gen <= j.s.generation
    ensures WellSent(j, Streamed(j))
  {
    LoopIsShaped(j, |j.answers|);
    BeginIsShaped(j);
    hide Shaped, WellSent, Loop, Found, Ended;
    EndIsWellSent(j, Loop(j, |j.answers|));
    ClosingIsWellSent(j, BEGIN, Error("download"), Refused);
  }

  ghost predicate WellSent(j: Job, r: Stream) {
    && r.chunks <= |r.mine| && AreChunks(r.mine[..r.chunks]) && Tail(r.mine[r.chunks..], r.outcome)
    && Timely(j, r.mine, At(j, r.moments).generation)
    && AllButLastAt(r.mine[..r.chunks], j.gen)
    && (r.outcome == Done ==> AllAt(r.mine[..r.chunks], j.gen))
    && (r.outcome == Superseded ==> At(j, r.moments).generation != j.gen)
  }

  lemma ClosingIsWellSent(j: Job, p: Progress, msg: Wire, outcome: Outcome)
    requires j.gen <= j.s.generation
    requires Tail([Entry(Frame("", msg), 0, 0)], outcome)
    requires outcome == Done ==> At(j, 2 * p.rounds).generation == j.gen
    ensures Shaped(j, p) ==> WellSent(j, Closing(j, p, msg, outcome))
  {
    hide At, Beside, Timely, AreChunks, AllAt, AllButLastAt, Closing;
    if Shaped(j, p) {
      var k := 2 * p.rounds;
      BeginsOnward(j, k + 1);
      AtIsOnward(j, k, k + 2);
      AtIsOnward(j, k + 1, k + 2);
      var last := Entry(Frame(At(j, k + 1).session, msg), j.me, At(j, k + 2).generation);
      TimelyMore(j, p.chunks, At(j, k).generation, At(j, k + 2).generation, last);
      ClosingIs(j, p, msg, outcome);
    }
  }

  lemma ClosingIs(j: Job, p: Progress, msg: Wire, outcome: Outcome)
    ensures var k, r := 2 * p.rounds, Closing(j, p, msg, outcome);
            var last := Entry(Frame(At(j, k + 1).session, msg), j.me, At(j, k + 2).generation);
            && r.chunks == |p.chunks| < |r.mine| && r.mine == p.chunks + [last] && r.outcome == outcome
               && r.moments == k + 2
            && r.mine[..r.chunks] == p.chunks && r.mine[r.chunks..] == [last]
  {
    hide At, Beside;
  }

  lemma EndIsWellSent(j: Job, p: Progress)
    requires j.gen <= j.s.generation
    ensures Shaped(j, p) ==> WellSent(j, Ended(j, p))
  {
    hide At, Beside, Timely, AreChunks, AllAt, AllButLastAt, Closing;
    if p.end == Some(Failed) {
      ClosingIsWellSent(j, p, Error("download"), Broken);
    } else if p.end == Some(Eof) && At(j, 2 * p.rounds).generation == j.gen {
      ClosingIsWellSent(j, p, DownloadDone, Done);
    } else {
      assert p.chunks[..|p.chunks|] == p.chunks && p.chunks[|p.chunks|..] == [];
    }
  }

  // ---- What the chunks carry -------------------------------------------------------------------------

  function Payload(log: seq<Entry>): seq<byte>
    requires AreChunks(log)
  {
    if log == [] then [] else Payload(log[..|log| - 1]) + log[|log| - 1].frame.msg.data
  }

  lemma PayloadMore(log: seq<Entry>, e: Entry)
    requires AreChunks(log) && e.frame.msg.Chunk? && 0 < |e.frame.msg.data| <= FILE_CHUNK_SIZE
    ensures AreChunks(log + [e]) && Payload(log + [e]) == Payload(log) + e.frame.msg.data
  {
    assert (log + [e])[..|log|] == log;
  }

  /** The file held still: at every Read it is what it was when the download began. */
  ghost predicate HeldStill(j: Job) {
    forall i | 0 <= i < |j.answers| :: ContentAt(j, 2 * i + 1) == ContentAt(j, 0)
  }

  ghost function ContentAt(j: Job, k: nat): seq<byte> {
    Content(At(j, k).files, Inode(j))
  }

  /** How many bytes Reads of a file of `size` bytes give, and how they end. */
  datatype Tally = Tally(got: nat, end: End)

  function Tallied(answers: seq<Read>, size: nat): (t: Tally)
    ensures t.got <= size && (t.end == Eof ==> t.got == size)
  {
    if answers == [] then Tally(0, More)
    else
      var before, answer := Tallied(answers[..|answers| - 1], size), answers[|answers| - 1];
      if before.end != More then before
      else
        var got := Min(size, before.got + Min(answer.n, FILE_CHUNK_SIZE));
        Tally(got, if answer.end == Eof && got < size then More else answer.end)
  }

  /** The loop so far has sent the first bytes of a file that holds still, as many as the Reads gave. */
  ghost predicate Carries(j: Job, p: Progress, i: nat, content: seq<byte>)
    requires i <= |j.answers|
  {
    && AreChunks(p.chunks) && p.offset <= |content| && Payload(p.chunks) == content[..p.offset]
    && (p.end == Some(Eof) ==> p.offset == |content|)
    && (p.end.Some? ==> Tally(p.offset, p.end.value) == Tallied(j.answers[..i], |content|))
    && (p.end == Some(More) ==> p.rounds == i)
    && p.rounds <= i
  }

  lemma TalliedMore(answers: seq<Read>, i: nat, size: nat)
    requires i < |answers|
    ensures var before, answer := Tallied(answers[..i], size), answers[i];
            var got := Min(size, before.got + Min(answer.n, FILE_CHUNK_SIZE));
            Tallied(answers[..i + 1], size)
            == if before.end != More then before
               else Tally(got, if answer.end == Eof && got < size then More else answer.end)
  {
    assert answers[..i + 1][..i] == answers[..i];
  }

  lemma RoundCarries(j: Job, p: Progress, i: nat, content: seq<byte>)
    requires i < |j.answers| && Carries(j, p, i, content) && ContentAt(j, 2 * i + 1) == content && p.end == Some(More)
    ensures var q := Round(j, p, j.answers[i]);
            && AreChunks(q.chunks) && q.offset == Min(|content|, p.offset + Min(j.answers[i].n, FILE_CHUNK_SIZE))
            && Payload(q.chunks) == content[..q.offset]
            && q.end == Some(if j.answers[i].end == Eof && q.offset < |content| then More else j.answers[i].end)
  {
    hide At, Beside, Payload, Tallied;
    var q := Round(j, p, j.answers[i]);
    if q.offset > p.offset {
      var e := q.chunks[|p.chunks|];
      assert q.chunks == p.chunks + [e];
      PayloadMore(p.chunks, e);
      assert content[..p.offset] + content[p.offset..q.offset] == content[..q.offset];
    } else {
      assert q.chunks == p.chunks;
    }
  }

  lemma CarriesNext(j: Job, p: Progress, i: nat, content: seq<byte>)
    requires i < |j.answers| && Carries(j, p, i, content) && ContentAt(j, 2 * i + 1) == content
    ensures Carries(j, Next(j, p, j.answers[i]), i + 1, content)
  {
    hide At, ContentAt, Beside, Payload, Tallied, AreChunks;
    TalliedMore(j.answers, i, |content|);
    if p.end == Some(More) {
      RoundCarries(j, p, i, content);
      hide Round;
      assert Round(j, p, j.answers[i]).rounds == i + 1 by { RoundCounts(j, p, j.answers[i]); }
    }
  }

  lemma RoundCounts(j: Job, p: Progress, answer: Read)
    ensures Round(j, p, answer).rounds == p.rounds + 1
  {}

  lemma CarriesNothing(j: Job, content: seq<byte>)
    ensures Carries(j, BEGIN, 0, content)
  {
    assert j.answers[..0] == [];
  }

  lemma {:induction false} LoopCarries(j: Job, i: nat)
    requires HeldStill(j) && i <= |j.answers|
    ensures Carries(j, Loop(j, i), i, ContentAt(j, 0))
  {
    hide Carries, Next, ContentAt;
    if i == 0 {
      CarriesNothing(j, ContentAt(j, 0));
    } else {
      LoopCarries(j, i - 1);
      CarriesNext(j, Loop(j, i - 1), i - 1, ContentAt(j, 0));
    }
  }

  /**
   Main result on what is delivered: if the file held still the chunks carry a prefix
   of it, and all of it when done is sent. If moreover nothing supersedes the
   download, they carry exactly what the Reads give, and it ends as the Reads end.
   */
  lemma DeliversWhatIsRead(j: Job)
    requires j.gen <= j.s.generation && Found(j) && HeldStill(j)
    ensures var r, content := Streamed(j), ContentAt(j, 0);
            var t := Tallied(j.answers, |content|);
            && r.chunks <= |r.mine| && AreChunks(r.mine[..r.chunks])
            && Payload(r.mine[..r.chunks]) <= content
            && (r.outcome == Done ==> Payload(r.mine[..r.chunks]) == content)
            && (At(j, 2 * |j.answers|).generation == j.gen ==>
                  && Payload(r.mine[..r.chunks]) == content[..t.got]
                  && r.outcome == match t.end case More => Running case Eof => Done case Failed => Broken)
  {
    SendsChunksThenOneEnd(j);
    LoopIsShaped(j, |j.answers|);
    LoopCarries(j, |j.answers|);
    var p := Loop(j, |j.answers|);
    assert Streamed(j).mine[..|p.chunks|] == p.chunks;
    assert j.answers[..|j.answers|] == j.answers;
    AtIsOnward(j, 0, 2 * p.rounds);
    AtIsOnward(j, 2 * p.rounds, 2 * |j.answers|);
    hide At, Loop, Beside, Payload, Tallied, ContentAt;
  }

  // ---- When a file holds still ---------------------------------------------------------------------

  /** Nothing is uploaded or lost at a Close, and other programs leave the file as it is. Names may change. */
  predicate Leaves(e: Event, inode: nat, content: seq<byte>) {
    match e
    case Message(msg, os) => !msg.UploadStart? && !msg.UploadChunk? && os.lost.None?
    case Elsewhere(_, files, _) => inode in files && files[inode] == content
    case OtherDownload(_, _) => true
  }

  ghost predicate Stays(s: State, inode: nat, content: seq<byte>) {
    Sound(s) && inode in s.files && s.files[inode] == content
  }

  lemma LeavesAsItIs(s: State, e: Event, inode: nat, content: seq<byte>)
    requires Stays(s, inode, content) && Leaves(e, inode, content)
    ensures Stays(Happened(s, e), inode, content)
  {
    HappenedIsSound(s, e);
    assert inode < s.nextInode;
    hide DiskOk, Present;
  }

  lemma {:induction false} AllLeaveItAsItIs(s: State, events: seq<Event>, inode: nat, content: seq<byte>)
    requires Stays(s, inode, content) && forall e | e in events :: Leaves(e, inode, content)
    ensures Stays(After(s, events), inode, content)
  {
    hide Stays, Leaves, Happened;
    if events != [] {
      var front, e := events[..|events| - 1], events[|events| - 1];
      assert e in events && forall x | x in front :: x in events;
      AllLeaveItAsItIs(s, front, inode, content);
      LeavesAsItIs(After(s, front), e, inode, content);
    }
  }

  lemma {:induction false} StaysAt(j: Job, k: nat, content: seq<byte>)
    requires Stays(j.s, Inode(j), content)
    requires forall i: nat, e | i < k && e in j.during(i) :: Leaves(e, Inode(j), content)
    ensures Stays(At(j, k), Inode(j), content)
  {
    hide Stays, Leaves, After, Inode;
    if k > 0 {
      StaysAt(j, k - 1, content);
      AllLeaveItAsItIs(At(j, k - 1), j.during(k - 1), Inode(j), content);
    }
  }

  /** Whatever else is listed, made, renamed, deleted or downloaded meanwhile, the file holds still. */
  lemma HoldsStill(j: Job)
    requires Sound(j.s) && j.path in j.s.names
    requires forall i: nat, e | i < 2 * |j.answers| && e in j.during(i) :: Leaves(e, Inode(j), ContentAt(j, 0))
    ensures HeldStill(j)
  {
    var content := ContentAt(j, 0);
    assert Stays(j.s, Inode(j), content);
    forall i | 0 <= i < |j.answers|
      ensures ContentAt(j, 2 * i + 1) == content
    {
      StaysAt(j, 2 * i + 1, content);
      hide At;
    }
  }

  /**
   A download beside which nothing happens: what goes out is its chunks and its end
   alone, they carry what the Reads give, and done comes exactly when these reach
   the end of the file without another error.
   */
  lemma QuietDownloadDelivers(j: Job)
    requires j.me > 0 && j.gen == j.s.generation && Found(j) && Quiet(j)
    ensures var r, content := Streamed(j), Content(j.s.files, Inode(j));
            var t := Tallied(j.answers, |content|);
            && r.log == r.mine && r.chunks <= |r.mine| && AreChunks(r.mine[..r.chunks])
            && Payload(r.mine[..r.chunks]) == content[..t.got]
            && Tail(r.mine[r.chunks..], r.outcome)
            && r.outcome == match t.end case More => Running case Eof => Done case Failed => Broken
  {
    forall k: nat
      ensures At(j, k) == j.s
    {
      NothingChanges(j, k);
    }
    WritesItsOwn(j);
    SendsChunksThenOneEnd(j);
    DeliversWhatIsRead(j);
    hide At, Streamed, Tallied, Payload, Own, DownloadsOf;
  }

  lemma {:induction false} NothingChanges(j: Job, k: nat)
    requires Quiet(j)
    ensures At(j, k) == j.s
  {
    if k > 0 {
      NothingChanges(j, k - 1);
    }
  }
}
