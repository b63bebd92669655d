/**
 fileManager (agent/internal/terminal/file.go) and the disk it works on. What the
 operating system answers comes in as a parameter, and so does what else happens
 while a download runs on its own goroutine.
 */
module FileManager {
  import opened Wrappers
  import opened FileTransfer
  import opened Downloads

  class Manager {
    var sessionID: string
    var upload: Option<OpenFile>
    var uploadPath: string
    var uploadExpected: int
    var uploadReceived: int
    var generation: nat
    var sent: seq<Frame>

    // The disk.
    var names: map<string, nat>
    var files: map<nat, seq<byte>>
    var nextInode: nat

    // History.
    ghost var log: seq<Entry>

    function Now(): State
      reads this
    {
      State(sessionID, upload, uploadPath, uploadExpected, uploadReceived, generation, names, files, nextInode)
    }

    ghost predicate Valid()
      reads this
    {
      Sound(Now()) && sent == Frames(log)
    }

    constructor ()
      ensures Valid() && Now() == INITIAL && log == []
    {
      sessionID, upload, uploadPath, uploadExpected, uploadReceived, generation, sent := "", None, "", 0, 0, 0, [];
      names, files, nextInode := map[], map[], 0;
      log := [];
    }

    /** safeConn.send: one frame at a time. */
    method Write(frame: Frame, ghost writer: nat)
      requires sent == Frames(log)
      modifies this`sent, this`log
      ensures sent == Frames(log) && log == old(log) + [Entry(frame, writer, generation)]
    {
      sent, log := sent + [frame], log + [Entry(frame, writer, generation)];
    }

    /** The handler's send. */
    method Send(msg: Wire)
      requires sent == Frames(log)
      modifies this`sent, this`log
      ensures sent == Frames(log) && log == old(log) + Answer(Now(), Some(msg))
    {
      Write(Frame(sessionID, msg), 0);
    }

    /** Close and os.Remove of the upload's file. */
    method Abandon(os: Os)
      modifies this`upload, this`names, this`files
      ensures Now() == AfterAbandon(old(Now()), os)
    {
      var removes := upload.Some? && os.removed;
      Close(os);
      if removes {
        names := names - {uploadPath};
      }
    }

    method Close(os: Os)
      modifies this`upload, this`files
      ensures Now() == AfterClose(old(Now()), os)
    {
      if upload.Some? && !upload.value.closed {
        if os.lost.Some? {
          files := files[upload.value.inode := os.lost.value];
        }
        upload := Some(upload.value.(closed := true));
      }
    }

    method Reset(os: Os)
      modifies this`upload, this`uploadPath, this`uploadExpected, this`uploadReceived, this`generation
      modifies this`names, this`files
      ensures Now() == AfterReset(old(Now()), os)
    {
      Abandon(os);
      upload, uploadPath, uploadExpected, uploadReceived := None, "", 0, 0;
      generation := generation + 1;
    }

    method Create(dest: string) returns (inode: nat)
      modifies this`names, this`files, this`nextInode
      ensures Now() == AfterCreate(old(Now()), dest) && Named(names, dest, inode)
    {
      inode := if dest in names then names[dest] else nextInode;
      if dest !in names {
        nextInode := nextInode + 1;
      }
      names, files := names[dest := inode], files[inode := []];
    }

    method StartUpload(dest: string, size: int, os: Os) returns (ghost reply: Option<Wire>)
      requires sent == Frames(log)
      modifies this
      ensures Now() == AfterUploadStart(old(Now()), dest, size, os)
      ensures reply == if size > MAX_FILE_TRANSFER_BYTES || !os.created then Some(Error("upload")) else None
      ensures sent == Frames(log) && log == old(log) + Answer(Now(), reply)
    {
      reply := None;
      if size > MAX_FILE_TRANSFER_BYTES {
        Send(Error("upload"));
        return Some(Error("upload"));
      }
      Abandon(os);
      if !os.created {
        Send(Error("upload"));
        return Some(Error("upload"));
      }
      var inode := Create(dest);
      upload, uploadPath, uploadExpected, uploadReceived := Some(OpenFile(inode, false)), dest, size, 0;
    }

    /** An upload that cannot go on is given up, and the browser told. */
    method GiveUp(os: Os)
      requires sent == Frames(log)
      modifies this`upload, this`names, this`files, this`sent, this`log
      ensures Now() == AfterGiveUp(old(Now()), os)
      ensures sent == Frames(log) && log == old(log) + Answer(Now(), Some(Error("upload")))
    {
      Abandon(os);
      upload := None;
      Send(Error("upload"));
    }

    /** A chunk goes into the file whole, or the upload ends with an error. */
    method ReceiveChunk(raw: Option<seq<byte>>, os: Os) returns (ghost reply: Option<Wire>)
      requires Valid()
      modifies this`upload, this`uploadReceived, this`names, this`files, this`sent, this`log
      ensures Now() == AfterUploadChunk(old(Now()), raw, os)
      ensures reply == if old(upload).Some? && raw.Some? && !Taken(old(Now()), raw.value, os)
                then Some(Error("upload")) else None
      ensures sent == Frames(log) && log == old(log) + Answer(Now(), reply)
    {
      reply := None;
      if upload.None? || raw.None? {
        return;
      }
      uploadReceived := uploadReceived + |raw.value|;
      if uploadReceived > MAX_FILE_TRANSFER_BYTES || uploadReceived > uploadExpected {
        GiveUp(os);
        return Some(Error("upload"));
      }
      var handle, n := upload.value, Min(os.written, |raw.value|);
      if !handle.closed {
        files := files[handle.inode := files[handle.inode] + raw.value[..n]];
      }
      if handle.closed || n < |raw.value| {
        GiveUp(os);
        return Some(Error("upload"));
      }
    }

    method EndUpload(os: Os) returns (ghost reply: Option<Wire>)
      requires sent == Frames(log)
      modifies this`upload, this`files, this`sent, this`log
      ensures Now() == AfterUploadEnd(old(Now()), os)
      ensures reply == if old(upload).Some? then Some(UploadDone) else None
      ensures sent == Frames(log) && log == old(log) + Answer(Now(), reply)
    {
      reply := None;
      if upload.None? {
        return;
      }
      Close(os);
      upload := None;
      Send(UploadDone);
      reply := Some(UploadDone);
    }

    method ChangeNames(op: string, os: Os)
      requires sent == Frames(log)
      modifies this`names, this`sent, this`log
      ensures Now() == old(Now()).(names := Present(os.names, files))
      ensures sent == Frames(log) && log == old(log) + Answer(Now(), Some(OpResult(op, os.ok)))
    {
      names := Present(os.names, files);
      Send(OpResult(op, os.ok));
    }

    /** `download` is the generation that a download's goroutine is started with. */
    method Handle(msg: Msg, os: Os) returns (download: Option<nat>)
      requires Valid()
      modifies this
      ensures Valid()
      ensures Now() == Handled(old(Now()), msg, os)
      ensures log == old(log) + Answer(Now(), Reply(old(Now()), msg, os))
      ensures download == if msg.Download? && msg.session == old(sessionID) then Some(old(generation)) else None
    {
      HandledIsSound(Now(), msg, os);
      hide AfterReset, AfterUploadStart, AfterUploadChunk, AfterUploadEnd, Taken, DiskOk, Frames, Present;
      download := None;
      if msg.Start? {
        Reset(os);
        sessionID := msg.session;
        Send(Ready);
      } else if msg.session == sessionID {
        ghost var reply := None;
        match msg {
          case List(_, path) => Send(if os.ok then ListResult(path) else Error("list"));
          case Download(_, _) => download := Some(generation);
          case UploadStart(_, dest, size) => reply := StartUpload(dest, size, os);
          case UploadChunk(_, raw) => reply := ReceiveChunk(raw, os);
          case UploadEnd(_) => reply := EndUpload(os);
          case Mkdir(_) => ChangeNames("mkdir", os);
          case Delete(_) => ChangeNames("delete", os);
          case Rename(_) => ChangeNames("rename", os);
          case Stop(_) =>
            Reset(os);
            sessionID := "";
        }
      }
    }

    /** Whatever happens between two steps of the goroutine `me`. */
    method Meanwhile(events: seq<Event>, me: nat)
      requires Valid()
      modifies this
      ensures Valid()
      ensures Now() == After(old(Now()), events) && log == old(log) + Asides(old(Now()), events, me)
    {
      hide Sound, Happened, Handled, Frames;
      ghost var s := Now();
      assert events[..0] == [] && log + [] == log;
      for i := 0 to |events|
        invariant Valid()
        invariant Now() == After(s, events[..i]) && log == old(log) + Asides(s, events[..i], me)
      {
        Happen(events[i], me);
        assert events[..i + 1][..i] == events[..i];
      }
      assert events[..|events|] == events;
    }

    method Happen(e: Event, me: nat)
      requires Valid()
      modifies this
      ensures Valid()
      ensures Now() == Happened(old(Now()), e) && log == old(log) + Aside(old(Now()), e, me)
    {
      HappenedIsSound(Now(), e);
      hide Sound, Handled, Reply, Frames;
      match e {
        case Message(msg, os) =>
          var _ := Handle(msg, os);
        case Elsewhere(names', files', more) =>
          var s := AfterElsewhere(Now(), names', files', more);
          names, files, nextInode := s.names, s.files, s.nextInode;
        case OtherDownload(writer, frame) =>
          if writer != 0 && writer != me {
            Write(frame, writer);
          }
      }
    }

    // ---- A download's goroutine --------------------------------------------------------------------

    /** A frame is stamped, and goes out when the connection is free. */
    method Post(msg: Wire, events: seq<Event>, me: nat)
      requires Valid()
      modifies this
      ensures Valid()
      ensures Now() == After(old(Now()), events)
      ensures log == old(log) + Asides(old(Now()), events, me) + [Entry(Frame(old(sessionID), msg), me, generation)]
    {
      hide Sound, After, Asides, Frames;
      var stamp := sessionID;
      Meanwhile(events, me);
      Write(Frame(stamp, msg), me);
    }

    /** One Read of the file as it is by now, and the chunk it gives. */
    method ReadChunk(inode: nat, offset: nat, answer: Read, before: seq<Event>, after: seq<Event>, me: nat)
      returns (offset': nat, end: End)
      requires Valid()
      modifies this
      ensures Valid()
      ensures var read := After(old(Now()), before);
              var now := Content(read.files, inode);
              && Now() == After(read, after)
              && offset' == offset + Count(now, offset, answer) && end == EndOfRead(now, offset, answer)
              && log == old(log) + (Asides(old(Now()), before, me) + Asides(read, after, me)
                                    + ChunkOf(read, Now(), inode, offset, answer, me))
    {
      hide Sound, After, Asides, Frames;
      Meanwhile(before, me);
      var now := Content(files, inode);
      var n := Count(now, offset, answer);
      offset', end := offset + n, EndOfRead(now, offset, answer);
      if n > 0 {
        Post(Chunk(now[offset..offset + n]), after, me);
      } else {
        Meanwhile(after, me);
      }
    }

    /** A last frame, some time after the last Read. */
    method PostLast(msg: Wire, before: seq<Event>, after: seq<Event>, me: nat)
      requires Valid()
      modifies this
      ensures Valid()
      ensures var stamped := After(old(Now()), before);
              && Now() == After(stamped, after)
              && log == old(log) + (Asides(old(Now()), before, me) + Asides(stamped, after, me)
                                    + [Entry(Frame(stamped.session, msg), me, generation)])
    {
      hide Sound, After, Asides, Frames;
      Meanwhile(before, me);
      Post(msg, after, me);
    }

    /** A round of the loop that is not superseded when it begins. */
    method ReadNext(ghost j: Job, i: nat, inode: nat, offset: nat, answer: Read, before: seq<Event>, after: seq<Event>,
                    me: nat)
      returns (offset': nat, end: End)
      requires Valid() && i < |j.answers| && Reading(j, i) && generation == j.gen && me == j.me && inode == Inode(j)
      requires Now() == At(j, 2 * i) && offset == Loop(j, i).offset
      requires answer == j.answers[i] && before == j.during(2 * i) && after == j.during(2 * i + 1)
      modifies this
      ensures Valid()
      ensures var p := Loop(j, i + 1);
              && p.end == Some(end) && p.rounds == i + 1 && p.offset == offset' && Now() == At(j, 2 * i + 2)
              && p.log == Loop(j, i).log + RoundLog(j, Loop(j, i), answer)
              && log == old(log) + RoundLog(j, Loop(j, i), answer)
    {
      hide Sound, After, Asides, Frames, Content, Inode, At, Loop, ChunkOf, Count, EndOfRead, Reading, RoundLog;
      offset', end := ReadChunk(inode, offset, answer, before, after, me);
      RoundPasses(j, i, old(Now()), After(old(Now()), before), Now());
    }

    /** The loop: until it sees that it is superseded (None), or a Read gives an error, or there is no more. */
    method ReadAll(ghost j: Job, inode: nat, gen: nat, answers: seq<Read>, during: nat -> seq<Event>, me: nat)
      returns (end: Option<End>, rounds: nat)
      requires Valid() && j == Job(Now(), j.path, gen, j.opens, answers, during, me) && inode == Inode(j)
      modifies this
      ensures Valid()
      ensures var p := Loop(j, |answers|);
              && end == p.end && rounds == p.rounds
              && Now() == At(j, 2 * p.rounds) && log == old(log) + p.log
    {
      hide Sound, After, Asides, Frames, Content, Inode, At, Loop;
      ReadingBegins(j);
      var offset := 0;
      end, rounds := Some(More), 0;
      for i := 0 to |answers|
        invariant Valid() && end == Some(More) && rounds == i && Reading(j, i)
        invariant offset == Loop(j, i).offset && Now() == At(j, 2 * i) && log == old(log) + Loop(j, i).log
      {
        if generation != gen {
          end := None;
          NextRound(j, i);
          LoopStops(j, i + 1);
          return;
        }
        var e;
        offset, e := ReadNext(j, i, inode, offset, answers[i], during(2 * i), during(2 * i + 1), me);
        end, rounds := Some(e), i + 1;
        if e != More {
          LoopStops(j, i + 1);
          return;
        }
      }
    }

    /** The file cannot be opened, or is too large. */
    method Refuse(ghost j: Job, during: nat -> seq<Event>, me: nat)
      requires Valid() && j.during == during && j.me == me && Now() == j.s
      modifies this
      ensures Valid()
      ensures var r := Closing(j, BEGIN, Error("download"), Refused);
              Now() == At(j, r.moments) && log == old(log) + r.log
    {
      ReadingBegins(j);
      hide Sound, After, Asides, At, Closing, Frames;
      PostLast(Error("download"), during(0), during(1), me);
      ClosingPasses(j, BEGIN, Error("download"), Refused, old(Now()), After(old(Now()), during(0)), Now());
    }

    /** After the loop: an error is sent as it is; done, if nothing has superseded the download when it looks. */
    method Finish(ghost j: Job, ghost base: seq<Entry>, end: Option<End>, rounds: nat, gen: nat,
                  during: nat -> seq<Event>, me: nat)
      requires Valid() && j.gen == gen && j.during == during && j.me == me
      requires var p := Loop(j, |j.answers|);
               end == p.end && rounds == p.rounds && Now() == At(j, 2 * rounds) && log == base + p.log
      modifies this
      ensures Valid()
      ensures var r := Ended(j, Loop(j, |j.answers|));
              Now() == At(j, r.moments) && log == base + r.log
    {
      hide Sound, After, Asides, At, Loop, Closing, Frames;
      ghost var p, s := Loop(j, |j.answers|), Now();
      if end == Some(Failed) {
        PostLast(Error("download"), during(2 * rounds), during(2 * rounds + 1), me);
        ClosingPasses(j, p, Error("download"), Broken, s, After(s, during(2 * rounds)), Now());
      } else if end == Some(Eof) && generation == gen {
        PostLast(DownloadDone, during(2 * rounds), during(2 * rounds + 1), me);
        ClosingPasses(j, p, DownloadDone, Done, s, After(s, during(2 * rounds)), Now());
      }
    }

    /**
     The goroutine of one download, started in generation `gen`; other things happen
     at every moment between its steps, `during` says what. What is written until it
     ends, by anyone, is the log of Streamed.
     */
    method StreamDownload(path: string, gen: nat, opens: bool, answers: seq<Read>, during: nat -> seq<Event>, me: nat)
      requires Valid()
      modifies this
      ensures Valid()
      ensures var r := Streamed(Job(old(Now()), path, gen, opens, answers, during, me));
              log == old(log) + r.log && sent == old(sent) + Frames(r.log)
      ensures var j := Job(old(Now()), path, gen, opens, answers, during, me);
              Now() == At(j, Streamed(j).moments)
    {
      ghost var j := Job(Now(), path, gen, opens, answers, during, me);
      hide Sound, After, Asides, Content, At, Loop, Reading, Closing, Frames, Ended, Found, Inode;
      FoundIs(j);
      if !opens || path !in names || |files[names[path]]| > MAX_FILE_TRANSFER_BYTES {
        Refuse(j, during, me);
      } else {
        var end, rounds := ReadAll(j, names[path], gen, answers, during, me);
        Finish(j, old(log), end, rounds, gen, during, me);
      }
      FramesBoth(old(log), Streamed(j).log);
    }
  }

  // ---- Three ways an upload can end ------------------------------------------------------------------

  /**
   A second file_upload_start that os.Create refuses removes the first upload's
   file; the browser is told of the failure, and then that the upload is done.
   */
  method DoneWithoutAFile(session: string, first: string, second: string) returns (m: Manager)
    ensures m.Valid() && m.names == map[]
    ensures m.sent == [Frame(session, Ready), Frame(session, Error("upload")), Frame(session, UploadDone)]
  {
    m := new Manager();
    var created := Os(true, true, 0, map[], true, None);
    var _ := m.Handle(Start(session), created);
    var _ := m.Handle(UploadStart(session, first, 1), created);
    assert m.names - {first} == map[];
    var _ := m.Handle(UploadStart(session, second, 1), created.(created := false));
    var _ := m.Handle(UploadEnd(session), created);
  }

  /** The file can also be deleted, by the same browser, while it is being uploaded. */
  method DoneAfterADelete(session: string, first: string) returns (m: Manager)
    ensures m.Valid() && m.names == map[]
    ensures m.sent == [Frame(session, Ready), Frame(session, OpResult("delete", true)), Frame(session, UploadDone)]
  {
    m := new Manager();
    var created := Os(true, true, 0, map[], true, None);
    var _ := m.Handle(Start(session), created);
    var _ := m.Handle(UploadStart(session, first, 1), created);
    var _ := m.Handle(Delete(session), created);
    var _ := m.Handle(UploadEnd(session), created);
  }

  /** A failed second start does no harm where os.Remove fails too. */
  method DoneThoughAStartFailed(session: string, first: string, second: string) returns (m: Manager)
    ensures m.Valid() && first in m.names && m.names[first] in m.files && m.files[m.names[first]] == []
    ensures m.sent == [Frame(session, Ready), Frame(session, Error("upload")), Frame(session, UploadDone)]
  {
    m := new Manager();
    var created := Os(true, false, 0, map[], true, None);
    var _ := m.Handle(Start(session), created);
    var _ := m.Handle(UploadStart(session, first, 1), created);
    var _ := m.Handle(UploadStart(session, second, 1), created.(created := false));
    var _ := m.Handle(UploadEnd(session), created);
  }
}
