/**
 What file_upload_done is worth: over any run of messages, what other programs do
 to names, and other downloads, when it is sent and what is then on the disk.
 Everything is said of the messages and of what the operating system answered.
 */
module Uploads {
  import opened Wrappers
  import opened FileTransfer

  function Flatten(chunks: seq<seq<byte>>): seq<byte> {
    if chunks == [] then [] else Flatten(chunks[..|chunks| - 1]) + chunks[|chunks| - 1]
  }

  lemma FlattenMore(chunks: seq<seq<byte>>, chunk: seq<byte>)
    ensures Flatten(chunks + [chunk]) == Flatten(chunks) + chunk
  {
    assert (chunks + [chunk])[..|chunks|] == chunks;
  }

  // ---- What the messages say ------------------------------------------------------------------

  /** A file_upload_start that opens its file, if the session is the current one. */
  predicate Opens(e: Event, session: string) {
    && e.Message? && e.msg.UploadStart? && e.msg.session == session
    && e.msg.size <= MAX_FILE_TRANSFER_BYTES && e.os.created
  }

  /** One whose os.Create fails, after the file of the upload under way has been closed and removed. */
  predicate Fails(e: Event, session: string) {
    && e.Message? && e.msg.UploadStart? && e.msg.session == session
    && e.msg.size <= MAX_FILE_TRANSFER_BYTES && !e.os.created
  }

  /** The chunks that could be decoded. */
  function Chunks(events: seq<Event>, session: string): seq<seq<byte>> {
    if events == [] then []
    else
      var front, e := Chunks(events[..|events| - 1], session), events[|events| - 1];
      if e.Message? && e.msg.UploadChunk? && e.msg.session == session && e.msg.raw.Some? then front + [e.msg.raw.value]
      else front
  }

  /** The bytes of a run of messages. */
  function Bytes(events: seq<Event>, session: string): seq<byte> {
    Flatten(Chunks(events, session))
  }

  /** How the system calls went when the file was first closed. */
  function FirstClose(events: seq<Event>, session: string): Option<Os> {
    if events == [] then None
    else
      var front, e := FirstClose(events[..|events| - 1], session), events[|events| - 1];
      if front.None? && Fails(e, session) then Some(e.os) else front
  }

  /** The upload is still under way: nothing ended it, and every chunk fitted and was written. */
  predicate Survives(events: seq<Event>, session: string, size: int) {
    events == [] ||
    (var front, e := events[..|events| - 1], events[|events| - 1];
     Survives(front, session, size) && (e.Message? ==> Spares(front, e, session, size)))
  }

  predicate Spares(front: seq<Event>, e: Event, session: string, size: int)
    requires e.Message?
  {
    match e.msg
    case Start(_) => false
    case Stop(s) => s != session
    case UploadEnd(s) => s != session
    case UploadChunk(s, raw) =>
      s == session && raw.Some? ==>
        && FirstClose(front, session).None?
        && |Bytes(front, session)| + |raw.value| <= size
        && |raw.value| <= e.os.written
    case _ => true
  }

  /** Whether the file still has the name it was started under. */
  predicate Stands(events: seq<Event>, session: string, dest: string, inode: nat) {
    events == [] ||
    StandsAfter(Stands(events[..|events| - 1], session, dest, inode), events[|events| - 1], session, dest, inode)
  }

  predicate StandsAfter(stood: bool, e: Event, session: string, dest: string, inode: nat) {
    match e
    case Elsewhere(names, _, _) => Named(names, dest, inode)
    case Message(msg, os) =>
      if Fails(e, session) then stood && !os.removed
      else if (msg.Mkdir? || msg.Delete? || msg.Rename?) && msg.session == session then Named(os.names, dest, inode)
      else stood
    case _ => stood
  }

  /** What is in the file when the upload is ended: the chunks, unless its Close reports otherwise. */
  function Written(events: seq<Event>, session: string, os: Os): seq<byte> {
    var lost := match FirstClose(events, session) case Some(first) => first.lost case None => os.lost;
    if lost.Some? then lost.value else Bytes(events, session)
  }

  ghost predicate NoneOpens(events: seq<Event>, session: string) {
    forall e | e in events :: !Opens(e, session)
  }

  // ---- One step --------------------------------------------------------------------------------

  /** A state in which the upload of `dest`, started before `events`, is under way. */
  ghost predicate UnderWay(s: State, events: seq<Event>, session: string, dest: string, size: int, inode: nat) {
    var closed := FirstClose(events, session);
    && s.session == session && s.upload == Some(OpenFile(inode, closed.Some?)) && s.path == dest && s.expected == size
    && s.received == |Bytes(events, session)| && (s.received > 0 ==> s.received <= size)
    && inode in s.files
    && s.files[inode] == (if closed.Some? && closed.value.lost.Some? then closed.value.lost.value
       else Bytes(events, session))
    && (Named(s.names, dest, inode) <==> Stands(events, session, dest, inode))
  }

  /** No upload of this session is under way. */
  predicate Gone(s: State, session: string) {
    s.session == session ==> s.upload.None?
  }

  lemma GoneStays(s: State, e: Event, session: string)
    requires Gone(s, session) && !Opens(e, session)
    ensures Gone(Happened(s, e), session)
  {}

  lemma FoldsMore(events: seq<Event>, e: Event, session: string, dest: string, size: int, inode: nat)
    ensures FirstClose(events + [e], session)
         == if FirstClose(events, session).None? && Fails(e, session) then Some(e.os) else FirstClose(events, session)
    ensures Survives(events + [e], session, size)
         <==> Survives(events, session, size) && (e.Message? ==> Spares(events, e, session, size))
    ensures Bytes(events + [e], session)
         == Bytes(events, session)
            + if e.Message? && e.msg.UploadChunk? && e.msg.session == session && e.msg.raw.Some? then e.msg.raw.value
                else []
  {
    hide Spares;
    assert (events + [e])[..|events|] == events;
    if e.Message? && e.msg.UploadChunk? && e.msg.raw.Some? {
      FlattenMore(Chunks(events, session), e.msg.raw.value);
    }
  }

  lemma StandsMore(events: seq<Event>, e: Event, session: string, dest: string, inode: nat)
    ensures Stands(events + [e], session, dest, inode)
         <==> StandsAfter(Stands(events, session, dest, inode), e, session, dest, inode)
  {
    assert (events + [e])[..|events|] == events;
  }

  lemma UnderWayStep(s: State, events: seq<Event>, e: Event, session: string, dest: string, size: int, inode: nat)
    requires size <= MAX_FILE_TRANSFER_BYTES && !Opens(e, session)
    requires UnderWay(s, events, session, dest, size, inode) && Survives(events, session, size)
    ensures if Survives(events + [e], session, size)
              then UnderWay(Happened(s, e), events + [e], session, dest, size, inode)
            else Gone(Happened(s, e), session)
  {
    FoldsMore(events, e, session, dest, size, inode);
    StandsMore(events, e, session, dest, inode);
    hide Bytes, FirstClose, Survives, Stands;
  }

  /** The upload starts: no other file is written, and this one is empty. */
  lemma UnderWayStarts(s: State, e: Event, session: string)
    requires Sound(s) && Opens(e, session)
    ensures if s.session == session then
              UnderWay(Happened(s, e), [], session, e.msg.dest, e.msg.size, FileAt(Happened(s, e).names, e.msg.dest))
            else Gone(Happened(s, e), session)
  {}

  lemma NothingEndsYet(session: string, size: int)
    ensures Survives([], session, size)
  {}

  // ---- Whole runs --------------------------------------------------------------------------------

  lemma {:induction false} GoneForGood(s: State, events: seq<Event>, session: string)
    requires Gone(s, session) && NoneOpens(events, session)
    ensures Gone(After(s, events), session)
  {
    hide Gone, Happened, Opens;
    if events != [] {
      var front, e := events[..|events| - 1], events[|events| - 1];
      assert events == front + [e] && e in events && forall x | x in front :: x in events;
      GoneForGood(s, front, session);
      GoneStays(After(s, front), e, session);
      AfterMore(s, front, e);
    }
  }

  lemma {:induction false} UnderWayOrGone(s: State, events: seq<Event>, session: string, dest: string, size: int,
                                          inode: nat)
    requires size <= MAX_FILE_TRANSFER_BYTES && UnderWay(s, [], session, dest, size, inode)
               && NoneOpens(events, session)
    ensures if Survives(events, session, size) then UnderWay(After(s, events), events, session, dest, size, inode)
            else Gone(After(s, events), session)
  {
    hide UnderWay, Gone, Happened, Opens, Survives;
    if events == [] {
      NothingEndsYet(session, size);
    } else {
      var front, e := events[..|events| - 1], events[|events| - 1];
      assert events == front + [e] && e in events && forall x | x in front :: x in events;
      UnderWayOrGone(s, front, session, dest, size, inode);
      AfterMore(s, front, e);
      FoldsMore(front, e, session, dest, size, inode);
      if Survives(front, session, size) {
        UnderWayStep(After(s, front), front, e, session, dest, size, inode);
      } else {
        GoneStays(After(s, front), e, session);
      }
    }
  }

  /** Where the last upload of a session was started. */
  function LastOpen(events: seq<Event>, session: string): (i: Option<nat>)
    ensures i.None? ==> NoneOpens(events, session)
    ensures i.Some? ==>
              i.value < |events| && Opens(events[i.value], session) && NoneOpens(events[i.value + 1..], session)
  {
    if events == [] then None
    else
      var last := |events| - 1;
      assert forall e | e in events :: e in events[..last] || e == events[last];
      if Opens(events[last], session) then Some(last)
      else
        var i := LastOpen(events[..last], session);
        assert i.Some? ==> events[i.value + 1..] == events[..last][i.value + 1..] + [events[last]];
        i
  }

  /** The file that has a name. */
  function FileAt(names: map<string, nat>, path: string): nat {
    if path in names then names[path] else 0
  }

  /**
   What an upload comes to, read off the messages: is it done, under which name, in which file, and
   with what in it?
   */
  datatype Outcome = Outcome(done: bool, dest: string, inode: nat, content: seq<byte>, stands: bool)

  function EndOf(s: State, events: seq<Event>, session: string, os: Os): Outcome {
    match LastOpen(events, session)
    case None => Outcome(false, "", 0, [], false)
    case Some(i) =>
      var before, start, rest := After(s, events[..i]), events[i].msg, events[i + 1..];
      var inode := FileAt(Happened(before, events[i]).names, start.dest);
      Outcome(before.session == session && Survives(rest, session, start.size), start.dest, inode,
              Written(rest, session, os), Stands(rest, session, start.dest, inode))
  }

  /**
   Main result on uploads, for every run: file_upload_end is answered with done
   exactly if the session's last upload start was accepted and nothing since has
   ended the upload or refused a chunk. The file then holds the chunks that could
   be decoded since, unless its Close has lost some, and has the name it was
   started under exactly as the fold over the messages says.
   */
  lemma DoneMeans(s: State, events: seq<Event>, session: string, os: Os)
    requires Sound(s) && s.upload.None?
    ensures var end, o := UploadEnd(session), EndOf(s, events, session, os);
            var ended := Handled(After(s, events), end, os);
            && (Reply(After(s, events), end, os) == Some(UploadDone) <==> o.done)
            && (o.done ==>
                  && o.inode in ended.files && ended.files[o.inode] == o.content
                  && (Named(ended.names, o.dest, o.inode) <==> o.stands))
  {
    match LastOpen(events, session) {
      case None =>
        GoneForGood(s, events, session);
        EndWhenGone(After(s, events), session, os);
      case Some(i) =>
        var front, e, rest := events[..i], events[i], events[i + 1..];
        var before, size := After(s, front), e.msg.size;
        assert events == front + [e] + rest;
        AfterBoth(s, front + [e], rest);
        AfterMore(s, front, e);
        AfterIsSound(s, front);
        UnderWayStarts(before, e, session);
        var started := Happened(before, e);
        hide Gone, UnderWay, Happened, After, Handled, Reply, Survives, Sound, Opens, Stands, Written, Named;
        if before.session == session {
          var inode := FileAt(started.names, e.msg.dest);
          UnderWayOrGone(started, rest, session, e.msg.dest, size, inode);
          if Survives(rest, session, size) {
            EndWhenUnderWay(After(started, rest), rest, session, e.msg.dest, size, inode, os);
          } else {
            EndWhenGone(After(started, rest), session, os);
          }
        } else {
          GoneForGood(started, rest, session);
          EndWhenGone(After(started, rest), session, os);
        }
    }
  }

  lemma EndWhenGone(s: State, session: string, os: Os)
    requires Gone(s, session)
    ensures Reply(s, UploadEnd(session), os) != Some(UploadDone)
  {}

  lemma EndWhenUnderWay(s: State, events: seq<Event>, session: string, dest: string, size: int, inode: nat, os: Os)
    requires UnderWay(s, events, session, dest, size, inode)
    ensures Reply(s, UploadEnd(session), os) == Some(UploadDone)
    ensures var ended := Handled(s, UploadEnd(session), os);
            && inode in ended.files && ended.files[inode] == Written(events, session, os)
            && (Named(ended.names, dest, inode) <==> Stands(events, session, dest, inode))
  {}

  /** What does no harm to an upload: the file keeps its name, and no further start fails. */
  predicate Harmless(e: Event, session: string, dest: string, inode: nat) {
    !Fails(e, session) && StandsAfter(true, e, session, dest, inode)
  }

  /** An upload beside which nothing harmful happens is there under its name, with its chunks, once it is done. */
  lemma {:induction false} UndisturbedUploadArrives(events: seq<Event>, session: string, dest: string, inode: nat,
                                                    os: Os)
    requires (forall e | e in events :: Harmless(e, session, dest, inode)) && os.lost.None?
    ensures Stands(events, session, dest, inode) && FirstClose(events, session).None?
    ensures Written(events, session, os) == Bytes(events, session)
  {
    if events != [] {
      var front := events[..|events| - 1];
      assert events[|events| - 1] in events && forall e | e in front :: e in events;
      UndisturbedUploadArrives(front, session, dest, inode, os);
    }
  }
}
