/**
 The agent's end of file transfer (agent/internal/terminal/file.go) as values:
 messages, the manager's state with the disk it works on, what one message makes
 of it, and what runs of messages do while a download is on its own goroutine.
 */
module FileTransfer {
  import opened Wrappers

  const MAX_FILE_TRANSFER_BYTES := 500 * 1024 * 1024

  datatype Wire =
    | Ready
    | ListResult(path: string)
    | Error(op: string)
    | Chunk(data: seq<byte>)
    | DownloadDone
    | UploadDone
    | OpResult(op: string, ok: bool)

  /** A message as it goes out, stamped with a session id. */
  datatype Frame = Frame(session: string, msg: Wire)

  /** What only a download sends. */
  predicate IsDownload(msg: Wire) {
    msg.Chunk? || msg.DownloadDone? || msg == Error("download")
  }

  /** `raw` is the decoded chunk, or None where base64 does not decode. */
  datatype Msg =
    | Start(session: string)
    | List(session: string, path: string)
    | Download(session: string, path: string)
    | UploadStart(session: string, dest: string, size: int)
    | UploadChunk(session: string, raw: Option<seq<byte>>)
    | UploadEnd(session: string)
    | Mkdir(session: string)
    | Delete(session: string)
    | Rename(session: string)
    | Stop(session: string)

  /**
   How the system calls of one message go: does os.Create succeed, does os.Remove,
   how many bytes does Write write, what names are there after a mkdir, delete or
   rename, and is the answer to these, or to a listing, a success. Where Close
   reports a write that was put off and has failed, `lost` is what the file then holds.
   */
  datatype Os = Os(created: bool, removed: bool, written: nat, names: map<string, nat>, ok: bool,
                   lost: Option<seq<byte>>)

  /** An *os.File: the file itself, whatever names it has, and whether it has been closed. */
  datatype OpenFile = OpenFile(inode: nat, closed: bool)

  /** The fields of the manager, and the disk: names, and files by inode. */
  datatype State = State(
    session: string,
    upload: Option<OpenFile>,
    path: string,
    expected: int,
    received: int,
    generation: nat,
    names: map<string, nat>,
    files: map<nat, seq<byte>>,
    nextInode: nat)

  const INITIAL := State("", None, "", 0, 0, 0, map[], map[], 0)

  predicate DiskOk(names: map<string, nat>, files: map<nat, seq<byte>>, nextInode: nat) {
    && (forall p | p in names :: names[p] in files)
    && (forall i | i in files :: i < nextInode)
  }

  predicate Sound(s: State) {
    DiskOk(s.names, s.files, s.nextInode) && (s.upload.Some? ==> s.upload.value.inode in s.files)
  }

  function Content(files: map<nat, seq<byte>>, inode: nat): seq<byte> {
    if inode in files then files[inode] else []
  }

  predicate Named(names: map<string, nat>, path: string, inode: nat) {
    path in names && names[path] == inode
  }

  predicate Reachable(names: map<string, nat>, inode: nat) {
    exists p | p in names :: names[p] == inode
  }

  function Present(names: map<string, nat>, files: map<nat, seq<byte>>): map<string, nat> {
    map p | p in names && names[p] in files :: names[p]
  }

  function Min(a: nat, b: nat): nat {
    if a < b then a else b
  }

  // ---- What one message does ------------------------------------------------------------------

  /** Close, with its error ignored; a second Close does nothing. */
  function AfterClose(s: State, os: Os): State {
    if s.upload.Some? && !s.upload.value.closed then
      s.(upload := Some(s.upload.value.(closed := true)),
         files := if os.lost.Some? then s.files[s.upload.value.inode := os.lost.value] else s.files)
    else s
  }

  /** Close and os.Remove, both with their errors ignored, if an upload is under way. */
  function AfterAbandon(s: State, os: Os): State {
    AfterClose(s, os).(names := if s.upload.Some? && os.removed then s.names - {s.path} else s.names)
  }

  function AfterReset(s: State, os: Os): State {
    AfterAbandon(s, os).(upload := None, path := "", expected := 0, received := 0, generation := s.generation + 1)
  }

  /** os.Create with O_TRUNC: an existing file is emptied, whatever else refers to it. */
  function AfterCreate(s: State, dest: string): State {
    var inode := if dest in s.names then s.names[dest] else s.nextInode;
    s.(names := s.names[dest := inode], files := s.files[inode := []],
       nextInode := if dest in s.names then s.nextInode else s.nextInode + 1)
  }

  /** Until os.Create succeeds, the closed handle of an earlier upload stays behind. */
  function AfterUploadStart(s: State, dest: string, size: int, os: Os): State {
    if size > MAX_FILE_TRANSFER_BYTES then s
    else if !os.created then AfterAbandon(s, os)
    else
      var t := AfterCreate(AfterAbandon(s, os), dest);
      t.(upload := Some(OpenFile(t.names[dest], false)), path := dest, expected := size, received := 0)
  }

  function AfterGiveUp(s: State, os: Os): State {
    AfterAbandon(s, os).(upload := None)
  }

  /** Does a chunk go into the file whole? A closed file takes nothing; an open one may take less than it was given. */
  predicate Taken(s: State, raw: seq<byte>, os: Os) {
    && s.upload.Some? && !s.upload.value.closed
    && s.received + |raw| <= s.expected && s.received + |raw| <= MAX_FILE_TRANSFER_BYTES
    && |raw| <= os.written
  }

  function AfterUploadChunk(s: State, raw: Option<seq<byte>>, os: Os): State {
    if s.upload.None? || raw.None? then s
    else
      var inode, received := s.upload.value.inode, s.received + |raw.value|;
      var t := s.(received := received);
      var more := raw.value[..Min(os.written, |raw.value|)];
      var written := t.(files := t.files[inode := Content(t.files, inode) + more]);
      if Taken(s, raw.value, os) then written
      else if received > MAX_FILE_TRANSFER_BYTES || received > s.expected || s.upload.value.closed
          then AfterGiveUp(t, os)
      else AfterGiveUp(written, os)
  }

  function AfterUploadEnd(s: State, os: Os): State {
    AfterClose(s, os).(upload := None)
  }

  /** A message of another session does nothing, except that file_start takes over. */
  function Handled(s: State, msg: Msg, os: Os): State {
    if msg.Start? then AfterReset(s, os).(session := msg.session)
    else if msg.session != s.session then s
    else match msg
      case UploadStart(_, dest, size) => AfterUploadStart(s, dest, size, os)
      case UploadChunk(_, raw) => AfterUploadChunk(s, raw, os)
      case UploadEnd(_) => AfterUploadEnd(s, os)
      case Stop(_) => AfterReset(s, os).(session := "")
      case Mkdir(_) => s.(names := Present(os.names, s.files))
      case Delete(_) => s.(names := Present(os.names, s.files))
      case Rename(_) => s.(names := Present(os.names, s.files))
      case _ => s
  }

  /** What the handler answers; a download is answered by its goroutine. */
  function Reply(s: State, msg: Msg, os: Os): Option<Wire> {
    if msg.Start? then Some(Ready)
    else if msg.session != s.session then None
    else match msg
      case List(_, path) => Some(if os.ok then ListResult(path) else Error("list"))
      case UploadStart(_, _, size) =>
        if size > MAX_FILE_TRANSFER_BYTES || !os.created then Some(Error("upload")) else None
      case UploadChunk(_, raw) =>
        if s.upload.Some? && raw.Some? && !Taken(s, raw.value, os) then Some(Error("upload")) else None
      case UploadEnd(_) => if s.upload.Some? then Some(UploadDone) else None
      case Mkdir(_) => Some(OpResult("mkdir", os.ok))
      case Delete(_) => Some(OpResult("delete", os.ok))
      case Rename(_) => Some(OpResult("rename", os.ok))
      case _ => None
  }

  lemma HandledIsSound(s: State, msg: Msg, os: Os)
    ensures Sound(s) ==> Sound(Handled(s, msg, os))
  {}

  /**
   A reset leaves no handle; the partial file stays reachable exactly under another name, or where
   os.Remove fails.
   */
  lemma ResetDropsOneName(s: State, os: Os)
    ensures AfterReset(s, os).upload.None?
    ensures s.upload.Some? && os.removed ==>
              (Reachable(AfterReset(s, os).names, s.upload.value.inode)
               <==> exists p | p in s.names && p != s.path :: s.names[p] == s.upload.value.inode)
  {
    var names := AfterReset(s, os).names;
    assert forall p | p in s.names && p != s.path :: p in names && names[p] == s.names[p];
  }

  /** What may go wrong with a chunk ends the upload: the browser is told, and the file loses its name and no other. */
  lemma RefusedChunkEndsTheUpload(s: State, raw: seq<byte>, os: Os)
    requires s.upload.Some?
    ensures var chunk := UploadChunk(s.session, Some(raw));
            var after := Handled(s, chunk, os);
            && (Taken(s, raw, os) <==> after.upload == s.upload)
            && (Taken(s, raw, os) <==> Reply(s, chunk, os).None?)
            && (!Taken(s, raw, os) ==>
                  && after.upload.None? && Reply(s, chunk, os) == Some(Error("upload"))
                  && after.names == if os.removed then s.names - {s.path} else s.names)
  {}

  /** A message of another session is neither obeyed nor answered. */
  lemma StaleMessagesDoNothing(s: State, msg: Msg, os: Os)
    requires !msg.Start? && msg.session != s.session
    ensures Handled(s, msg, os) == s && Reply(s, msg, os) == None
  {}

  /**
   What the current session's other messages do: names are as the operating system leaves them, no
   file is written.
   */
  lemma NamesAreTheSystems(s: State, msg: Msg, os: Os)
    requires msg.session == s.session && (msg.Mkdir? || msg.Delete? || msg.Rename?)
    ensures var after := Handled(s, msg, os);
            && after == s.(names := after.names)
            && (forall p :: p in after.names <==> p in os.names && os.names[p] in s.files)
            && (forall p | p in after.names :: after.names[p] == os.names[p])
            && Reply(s, msg, os) == Some(OpResult(if msg.Mkdir? then "mkdir" else if msg.Delete? then "delete"
               else "rename", os.ok))
  {}

  /**
   A start that is refused: for its size, and nothing changes; by os.Create, after the upload under
   way was given up.
   */
  lemma RefusedStarts(s: State, dest: string, size: int, os: Os)
    ensures var msg := UploadStart(s.session, dest, size);
            && (Reply(s, msg, os) == Some(Error("upload")) <==> size > 500 * 1024 * 1024 || !os.created)
            && (Reply(s, msg, os) == None <==> size <= 500 * 1024 * 1024 && os.created)
            && (size > 500 * 1024 * 1024 ==> Handled(s, msg, os) == s)
  {}

  // ---- Runs -------------------------------------------------------------------------------------

  /**
   A message, or other programs change names and files and make up to `more` new
   files, or another download's goroutine sends a frame.
   */
  datatype Event =
    | Message(msg: Msg, os: Os)
    | Elsewhere(names: map<string, nat>, files: map<nat, seq<byte>>, more: nat)
    | OtherDownload(writer: nat, frame: Frame)

  /** Other programs leave the file being uploaded alone; its names they may change. */
  function AfterElsewhere(s: State, names: map<string, nat>, files: map<nat, seq<byte>>, more: nat): State {
    var next := s.nextInode + more;
    var theirs := map i | i in files && i < next :: files[i];
    var files' := if s.upload.Some? then theirs[s.upload.value.inode := Content(s.files, s.upload.value.inode)]
        else theirs;
    s.(names := Present(names, files'), files := files', nextInode := next)
  }

  function Happened(s: State, e: Event): State {
    match e
    case Message(msg, os) => Handled(s, msg, os)
    case Elsewhere(names, files, more) => AfterElsewhere(s, names, files, more)
    case OtherDownload(_, _) => s
  }

  function After(s: State, events: seq<Event>): State {
    if events == [] then s else Happened(After(s, events[..|events| - 1]), events[|events| - 1])
  }

  lemma AfterMore(s: State, events: seq<Event>, e: Event)
    ensures After(s, events + [e]) == Happened(After(s, events), e)
  {
    assert (events + [e])[..|events|] == events;
  }

  lemma {:induction false} AfterBoth(s: State, first: seq<Event>, second: seq<Event>)
    ensures After(s, first + second) == After(After(s, first), second)
  {
    if second == [] {
      assert first + second == first;
    } else {
      var front, e := second[..|second| - 1], second[|second| - 1];
      AfterBoth(s, first, front);
      assert first + second == first + front + [e];
      AfterMore(s, first + front, e);
    }
  }

  lemma {:induction false} AfterIsSound(s: State, events: seq<Event>)
    requires Sound(s)
    ensures Sound(After(s, events))
  {
    if events != [] {
      var front, e := events[..|events| - 1], events[|events| - 1];
      AfterIsSound(s, front);
      HappenedIsSound(After(s, front), e);
    }
  }

  lemma HappenedIsSound(s: State, e: Event)
    ensures Sound(s) ==> Sound(Happened(s, e))
  {
    if e.Message? {
      HandledIsSound(s, e.msg, e.os);
      hide Handled;
    }
  }

  /** The two messages that end whatever is going on. */
  predicate Supersedes(msg: Msg, session: string) {
    msg.Start? || (msg.Stop? && msg.session == session)
  }

  /** Sessions change only with the generation. */
  predicate Onward(before: State, after: State) {
    before.generation <= after.generation && (after.generation == before.generation ==> after.session == before.session)
  }

  lemma HandledGeneration(s: State, msg: Msg, os: Os)
    ensures Handled(s, msg, os).generation == s.generation + if Supersedes(msg, s.session) then 1 else 0
    ensures Onward(s, Handled(s, msg, os))
  {}

  lemma {:induction false} AfterIsOnward(s: State, events: seq<Event>)
    ensures Onward(s, After(s, events))
  {
    if events != [] {
      var front, e := events[..|events| - 1], events[|events| - 1];
      AfterIsOnward(s, front);
      if e.Message? {
        HandledGeneration(After(s, front), e.msg, e.os);
        hide Handled;
      }
    }
  }
}
