/**
 The live terminal relay: the session slots of one agent connection on the server
 (app/terminal_hub.py), the browser tabs that use them (app/api/nodes.py), and the
 agent's session manager (agent/internal/terminal/terminal.go).

 Handlers are cut at every `await` and goroutine step, so a state machine over the
 pieces covers every interleaving. Writes to one web socket go through one FIFO
 lock, so each direction of the connection, with its lock queue, is one sequence.
 Session ids are random tokens that never repeat; here they are drawn in rising
 order, which only names them.
 */
module TerminalRelay {
  import opened Wrappers

  type Chunk = seq<bv8>

  // ---- Messages ------------------------------------------------------------------

  datatype Down =
    | Start(sid: nat)
    | Input(sid: nat, data: Chunk)
    | Resize(sid: nat)
    | Stop(target: Option<nat>)
    | FileDown(request: int)

  datatype Up =
    | Started(sid: nat)
    | Output(sid: nat, data: Chunk)
    | Exited(sid: nat)
    | Failed(sid: nat)
    | FileUp(sid: nat, payload: int)

  datatype Frame = Connecting | Active | Data(data: Chunk) | Ended | Broken

  // ---- The server's half -----------------------------------------------------------

  /** session_id and browser of the link, which are always set and cleared together. */
  datatype Session = Session(sid: nat, browser: nat)

  /** How far a tab's handler has come: start_session up to its awaits, the receive loop, stop_session. */
  datatype Tab = Preempting | Committing | Live | Leaving | Gone

  datatype Server = Server(
    slot: Option<Session>,
    tabs: map<nat, Tab>,
    sidOf: map<nat, nat>,           // the session id of the BrowserLink made for a tab
    connected: set<nat>,
    received: map<nat, seq<Frame>>,
    nextSid: nat)

  // ---- The agent's half ---------------------------------------------------------------

  /** A shell with everything its PTY has produced so far. */
  datatype Shell = Shell(sid: nat, produced: seq<Chunk>)

  /** The read loop inside handle("start"): after stopCurrent, after the fields are set, after "started" is sent. */
  datatype Reader = Idle | Stopped(sid: nat) | Launched(shell: nat) | Announced(shell: nat)

  /** pumpOutput between a Read and its send, or after the end of the output. */
  datatype Pump = Pump(holding: Option<Chunk>, ended: bool)

  datatype Agent = Agent(
    current: Option<(nat, nat)>,     // sessionID and pty, set and cleared together under the mutex
    reader: Reader,
    shells: seq<Shell>,
    pumps: map<nat, Pump>)

  /** A frame handle_agent_message is sending, and whether it clears the slot afterwards. */
  datatype Relay = Relay(browser: nat, frame: Frame, clears: bool) | FileRelay(browser: nat, payload: int)

  datatype Files = Files(
    slot: Option<Session>,
    tabs: map<nat, Tab>,
    received: map<nat, seq<int>>,
    nextSid: nat)

  datatype State = State(
    server: Server,
    agent: Agent,
    files: Files,
    down: seq<Down>,
    up: seq<Up>,
    relay: Option<Relay>,
    // History: the output chunks the server has taken off the connection, and the last start the agent has.
    handled: map<nat, seq<Chunk>>,
    mark: int)

  const INITIAL := State(
    Server(None, map[], map[], {}, map[], 0),
    Agent(None, Idle, [], map[]),
    Files(None, map[], map[], 0),
    [], [], None, map[], -1)

  function Get<T>(m: map<nat, seq<T>>, k: nat): seq<T> { if k in m then m[k] else [] }

  // ---- Steps ------------------------------------------------------------------------------

  datatype Step =
    // a browser tab on the terminal
    | TabArrive(b: nat) | TabStopOld(b: nat) | TabCommit(b: nat)
    | TabInput(b: nat, data: Chunk) | TabResize(b: nat) | TabLeave(b: nat) | TabClear(b: nat) | TabDrop(b: nat)
    // the server's receive loop on the agent connection
    | HubTake | HubSent
    // the agent's read loop
    | AgentTake | AgentLaunch(ok: bool) | AgentAnnounce | AgentSpawn
    // an output pump
    | PumpRead(p: nat, data: Chunk) | PumpSend(p: nat) | PumpEof(p: nat) | PumpExit(p: nat)
    // the file transfer side of the same connection
    | FileArrive(b: nat) | FileStopOld(b: nat) | FileCommit(b: nat) | FileRequest(b: nat, request: int)
    | FileLeave(b: nat) | FileClear(b: nat) | FileHubTake | FileHubSent | FileAgentTake | FileEmit(sid: nat,
        payload: int)

  predicate IsFileStep(e: Step) {
    e.FileArrive? || e.FileStopOld? || e.FileCommit? || e.FileRequest? || e.FileLeave? || e.FileClear?
    || e.FileHubTake? || e.FileHubSent? || e.FileAgentTake? || e.FileEmit?
  }

  predicate TabIs(tabs: map<nat, Tab>, b: nat, t: Tab) { b in tabs && tabs[b] == t }

  predicate Enabled(s: State, e: Step) {
    match e
    case TabArrive(b) => b !in s.server.tabs
    case TabStopOld(b) => TabIs(s.server.tabs, b, Preempting)
    case TabCommit(b) => TabIs(s.server.tabs, b, Committing)
    case TabInput(b, _) => TabIs(s.server.tabs, b, Live)
    case TabResize(b) => TabIs(s.server.tabs, b, Live)
    case TabLeave(b) => TabIs(s.server.tabs, b, Live)
    case TabClear(b) => TabIs(s.server.tabs, b, Leaving)
    case TabDrop(b) => true
    case HubTake => s.relay.None? && s.up != [] && !s.up[0].FileUp?
    case HubSent => s.relay.Some? && s.relay.value.Relay?
    case AgentTake => s.agent.reader.Idle? && s.down != [] && !s.down[0].FileDown?
    case AgentLaunch(_) => s.agent.reader.Stopped?
    case AgentAnnounce => s.agent.reader.Launched? && s.agent.reader.shell < |s.agent.shells|
    case AgentSpawn => s.agent.reader.Announced?
    case PumpRead(p, data) => p in s.agent.pumps && s.agent.pumps[p] == Pump(None, false) && p < |s.agent.shells|
        && data != []
    case PumpSend(p) => p in s.agent.pumps && s.agent.pumps[p].holding.Some? && p < |s.agent.shells|
    case PumpEof(p) => p in s.agent.pumps && s.agent.pumps[p] == Pump(None, false) && p < |s.agent.shells|
    case PumpExit(p) => p in s.agent.pumps && s.agent.pumps[p] == Pump(None, true) && p < |s.agent.shells|
    case FileArrive(b) => b !in s.files.tabs
    case FileStopOld(b) => TabIs(s.files.tabs, b, Preempting)
    case FileCommit(b) => TabIs(s.files.tabs, b, Committing)
    case FileRequest(b, _) => TabIs(s.files.tabs, b, Live)
    case FileLeave(b) => TabIs(s.files.tabs, b, Live)
    case FileClear(b) => TabIs(s.files.tabs, b, Leaving)
    case FileHubTake => s.relay.None? && s.up != [] && s.up[0].FileUp?
    case FileHubSent => s.relay.Some? && s.relay.value.FileRelay?
    case FileAgentTake => s.agent.reader.Idle? && s.down != [] && s.down[0].FileDown?
    case FileEmit(_, _) => true
  }

  // Tabs.

  /** The part of start_session after its last await before the slot is taken. */
  function Commit(s: State, b: nat): State {
    var v := s.server;
    s.(server := v.(slot := Some(Session(v.nextSid, b)),
                    tabs := v.tabs[b := Live],
                    sidOf := v.sidOf[b := v.nextSid],
                    received := v.received[b := Get(v.received, b) + [Connecting]],
                    nextSid := v.nextSid + 1),
       down := s.down + [Start(v.nextSid)])
  }

  /** A slot in use is preempted: its browser is told before anything else happens. */
  function Arrive(s: State, b: nat): State {
    var v := s.server.(connected := s.server.connected + {b});
    if v.slot.None? then Commit(s.(server := v), b)
    else
      var former := v.slot.value.browser;
      s.(server := v.(tabs := v.tabs[b := Preempting],
                      received := v.received[former := Get(v.received, former) + [Ended]]))
  }

  /** Whatever the slot holds now is told to stop, be it the session found at arrival or not. */
  function StopOld(s: State, b: nat): State {
    var v := s.server;
    s.(server := v.(tabs := v.tabs[b := Committing]),
       down := s.down + [Stop(if v.slot.Some? then Some(v.slot.value.sid) else None)])
  }

  function FromTab(s: State, data: Option<Chunk>): State {
    if s.server.slot.None? then s
    else
      var sid := s.server.slot.value.sid;
      s.(down := s.down + [if data.Some? then Input(sid, data.value) else Resize(sid)])
  }

  function Leave(s: State, b: nat): State {
    var v := s.server;
    s.(server := v.(tabs := v.tabs[b := Leaving]),
       down := if v.slot.None? then s.down else s.down + [Stop(Some(v.slot.value.sid))])
  }

  function Clear(s: State, b: nat): State {
    s.(server := s.server.(slot := None, tabs := s.server.tabs[b := Gone]))
  }

  function Drop(s: State, b: nat): State {
    s.(server := s.server.(connected := s.server.connected - {b}))
  }

  // The hub's receive loop.

  function FrameOf(m: Up): Frame
    requires !m.FileUp?
  {
    match m
    case Started(_) => Active
    case Output(_, data) => Data(data)
    case Exited(_) => Ended
    case Failed(_) => Broken
  }

  /** handle_agent_message: a message of another session than the slot's is stale and dropped. */
  function Take(s: State): State
    requires s.up != [] && !s.up[0].FileUp?
  {
    var m := s.up[0];
    var slot := s.server.slot;
    s.(up := s.up[1..],
       handled := if m.Output? then s.handled[m.sid := Get(s.handled, m.sid) + [m.data]] else s.handled,
       relay := if slot.Some? && slot.value.sid == m.sid
                then Some(Relay(slot.value.browser, FrameOf(m), m.Exited? || m.Failed?)) else s.relay)
  }

  /** The send has gone through or found the socket closed; an ending clears the slot, whoever holds it by now. */
  function Sent(s: State): State
    requires s.relay.Some? && s.relay.value.Relay?
  {
    var r := s.relay.value;
    var v := s.server;
    var v' := if r.browser in v.connected
              then v.(received := v.received[r.browser := Get(v.received, r.browser) + [r.frame]]) else v;
    s.(server := if r.clears then v'.(slot := None) else v', relay := None)
  }

  // The agent's read loop.

  function AgentHandle(s: State): State
    requires s.down != [] && !s.down[0].FileDown?
  {
    var m := s.down[0];
    var rest := s.(down := s.down[1..]);
    var a := s.agent;
    match m
    case Start(sid) => rest.(agent := a.(current := None, reader := Stopped(sid)), mark := sid)
    case Stop(target) =>
      if (if a.current.Some? then Some(a.current.value.0) else None) == target
      then rest.(agent := a.(current := None)) else rest
    case _ => rest
  }

  function Launch(s: State, ok: bool): State
    requires s.agent.reader.Stopped?
  {
    var a := s.agent;
    var sid := a.reader.sid;
    if ok then
      s.(agent := a.(shells := a.shells + [Shell(sid, [])],
                     current := Some((sid, |a.shells|)),
                     reader := Launched(|a.shells|)))
    else s.(agent := a.(reader := Idle), up := s.up + [Failed(sid)])
  }

  function Announce(s: State): State
    requires s.agent.reader.Launched? && s.agent.reader.shell < |s.agent.shells|
  {
    var p := s.agent.reader.shell;
    s.(agent := s.agent.(reader := Announced(p)), up := s.up + [Started(s.agent.shells[p].sid)])
  }

  function Spawn(s: State): State
    requires s.agent.reader.Announced?
  {
    s.(agent := s.agent.(reader := Idle, pumps := s.agent.pumps[s.agent.reader.shell := Pump(None, false)]))
  }

  // A pump.

  function Read(s: State, p: nat, data: Chunk): State
    requires p in s.agent.pumps && p < |s.agent.shells|
  {
    var a := s.agent;
    s.(agent := a.(shells := a.shells[p := a.shells[p].(produced := a.shells[p].produced + [data])],
                   pumps := a.pumps[p := Pump(Some(data), false)]))
  }

  function SendHeld(s: State, p: nat): State
    requires p in s.agent.pumps && s.agent.pumps[p].holding.Some? && p < |s.agent.shells|
  {
    s.(agent := s.agent.(pumps := s.agent.pumps[p := s.agent.pumps[p].(holding := None)]),
       up := s.up + [Output(s.agent.shells[p].sid, s.agent.pumps[p].holding.value)])
  }

  /** The shell is gone: the manager's fields are cleared only if they are still this session's. */
  function Eof(s: State, p: nat): State
    requires p in s.agent.pumps && p < |s.agent.shells|
  {
    var a := s.agent;
    s.(agent := a.(current := if a.current.Some? && a.current.value.0 == a.shells[p].sid then None else a.current,
                   pumps := a.pumps[p := Pump(None, true)]))
  }

  function Exit(s: State, p: nat): State
    requires p in s.agent.pumps && p < |s.agent.shells|
  {
    s.(agent := s.agent.(pumps := s.agent.pumps - {p}), up := s.up + [Exited(s.agent.shells[p].sid)])
  }

  // The file side: FileHub's slot, and whatever the agent's file manager answers.

  function FileCommitted(s: State, b: nat): State {
    var f := s.files;
    s.(files := f.(slot := Some(Session(f.nextSid, b)), tabs := f.tabs[b := Live], nextSid := f.nextSid + 1),
       down := s.down + [FileDown(0)])
  }

  function FileApply(s: State, e: Step): State
    requires IsFileStep(e) && Enabled(s, e)
  {
    var f := s.files;
    match e
    case FileArrive(b) =>
      if f.slot.None? then FileCommitted(s, b) else s.(files := f.(tabs := f.tabs[b := Preempting]))
    case FileStopOld(b) => s.(files := f.(tabs := f.tabs[b := Committing]), down := s.down + [FileDown(1)])
    case FileCommit(b) => FileCommitted(s, b)
    case FileRequest(b, request) => if f.slot.None? then s else s.(down := s.down + [FileDown(request)])
    case FileLeave(b) =>
      s.(files := f.(tabs := f.tabs[b := Leaving]), down := if f.slot.None? then s.down else s.down + [FileDown(1)])
    case FileClear(b) => s.(files := f.(slot := None, tabs := f.tabs[b := Gone]))
    case FileHubTake =>
      var m := s.up[0];
      s.(up := s.up[1..],
         relay := if f.slot.Some? && f.slot.value.sid == m.sid then Some(FileRelay(f.slot.value.browser, m.payload))
             else None)
    case FileHubSent =>
      var r := s.relay.value;
      s.(files := f.(received := f.received[r.browser := Get(f.received, r.browser) + [r.payload]]), relay := None)
    case FileAgentTake => s.(down := s.down[1..])
    case FileEmit(sid, payload) => s.(up := s.up + [FileUp(sid, payload)])
    case _ => s
  }

  function Apply(s: State, e: Step): State
    requires Enabled(s, e)
  {
    match e
    case TabArrive(b) => Arrive(s, b)
    case TabStopOld(b) => StopOld(s, b)
    case TabCommit(b) => Commit(s, b)
    case TabInput(b, data) => FromTab(s, Some(data))
    case TabResize(b) => FromTab(s, None)
    case TabLeave(b) => Leave(s, b)
    case TabClear(b) => Clear(s, b)
    case TabDrop(b) => Drop(s, b)
    case HubTake => Take(s)
    case HubSent => Sent(s)
    case AgentTake => AgentHandle(s)
    case AgentLaunch(ok) => Launch(s, ok)
    case AgentAnnounce => Announce(s)
    case AgentSpawn => Spawn(s)
    case PumpRead(p, data) => Read(s, p, data)
    case PumpSend(p) => SendHeld(s, p)
    case PumpEof(p) => Eof(s, p)
    case PumpExit(p) => Exit(s, p)
    case _ => FileApply(s, e)
  }

  // ---- Runs ------------------------------------------------------------------------------

  /** The states a run passes through; a step that is not enabled ends nothing and changes nothing. */
  function After(s: State, run: seq<Step>): State {
    if run == [] then s
    else
      var before := After(s, run[..|run| - 1]);
      if Enabled(before, run[|run| - 1]) then Apply(before, run[|run| - 1]) else before
  }

  /** Output chunks of one session still on the connection. */
  function OutputsFor(up: seq<Up>, sid: nat): seq<Chunk> {
    if up == [] then []
    else
      var m := up[|up| - 1];
      OutputsFor(up[..|up| - 1], sid) + if m.Output? && m.sid == sid then [m.data] else []
  }

  /** The terminal output a browser has been sent. */
  function OutputsIn(frames: seq<Frame>): seq<Chunk> {
    if frames == [] then []
    else
      var f := frames[|frames| - 1];
      OutputsIn(frames[..|frames| - 1]) + if f.Data? then [f.data] else []
  }

  lemma OutputsForAppend(up: seq<Up>, m: Up, sid: nat)
    ensures OutputsFor(up + [m], sid) == OutputsFor(up, sid) + if m.Output? && m.sid == sid then [m.data] else []
  {
    assert (up + [m])[..|up|] == up;
  }

  lemma {:induction false} OutputsForHead(up: seq<Up>, sid: nat)
    requires up != []
    ensures OutputsFor(up, sid)
              == (if up[0].Output? && up[0].sid == sid then [up[0].data] else []) + OutputsFor(up[1..], sid)
  {
    if |up| == 1 {
      OutputsForAppend([], up[0], sid);
      assert [] + up == up && up == [up[0]];
    } else {
      var last := |up| - 1;
      OutputsForHead(up[..last], sid);
      assert up[..last][1..] + [up[last]] == up[1..];
      OutputsForAppend(up[..last][1..], up[last], sid);
    }
  }

  lemma OutputsInAppend(frames: seq<Frame>, f: Frame)
    ensures OutputsIn(frames + [f]) == OutputsIn(frames) + if f.Data? then [f.data] else []
  {
    assert (frames + [f])[..|frames|] == frames;
  }

  // ---- The invariant -------------------------------------------------------------------------

  /** Session ids: one tab each, the slot's tab is the one that opened it. */
  ghost predicate SessionsInv(v: Server) {
    && (forall b | b in v.sidOf ::
       v.sidOf[b] < v.nextSid && b in v.tabs && !v.tabs[b].Preempting? && !v.tabs[b].Committing?)
    && (forall b, c | b in v.sidOf && c in v.sidOf && v.sidOf[b] == v.sidOf[c] :: b == c)
    && (v.slot.Some? ==> v.slot.value.browser in v.sidOf && v.sidOf[v.slot.value.browser] == v.slot.value.sid)
  }

  /** Starts travel in order, each once: those the agent has not had yet are later than all it has. */
  ghost predicate StartsInv(down: seq<Down>, mark: int, nextSid: nat) {
    && -1 <= mark < nextSid
    && (forall i | 0 <= i < |down| && down[i].Start? :: mark < down[i].sid < nextSid)
    && (forall i, j | 0 <= i < j < |down| && down[i].Start? && down[j].Start? :: down[i].sid < down[j].sid)
  }

  /** Shells are launched once per session id; a shell without a pump yet is the reader's. */
  ghost predicate ShellsInv(a: Agent, mark: int) {
    && (forall p | 0 <= p < |a.shells| :: a.shells[p].sid <= mark)
    && (forall p, q | 0 <= p < q < |a.shells| :: a.shells[p].sid < a.shells[q].sid)
    && (a.reader.Stopped? ==> a.reader.sid == mark && forall p | 0 <= p < |a.shells| :: a.shells[p].sid < mark)
    && (a.reader.Launched? || a.reader.Announced? ==>
          a.reader.shell < |a.shells| && a.shells[a.reader.shell].produced == [] && a.reader.shell !in a.pumps)
    && (forall p | p in a.pumps :: p < |a.shells|)
  }

  function Held(a: Agent, p: nat): seq<Chunk> {
    if p in a.pumps && a.pumps[p].holding.Some? then [a.pumps[p].holding.value] else []
  }

  ghost predicate HasShell(a: Agent, sid: nat) {
    exists p | 0 <= p < |a.shells| :: a.shells[p].sid == sid
  }

  /** Nothing a PTY produces is lost or reordered before the hub takes it off the connection. */
  ghost predicate PipelineInv(s: State) {
    && (forall p: nat | p < |s.agent.shells| ::
          var sid := s.agent.shells[p].sid;
          s.agent.shells[p].produced == Get(s.handled, sid) + OutputsFor(s.up, sid) + Held(s.agent, p))
    && (forall sid: nat | !HasShell(s.agent, sid) :: Get(s.handled, sid) == [] && OutputsFor(s.up, sid) == [])
  }

  /** Output on its way to a connected browser. */
  function Pending(s: State, b: nat): seq<Chunk> {
    if s.relay.Some? && s.relay.value.Relay? && s.relay.value.browser == b && s.relay.value.frame.Data?
        && b in s.server.connected
    then [s.relay.value.frame.data] else []
  }

  function Shown(s: State, b: nat): seq<Chunk> { OutputsIn(Get(s.server.received, b)) + Pending(s, b) }

  /** What a browser has is a prefix of what the hub took of its session, and all of it while it holds the slot. */
  ghost predicate BrowsersInv(s: State) {
    && (forall b | b in s.server.sidOf :: Shown(s, b) <= Get(s.handled, s.server.sidOf[b]))
    && (forall b | b !in s.server.sidOf :: OutputsIn(Get(s.server.received, b)) == [])
    && (s.relay.Some? && s.relay.value.Relay? ==> s.relay.value.browser in s.server.sidOf)
    && (s.server.slot.Some? && s.server.slot.value.browser in s.server.connected ==>
          Shown(s, s.server.slot.value.browser) == Get(s.handled, s.server.slot.value.sid))
  }

  ghost predicate Inv(s: State) {
    && SessionsInv(s.server)
    && StartsInv(s.down, s.mark, s.server.nextSid)
    && ShellsInv(s.agent, s.mark)
    && PipelineInv(s)
    && BrowsersInv(s)
  }

  // ---- Each step keeps it ------------------------------------------------------------------------

  lemma CommitKeeps(s: State, b: nat)
    requires Inv(s) && b !in s.server.sidOf
    ensures Inv(Commit(s, b))
  {
    var s' := Commit(s, b);
    NoShellAboveMark(s, s.server.nextSid);
    CommitBrowsers(s, b);
    hide OutputsFor, OutputsIn, ShellsInv, PipelineInv, BrowsersInv, HasShell;
    PipelineFrame(s, s');
    StartsNext(s.down, s.mark, s.server.nextSid);
    CommitSessions(s.server, b, s'.server);
    hide StartsInv, SessionsInv;
  }

  lemma StartsNext(down: seq<Down>, mark: int, nextSid: nat)
    ensures StartsInv(down, mark, nextSid) ==> StartsInv(down + [Start(nextSid)], mark, nextSid + 1)
  {}

  lemma CommitSessions(v: Server, b: nat, v': Server)
    requires SessionsInv(v) && b !in v.sidOf
    requires v'.slot == Some(Session(v.nextSid, b)) && v'.tabs == v.tabs[b := Live]
    requires v'.sidOf == v.sidOf[b := v.nextSid] && v'.nextSid == v.nextSid + 1
    ensures SessionsInv(v')
  {}

  lemma CommitBrowsers(s: State, b: nat)
    requires Inv(s) && b !in s.server.sidOf
    ensures BrowsersInv(Commit(s, b))
  {
    NoShellAboveMark(s, s.server.nextSid);
    CommitShows(s, b);
    hide OutputsFor, OutputsIn, ShellsInv, PipelineInv, StartsInv, HasShell;
    assert Pending(s, b) == [] && Shown(s, b) == [];
    hide Shown, Pending;
  }

  /** Taking the slot shows no browser any output. */
  lemma CommitShows(s: State, b: nat)
    ensures forall c: nat :: Shown(Commit(s, b), c) == Shown(s, c)
    ensures forall c: nat :: OutputsIn(Get(Commit(s, b).server.received, c)) == OutputsIn(Get(s.server.received, c))
  {}

  lemma NoShellAboveMark(s: State, sid: nat)
    requires Inv(s) && sid > s.mark
    ensures Get(s.handled, sid) == []
  {
    assert !HasShell(s.agent, sid);
  }

  /** A status frame shows no output. */
  lemma StatusKeeps(s: State, b: nat, f: Frame)
    requires Inv(s) && !f.Data?
    ensures Inv(s.(server := s.server.(received := s.server.received[b := Get(s.server.received, b) + [f]])))
  {
    hide OutputsFor, OutputsIn, StartsInv, ShellsInv, PipelineInv;
    var s' := s.(server := s.server.(received := s.server.received[b := Get(s.server.received, b) + [f]]));
    StatusShows(s, b, f);
    PipelineFrame(s, s');
    hide Shown, Pending;
  }

  lemma StatusShows(s: State, b: nat, f: Frame)
    requires !f.Data?
    ensures var s' := s.(server := s.server.(received := s.server.received[b := Get(s.server.received, b) + [f]]));
            && (forall c: nat :: Shown(s', c) == Shown(s, c))
            && (forall c: nat :: OutputsIn(Get(s'.server.received, c)) == OutputsIn(Get(s.server.received, c)))
  {}

  lemma PipelineFrame(s: State, s': State)
    requires PipelineInv(s) && s'.handled == s.handled && s'.up == s.up && s'.agent.shells == s.agent.shells
    requires forall p :: Held(s'.agent, p) == Held(s.agent, p)
    ensures PipelineInv(s')
  {}

  /** Changes on the server that show no browser anything new and take nobody's session. */
  lemma ServerFrame(s: State, v: Server)
    requires Inv(s) && v.sidOf == s.server.sidOf && v.received == s.server.received && v.nextSid == s.server.nextSid
    requires v.connected <= s.server.connected || v.sidOf.Keys !! (v.connected - s.server.connected)
    requires v.slot == s.server.slot || v.slot == None
    requires forall b | b in v.sidOf :: b in v.tabs && !v.tabs[b].Preempting? && !v.tabs[b].Committing?
    ensures Inv(s.(server := v))
  {
    hide OutputsFor, OutputsIn, StartsInv, ShellsInv, PipelineInv;
    var s' := s.(server := v);
    PipelineFrame(s, s');
    forall b | b in v.sidOf
      ensures Shown(s', b) <= Shown(s, b)
      ensures b in v.connected ==> b in s.server.connected && Shown(s', b) == Shown(s, b)
    {}
  }

  /** Nothing but a start matters about what is sent down. */
  lemma DownKeeps(s: State, m: Down)
    requires Inv(s) && !m.Start?
    ensures Inv(s.(down := s.down + [m]))
  {}

  lemma DownFrame(s: State, down: seq<Down>, mark: int, a: Agent)
    requires Inv(s)
    requires a.shells == s.agent.shells && a.pumps == s.agent.pumps
    ensures PipelineInv(s.(down := down, mark := mark, agent := a))
              && BrowsersInv(s.(down := down, mark := mark, agent := a))
  {
    hide OutputsFor, OutputsIn;
    var s' := s.(down := down, mark := mark, agent := a);
    PipelineFrame(s, s');
    assert forall b :: Shown(s', b) == Shown(s, b);
  }

  lemma UpKeeps(s: State, m: Up)
    requires Inv(s) && !m.Output?
    ensures Inv(s.(up := s.up + [m]))
  {
    hide OutputsFor, OutputsIn, SessionsInv, StartsInv, ShellsInv;
    var s' := s.(up := s.up + [m]);
    forall sid: nat
      ensures OutputsFor(s'.up, sid) == OutputsFor(s.up, sid)
    {
      OutputsForAppend(s.up, m, sid);
    }
    assert forall b :: Shown(s', b) == Shown(s, b);
    assert forall sid :: HasShell(s'.agent, sid) == HasShell(s.agent, sid);
  }

  // Tabs.

  lemma ArriveKeeps(s: State, b: nat)
    requires Inv(s) && b !in s.server.tabs
    ensures Inv(Arrive(s, b))
  {
    hide OutputsFor, OutputsIn, StartsInv, ShellsInv, PipelineInv, BrowsersInv;
    var v := s.server.(connected := s.server.connected + {b});
    if v.slot.None? {
      ServerFrame(s, v);
      CommitKeeps(s.(server := v), b);
    } else {
      var v' := v.(tabs := v.tabs[b := Preempting]);
      ServerFrame(s, v');
      StatusKeeps(s.(server := v'), v.slot.value.browser, Ended);
    }
  }

  lemma TabStepKeeps(s: State, e: Step)
    requires Inv(s) && Enabled(s, e)
    requires e.TabArrive? || e.TabStopOld? || e.TabCommit? || e.TabInput? || e.TabResize? || e.TabLeave? || e.TabClear?
               || e.TabDrop?
    ensures Inv(Apply(s, e))
  {
    hide OutputsFor, OutputsIn, StartsInv, ShellsInv, PipelineInv, BrowsersInv;
    var v := s.server;
    match e
    case TabArrive(b) => ArriveKeeps(s, b);
    case TabStopOld(b) =>
      ServerFrame(s, v.(tabs := v.tabs[b := Committing]));
      DownKeeps(s.(server := v.(tabs := v.tabs[b := Committing])),
          Stop(if v.slot.Some? then Some(v.slot.value.sid) else None));
    case TabCommit(b) => CommitKeeps(s, b);
    case TabInput(b, data) =>
      if v.slot.Some? { DownKeeps(s, Input(v.slot.value.sid, data)); }
    case TabResize(b) =>
      if v.slot.Some? { DownKeeps(s, Resize(v.slot.value.sid)); }
    case TabLeave(b) =>
      ServerFrame(s, v.(tabs := v.tabs[b := Leaving]));
      if v.slot.Some? { DownKeeps(s.(server := v.(tabs := v.tabs[b := Leaving])), Stop(Some(v.slot.value.sid))); }
    case TabClear(b) => ServerFrame(s, v.(slot := None, tabs := v.tabs[b := Gone]));
    case TabDrop(b) => ServerFrame(s, v.(connected := v.connected - {b}));
  }

  // The hub.

  lemma TakePipeline(s: State)
    requires PipelineInv(s) && s.up != [] && !s.up[0].FileUp?
    ensures PipelineInv(Take(s))
  {
    hide OutputsFor;
    var s' := Take(s);
    forall sid: nat
      ensures Get(s.handled, sid) + OutputsFor(s.up, sid) == Get(s'.handled, sid) + OutputsFor(s'.up, sid)
      ensures Get(s.handled, sid) <= Get(s'.handled, sid)
    {
      OutputsForHead(s.up, sid);
    }
    assert forall sid :: HasShell(s'.agent, sid) == HasShell(s.agent, sid);
    forall p: nat | p < |s.agent.shells|
      ensures s'.agent.shells[p].produced
                == Get(s'.handled, s'.agent.shells[p].sid) + OutputsFor(s'.up, s'.agent.shells[p].sid)
                    + Held(s'.agent, p)
    {
      assert s.agent.shells[p].produced
               == Get(s.handled, s.agent.shells[p].sid) + OutputsFor(s.up, s.agent.shells[p].sid) + Held(s.agent, p);
    }
  }

  lemma TakeBrowsers(s: State)
    requires BrowsersInv(s) && SessionsInv(s.server) && s.relay.None? && s.up != [] && !s.up[0].FileUp?
    ensures BrowsersInv(Take(s))
  {
    hide OutputsFor, OutputsIn;
    var s', m := Take(s), s.up[0];
    forall b | b in s.server.sidOf
      ensures Shown(s', b) <= Get(s'.handled, s.server.sidOf[b])
    {
      assert Shown(s, b) <= Get(s.handled, s.server.sidOf[b]);
    }
  }

  /** Delivering a frame moves it from the relay to the browser. */
  lemma DeliveredKeeps(s: State)
    requires Inv(s) && s.relay.Some? && s.relay.value.Relay?
    ensures Inv(Sent(s.(relay := Some(s.relay.value.(clears := false)))))
  {
    hide OutputsFor, OutputsIn, StartsInv, ShellsInv, PipelineInv;
    var r := s.relay.value;
    var s' := Sent(s.(relay := Some(r.(clears := false))));
    OutputsInAppend(Get(s.server.received, r.browser), r.frame);
    PipelineFrame(s, s');
    forall b
      ensures Shown(s', b) == Shown(s, b)
    {
      assert Pending(s', b) == [];
      assert b != r.browser ==> Get(s'.server.received, b) == Get(s.server.received, b) && Pending(s, b) == [];
    }
  }

  lemma SentKeeps(s: State)
    requires Inv(s) && s.relay.Some? && s.relay.value.Relay?
    ensures Inv(Sent(s))
  {
    DeliveredKeeps(s);
    var s' := Sent(s.(relay := Some(s.relay.value.(clears := false))));
    if s.relay.value.clears {
      hide OutputsFor, OutputsIn, StartsInv, ShellsInv, PipelineInv, BrowsersInv;
      ServerFrame(s', s'.server.(slot := None));
    }
  }

  lemma HubStepKeeps(s: State, e: Step)
    requires Inv(s) && Enabled(s, e) && (e.HubTake? || e.HubSent?)
    ensures Inv(Apply(s, e))
  {
    if e.HubTake? {
      TakePipeline(s);
      TakeBrowsers(s);
    } else {
      SentKeeps(s);
    }
  }

  // The agent.

  lemma AgentHandleKeeps(s: State)
    requires Inv(s) && s.agent.reader.Idle? && s.down != [] && !s.down[0].FileDown?
    ensures Inv(AgentHandle(s))
  {
    hide OutputsFor, OutputsIn, PipelineInv, BrowsersInv;
    var s' := AgentHandle(s);
    DownFrame(s, s'.down, s'.mark, s'.agent);
    assert forall i | 0 <= i < |s'.down| :: s'.down[i] == s.down[i + 1];
  }

  lemma LaunchKeeps(s: State)
    requires Inv(s) && s.agent.reader.Stopped?
    ensures Inv(Launch(s, true))
  {
    LaunchShells(s.agent, s.mark, Launch(s, true).agent);
    LaunchPipeline(s);
    BrowsersFrame(s, Launch(s, true));
    hide SessionsInv, StartsInv, ShellsInv, PipelineInv, BrowsersInv;
  }

  lemma LaunchShells(a: Agent, mark: int, a': Agent)
    requires ShellsInv(a, mark) && a.reader.Stopped?
    requires a'.shells == a.shells + [Shell(a.reader.sid, [])] && a'.reader == Launched(|a.shells|)
               && a'.pumps == a.pumps
    ensures ShellsInv(a', mark)
  {}

  /** The new shell has produced nothing, and nothing of its session has been seen. */
  lemma LaunchPipeline(s: State)
    requires Inv(s) && s.agent.reader.Stopped?
    ensures PipelineInv(Launch(s, true))
  {
    hide OutputsFor, BrowsersInv, StartsInv, SessionsInv;
    var s', sid := Launch(s, true), s.agent.reader.sid;
    assert !HasShell(s.agent, sid);
    var n := |s.agent.shells|;
    assert forall p | 0 <= p < n :: s'.agent.shells[p] == s.agent.shells[p];
    assert s'.agent.shells[n] == Shell(sid, []);
    forall other: nat | HasShell(s.agent, other)
      ensures HasShell(s'.agent, other)
    {
      var p :| 0 <= p < n && s.agent.shells[p].sid == other;
      assert s'.agent.shells[p].sid == other;
    }
  }

  lemma BrowsersFrame(s: State, s': State)
    requires BrowsersInv(s) && s'.server == s.server && s'.relay == s.relay && s'.handled == s.handled
    ensures BrowsersInv(s')
  {}

  lemma SpawnKeeps(s: State)
    requires Inv(s) && s.agent.reader.Announced?
    ensures Inv(Spawn(s))
  {
    hide OutputsFor, OutputsIn, PipelineInv, BrowsersInv;
    var s' := Spawn(s);
    assert forall p :: Held(s'.agent, p) == Held(s.agent, p);
    PipelineFrame(s, s');
    BrowsersFrame(s, s');
  }

  lemma ReaderFrame(s: State, r: Reader)
    requires Inv(s) && (r.Idle? || (s.agent.reader.Launched? && r == Announced(s.agent.reader.shell)))
    ensures Inv(s.(agent := s.agent.(reader := r)))
  {
    hide OutputsFor, OutputsIn, PipelineInv, BrowsersInv;
    DownFrame(s, s.down, s.mark, s.agent.(reader := r));
  }

  lemma AgentStepKeeps(s: State, e: Step)
    requires Inv(s) && Enabled(s, e) && (e.AgentTake? || e.AgentLaunch? || e.AgentAnnounce? || e.AgentSpawn?)
    ensures Inv(Apply(s, e))
  {
    hide Inv;
    match e
    case AgentTake => AgentHandleKeeps(s);
    case AgentLaunch(ok) =>
      if ok {
        LaunchKeeps(s);
      } else {
        ReaderFrame(s, Idle);
        UpKeeps(s.(agent := s.agent.(reader := Idle)), Failed(s.agent.reader.sid));
      }
    case AgentAnnounce =>
      var p := s.agent.reader.shell;
      ReaderFrame(s, Announced(p));
      UpKeeps(s.(agent := s.agent.(reader := Announced(p))), Started(s.agent.shells[p].sid));
    case AgentSpawn => SpawnKeeps(s);
  }

  // The pumps.

  lemma ReadPipeline(s: State, p: nat, data: Chunk)
    requires PipelineInv(s) && p in s.agent.pumps && s.agent.pumps[p] == Pump(None, false) && p < |s.agent.shells|
    ensures PipelineInv(Read(s, p, data))
  {
    hide OutputsFor;
    var s' := Read(s, p, data);
    assert forall q | 0 <= q < |s.agent.shells| :: s'.agent.shells[q].sid == s.agent.shells[q].sid;
    forall sid
      ensures HasShell(s'.agent, sid) == HasShell(s.agent, sid)
    {}
    forall q: nat | q < |s.agent.shells|
      ensures s'.agent.shells[q].produced
                == Get(s'.handled, s'.agent.shells[q].sid) + OutputsFor(s'.up, s'.agent.shells[q].sid)
                    + Held(s'.agent, q)
    {
      assert s.agent.shells[q].produced
               == Get(s.handled, s.agent.shells[q].sid) + OutputsFor(s.up, s.agent.shells[q].sid) + Held(s.agent, q);
    }
  }

  lemma ReadKeeps(s: State, p: nat, data: Chunk)
    requires Inv(s) && Enabled(s, PumpRead(p, data))
    ensures Inv(Read(s, p, data))
  {
    hide OutputsFor, OutputsIn, BrowsersInv, PipelineInv, SessionsInv, StartsInv;
    var s' := Read(s, p, data);
    BrowsersFrame(s, s');
    ReadPipeline(s, p, data);
    assert forall q | 0 <= q < |s.agent.shells| :: s'.agent.shells[q].sid == s.agent.shells[q].sid;
  }

  lemma SendHeldPipeline(s: State, p: nat)
    requires PipelineInv(s) && p in s.agent.pumps && s.agent.pumps[p].holding.Some? && p < |s.agent.shells|
    requires forall q | 0 <= q < |s.agent.shells| && q != p :: s.agent.shells[q].sid != s.agent.shells[p].sid
    ensures PipelineInv(SendHeld(s, p))
  {
    hide OutputsFor;
    var s' := SendHeld(s, p);
    var m := Output(s.agent.shells[p].sid, s.agent.pumps[p].holding.value);
    forall sid: nat
      ensures OutputsFor(s'.up, sid) == OutputsFor(s.up, sid) + if m.sid == sid then [m.data] else []
      ensures HasShell(s'.agent, sid) == HasShell(s.agent, sid)
    {
      OutputsForAppend(s.up, m, sid);
    }
    assert HasShell(s.agent, m.sid);
    forall q: nat | q < |s.agent.shells|
      ensures s'.agent.shells[q].produced
                == Get(s'.handled, s'.agent.shells[q].sid) + OutputsFor(s'.up, s'.agent.shells[q].sid)
                    + Held(s'.agent, q)
    {
      assert s.agent.shells[q].produced
               == Get(s.handled, s.agent.shells[q].sid) + OutputsFor(s.up, s.agent.shells[q].sid) + Held(s.agent, q);
    }
  }

  lemma SendHeldKeeps(s: State, p: nat)
    requires Inv(s) && Enabled(s, PumpSend(p))
    ensures Inv(SendHeld(s, p))
  {
    hide OutputsFor, OutputsIn, BrowsersInv, PipelineInv, SessionsInv, StartsInv;
    BrowsersFrame(s, SendHeld(s, p));
    SendHeldPipeline(s, p);
  }

  lemma PumpFrame(s: State, a: Agent)
    requires Inv(s) && a.shells == s.agent.shells && a.reader == s.agent.reader
    requires a.pumps.Keys <= s.agent.pumps.Keys && forall p :: Held(a, p) == Held(s.agent, p)
    ensures Inv(s.(agent := a))
  {
    hide OutputsFor, OutputsIn, BrowsersInv, PipelineInv;
    PipelineFrame(s, s.(agent := a));
    BrowsersFrame(s, s.(agent := a));
  }

  lemma PumpStepKeeps(s: State, e: Step)
    requires Inv(s) && Enabled(s, e) && (e.PumpRead? || e.PumpSend? || e.PumpEof? || e.PumpExit?)
    ensures Inv(Apply(s, e))
  {
    hide Inv;
    match e
    case PumpRead(p, data) => ReadKeeps(s, p, data);
    case PumpSend(p) => SendHeldKeeps(s, p);
    case PumpEof(p) => PumpFrame(s, Eof(s, p).agent);
    case PumpExit(p) =>
      var a := s.agent.(pumps := s.agent.pumps - {p});
      PumpFrame(s, a);
      UpKeeps(s.(agent := a), Exited(s.agent.shells[p].sid));
  }

  // The file side.

  lemma FilesFrame(s: State, f: Files, relay: Option<Relay>)
    requires Inv(s) && (relay == s.relay || (relay.None? && s.relay.Some? && s.relay.value.FileRelay?)
                        || (s.relay.None? && relay.Some? && relay.value.FileRelay?))
    ensures Inv(s.(files := f, relay := relay))
  {
    hide OutputsFor, OutputsIn, PipelineInv;
    var s' := s.(files := f, relay := relay);
    PipelineFrame(s, s');
    assert forall b :: Shown(s', b) == Shown(s, b);
  }

  lemma FileTakeKeeps(s: State)
    requires Inv(s) && s.up != [] && s.up[0].FileUp?
    ensures Inv(s.(up := s.up[1..]))
  {
    hide OutputsFor, OutputsIn, SessionsInv, StartsInv, ShellsInv, BrowsersInv;
    var s' := s.(up := s.up[1..]);
    BrowsersFrame(s, s');
    forall sid: nat
      ensures OutputsFor(s.up, sid) == OutputsFor(s'.up, sid)
    {
      OutputsForHead(s.up, sid);
    }
    assert forall sid :: HasShell(s'.agent, sid) == HasShell(s.agent, sid);
  }

  lemma FileDownTakenKeeps(s: State)
    requires Inv(s) && s.down != [] && s.down[0].FileDown?
    ensures Inv(s.(down := s.down[1..]))
  {}

  lemma FileStepKeeps(s: State, e: Step)
    requires Inv(s) && Enabled(s, e) && IsFileStep(e)
    ensures Inv(Apply(s, e))
  {
    hide Inv, SessionsInv, StartsInv, ShellsInv, PipelineInv, BrowsersInv;
    var s' := Apply(s, e);
    if e.FileHubTake? {
      FileTakeKeeps(s);
      FilesFrame(s.(up := s.up[1..]), s.files, s'.relay);
    } else if e.FileAgentTake? {
      FileDownTakenKeeps(s);
    } else if e.FileEmit? {
      UpKeeps(s, FileUp(e.sid, e.payload));
    } else if e.FileHubSent? {
      FilesFrame(s, s'.files, None);
    } else {
      FilesFrame(s, s'.files, s.relay);
      if |s'.down| > |s.down| {
        DownKeeps(s.(files := s'.files), s'.down[|s.down|]);
      }
    }
  }

  lemma StepKeeps(s: State, e: Step)
    requires Inv(s) && Enabled(s, e)
    ensures Inv(Apply(s, e))
  {
    hide Inv, Apply, Enabled;
    if IsFileStep(e) {
      FileStepKeeps(s, e);
    } else if e.HubTake? || e.HubSent? {
      HubStepKeeps(s, e);
    } else if e.AgentTake? || e.AgentLaunch? || e.AgentAnnounce? || e.AgentSpawn? {
      AgentStepKeeps(s, e);
    } else if e.PumpRead? || e.PumpSend? || e.PumpEof? || e.PumpExit? {
      PumpStepKeeps(s, e);
    } else {
      TabStepKeeps(s, e);
    }
  }

  lemma {:induction false} InvAlways(run: seq<Step>)
    ensures Inv(After(INITIAL, run))
  {
    if run != [] {
      InvAlways(run[..|run| - 1]);
      var before := After(INITIAL, run[..|run| - 1]);
      if Enabled(before, run[|run| - 1]) {
        StepKeeps(before, run[|run| - 1]);
      }
    }
  }

  // ---- Main results ------------------------------------------------------------------------------------

  /**
   In every reachable state of every interleaving, the output a browser has been
   sent is an in-order prefix of what the PTY of the session it opened produced,
   and nothing at all if that session never got a shell.
   */
  lemma BrowserSeesPrefixOfItsShell(run: seq<Step>, b: nat)
    ensures var s := After(INITIAL, run);
            var shown := OutputsIn(Get(s.server.received, b));
            && (b !in s.server.sidOf ==> shown == [])
            && (b in s.server.sidOf && !HasShell(s.agent, s.server.sidOf[b]) ==> shown == [])
            && (b in s.server.sidOf ==> forall p | 0 <= p < |s.agent.shells| ::
                  s.agent.shells[p].sid == s.server.sidOf[b] ==> shown <= s.agent.shells[p].produced)
  {
    hide *;
    InvAlways(run);
    PrefixInState(After(INITIAL, run), b);
  }

  lemma PrefixInState(s: State, b: nat)
    requires Inv(s)
    ensures var shown := OutputsIn(Get(s.server.received, b));
            && (b !in s.server.sidOf ==> shown == [])
            && (b in s.server.sidOf && !HasShell(s.agent, s.server.sidOf[b]) ==> shown == [])
            && (b in s.server.sidOf ==> forall p | 0 <= p < |s.agent.shells| ::
                  s.agent.shells[p].sid == s.server.sidOf[b] ==> shown <= s.agent.shells[p].produced)
  {}

  /** Each session has at most one shell, and no two tabs share a session. */
  lemma SessionsAreUnique(run: seq<Step>, b: nat, c: nat, p: nat, q: nat)
    requires var s := After(INITIAL, run);
             b in s.server.sidOf && c in s.server.sidOf && p < |s.agent.shells| && q < |s.agent.shells|
    ensures var s := After(INITIAL, run);
            && (s.server.sidOf[b] == s.server.sidOf[c] ==> b == c)
            && (s.agent.shells[p].sid == s.agent.shells[q].sid ==> p == q)
  {
    InvAlways(run);
  }

  /** The bytes of a series of chunks. */
  function Bytes(chunks: seq<Chunk>): seq<bv8> {
    if chunks == [] then [] else Bytes(chunks[..|chunks| - 1]) + chunks[|chunks| - 1]
  }

  lemma {:induction false} PrefixOfBytes(a: seq<Chunk>, b: seq<Chunk>)
    requires a <= b
    ensures Bytes(a) <= Bytes(b)
  {
    if a != b {
      PrefixOfBytes(a, b[..|b| - 1]);
    }
  }

  /** The same byte for byte, however reads and frames cut the stream. */
  lemma BrowserSeesPrefixOfBytes(run: seq<Step>, b: nat, p: nat)
    requires var s := After(INITIAL, run);
             b in s.server.sidOf && p < |s.agent.shells| && s.agent.shells[p].sid == s.server.sidOf[b]
    ensures var s := After(INITIAL, run);
            Bytes(OutputsIn(Get(s.server.received, b))) <= Bytes(s.agent.shells[p].produced)
  {
    BrowserSeesPrefixOfItsShell(run, b);
    var s := After(INITIAL, run);
    PrefixOfBytes(OutputsIn(Get(s.server.received, b)), s.agent.shells[p].produced);
  }

  // ---- Terminal and file transfer do not touch each other ---------------------------------------------

  function DownOf(down: seq<Down>, files: bool): seq<Down> {
    if down == [] then []
    else DownOf(down[..|down| - 1], files) + if down[|down| - 1].FileDown? == files then [down[|down| - 1]] else []
  }

  function UpOf(up: seq<Up>, files: bool): seq<Up> {
    if up == [] then []
    else UpOf(up[..|up| - 1], files) + if up[|up| - 1].FileUp? == files then [up[|up| - 1]] else []
  }

  lemma DownOfAppend(down: seq<Down>, m: Down, files: bool)
    ensures DownOf(down + [m], files) == DownOf(down, files) + if m.FileDown? == files then [m] else []
  {
    assert (down + [m])[..|down|] == down;
  }

  lemma UpOfAppend(up: seq<Up>, m: Up, files: bool)
    ensures UpOf(up + [m], files) == UpOf(up, files) + if m.FileUp? == files then [m] else []
  {
    assert (up + [m])[..|up|] == up;
  }

  lemma {:induction false} DownOfHead(down: seq<Down>, files: bool)
    requires down != []
    ensures DownOf(down, files) == (if down[0].FileDown? == files then [down[0]] else []) + DownOf(down[1..], files)
  {
    if |down| == 1 {
      DownOfAppend([], down[0], files);
      assert [] + down == down && down == [down[0]];
    } else {
      var last := |down| - 1;
      DownOfHead(down[..last], files);
      assert down[..last][1..] + [down[last]] == down[1..];
      DownOfAppend(down[..last][1..], down[last], files);
    }
  }

  lemma {:induction false} UpOfHead(up: seq<Up>, files: bool)
    requires up != []
    ensures UpOf(up, files) == (if up[0].FileUp? == files then [up[0]] else []) + UpOf(up[1..], files)
  {
    if |up| == 1 {
      UpOfAppend([], up[0], files);
      assert [] + up == up && up == [up[0]];
    } else {
      var last := |up| - 1;
      UpOfHead(up[..last], files);
      assert up[..last][1..] + [up[last]] == up[1..];
      UpOfAppend(up[..last][1..], up[last], files);
    }
  }

  /** The state with everything of file transfer taken out. */
  function TerminalView(s: State): State {
    s.(files := INITIAL.files,
       down := DownOf(s.down, false),
       up := UpOf(s.up, false),
       relay := if s.relay.Some? && s.relay.value.FileRelay? then None else s.relay)
  }

  /** Everything of file transfer. */
  datatype FileSide = FileSide(files: Files, down: seq<Down>, up: seq<Up>, relay: Option<Relay>)

  function FileView(s: State): FileSide {
    FileSide(s.files, DownOf(s.down, true), UpOf(s.up, true),
             if s.relay.Some? && s.relay.value.FileRelay? then s.relay else None)
  }

  /** The message a file step puts on its way down, if any. */
  function FileSentDown(s: State, e: Step): Option<Down> {
    match e
    case FileArrive(_) => if s.files.slot.None? then Some(FileDown(0)) else None
    case FileCommit(_) => Some(FileDown(0))
    case FileStopOld(_) => Some(FileDown(1))
    case FileRequest(_, request) => if s.files.slot.None? then None else Some(FileDown(request))
    case FileLeave(_) => if s.files.slot.None? then None else Some(FileDown(1))
    case _ => None
  }

  function FileSentUp(e: Step): Option<Up> {
    match e
    case FileEmit(sid, payload) => Some(FileUp(sid, payload))
    case _ => None
  }

  lemma FileStepMessages(s: State, e: Step)
    requires Enabled(s, e) && IsFileStep(e)
    ensures var s', down, up := Apply(s, e), FileSentDown(s, e), FileSentUp(e);
            && (s'.server, s'.agent, s'.handled, s'.mark) == (s.server, s.agent, s.handled, s.mark)
            && s'.down == (if e.FileAgentTake? then s.down[1..] else if down.Some? then s.down + [down.value]
               else s.down)
            && s'.up == (if e.FileHubTake? then s.up[1..] else if up.Some? then s.up + [up.value] else s.up)
            && (down.Some? ==> down.value.FileDown?) && (up.Some? ==> up.value.FileUp?)
            && (e.FileAgentTake? ==> s.down[0].FileDown?) && (e.FileHubTake? ==> s.up[0].FileUp?)
            && (s'.relay == s.relay || (!(s.relay.Some? && s.relay.value.Relay?)
               && !(s'.relay.Some? && s'.relay.value.Relay?)))
  {}

  lemma FileStepsInvisible(s: State, e: Step)
    requires Enabled(s, e) && IsFileStep(e)
    ensures TerminalView(Apply(s, e)) == TerminalView(s)
  {
    FileStepMessages(s, e);
    FileDownsInvisible(s, e);
    FileUpsInvisible(s, e);
    hide DownOf, UpOf, Apply, FileSentDown, FileSentUp, Enabled, IsFileStep;
  }

  lemma FileDownsInvisible(s: State, e: Step)
    requires Enabled(s, e) && IsFileStep(e)
    ensures DownOf(Apply(s, e).down, false) == DownOf(s.down, false)
  {
    FileStepMessages(s, e);
    assert e.FileAgentTake? ==> s.down != [];
    hide DownOf, Apply, FileSentDown, FileSentUp, Enabled, IsFileStep;
    var down := FileSentDown(s, e);
    if e.FileAgentTake? {
      DownOfHead(s.down, false);
    } else if down.Some? {
      DownOfAppend(s.down, down.value, false);
    }
  }

  lemma FileUpsInvisible(s: State, e: Step)
    requires Enabled(s, e) && IsFileStep(e)
    ensures UpOf(Apply(s, e).up, false) == UpOf(s.up, false)
  {
    FileStepMessages(s, e);
    assert e.FileHubTake? ==> s.up != [];
    hide UpOf, Apply, FileSentDown, FileSentUp, Enabled, IsFileStep;
    var up := FileSentUp(e);
    if e.FileHubTake? {
      UpOfHead(s.up, false);
    } else if up.Some? {
      UpOfAppend(s.up, up.value, false);
    }
  }

  /** The message a terminal step puts on its way down, if any. */
  function SentDown(s: State, e: Step): Option<Down> {
    var slot := s.server.slot;
    match e
    case TabArrive(_) => if slot.None? then Some(Start(s.server.nextSid)) else None
    case TabCommit(_) => Some(Start(s.server.nextSid))
    case TabStopOld(_) => Some(Stop(if slot.Some? then Some(slot.value.sid) else None))
    case TabInput(_, data) => if slot.Some? then Some(Input(slot.value.sid, data)) else None
    case TabResize(_) => if slot.Some? then Some(Resize(slot.value.sid)) else None
    case TabLeave(_) => if slot.Some? then Some(Stop(Some(slot.value.sid))) else None
    case _ => None
  }

  function SentUp(s: State, e: Step): Option<Up>
    requires Enabled(s, e)
  {
    match e
    case AgentLaunch(ok) => if ok then None else Some(Failed(s.agent.reader.sid))
    case AgentAnnounce => Some(Started(s.agent.shells[s.agent.reader.shell].sid))
    case PumpSend(p) => Some(Output(s.agent.shells[p].sid, s.agent.pumps[p].holding.value))
    case PumpExit(p) => Some(Exited(s.agent.shells[p].sid))
    case _ => None
  }

  lemma TerminalStepMessages(s: State, e: Step)
    requires Enabled(s, e) && !IsFileStep(e)
    ensures var s', down, up := Apply(s, e), SentDown(s, e), SentUp(s, e);
            && s'.files == s.files
            && s'.down == (if e.AgentTake? then s.down[1..] else if down.Some? then s.down + [down.value] else s.down)
            && s'.up == (if e.HubTake? then s.up[1..] else if up.Some? then s.up + [up.value] else s.up)
            && (down.Some? ==> !down.value.FileDown?) && (up.Some? ==> !up.value.FileUp?)
  {}

  lemma TerminalStepsInvisibleToFiles(s: State, e: Step)
    requires Enabled(s, e) && !IsFileStep(e)
    ensures FileView(Apply(s, e)) == FileView(s)
  {
    TerminalStepMessages(s, e);
    TerminalStepRelay(s, e);
    hide DownOf, UpOf, Apply, SentDown, SentUp;
    var down, up := SentDown(s, e), SentUp(s, e);
    if down.Some? { DownOfAppend(s.down, down.value, true); }
    if up.Some? { UpOfAppend(s.up, up.value, true); }
    if e.HubTake? { UpOfHead(s.up, true); }
    if e.AgentTake? { DownOfHead(s.down, true); }
  }

  lemma TerminalStepRelay(s: State, e: Step)
    requires Enabled(s, e) && !IsFileStep(e)
    ensures var relay, relay' := s.relay, Apply(s, e).relay;
            relay' == relay || (!(relay.Some? && relay.value.FileRelay?) && !(relay'.Some? && relay'.value.FileRelay?))
  {}

  /** The channels of the view after a step are those of the step on the view. */
  lemma ViewChannels(s: State, e: Step)
    requires Enabled(s, e) && !IsFileStep(e)
    ensures Enabled(TerminalView(s), e)
    ensures var v, s' := TerminalView(s), Apply(s, e);
            && DownOf(s'.down, false) == Apply(v, e).down
            && UpOf(s'.up, false) == Apply(v, e).up
            && (e.HubTake? ==> v.up[0] == s.up[0]) && (e.AgentTake? ==> v.down[0] == s.down[0])
  {
    if e.HubTake? { UpOfHead(s.up, false); }
    if e.AgentTake? { DownOfHead(s.down, false); }
    TerminalStepMessages(s, e);
    hide DownOf, UpOf;
    TerminalStepMessages(TerminalView(s), e);
    hide Apply;
    var down, up := SentDown(s, e), SentUp(s, e);
    if down.Some? { DownOfAppend(s.down, down.value, false); }
    if up.Some? { UpOfAppend(s.up, up.value, false); }
  }

  /** Outside the channels a step reads and writes only the terminal's own half. */
  ghost predicate SameHalf(s: State, v: State) {
    s.server == v.server && s.agent == v.agent && s.handled == v.handled && s.mark == v.mark
  }

  lemma TabsLocal(s: State, v: State, e: Step)
    requires Enabled(s, e) && Enabled(v, e) && SameHalf(s, v)
    requires e.TabArrive? || e.TabStopOld? || e.TabCommit? || e.TabInput? || e.TabResize? || e.TabLeave? || e.TabClear?
               || e.TabDrop?
    ensures SameHalf(Apply(s, e), Apply(v, e)) && Apply(s, e).relay == s.relay && Apply(v, e).relay == v.relay
  {}

  lemma AgentLocal(s: State, v: State, e: Step)
    requires Enabled(s, e) && Enabled(v, e) && SameHalf(s, v)
    requires e.AgentTake? || e.AgentLaunch? || e.AgentAnnounce? || e.AgentSpawn?
    requires e.AgentTake? ==> s.down[0] == v.down[0]
    ensures SameHalf(Apply(s, e), Apply(v, e)) && Apply(s, e).relay == s.relay && Apply(v, e).relay == v.relay
  {}

  lemma PumpLocal(s: State, v: State, e: Step)
    requires Enabled(s, e) && Enabled(v, e) && SameHalf(s, v)
    requires e.PumpRead? || e.PumpSend? || e.PumpEof? || e.PumpExit?
    ensures SameHalf(Apply(s, e), Apply(v, e)) && Apply(s, e).relay == s.relay && Apply(v, e).relay == v.relay
  {}

  lemma HubLocal(s: State, v: State, e: Step)
    requires Enabled(s, e) && Enabled(v, e) && SameHalf(s, v) && s.relay == v.relay
    requires e.HubTake? || e.HubSent?
    requires e.HubTake? ==> s.up[0] == v.up[0]
    ensures SameHalf(Apply(s, e), Apply(v, e)) && Apply(s, e).relay == Apply(v, e).relay
    ensures !(Apply(s, e).relay.Some? && Apply(s, e).relay.value.FileRelay?)
  {}

  /** A terminal step does in the whole system what it does without file transfer. */
  lemma TerminalStepsCommute(s: State, e: Step)
    requires Enabled(s, e) && !IsFileStep(e)
    ensures Enabled(TerminalView(s), e)
    ensures TerminalView(Apply(s, e)) == Apply(TerminalView(s), e)
  {
    ViewChannels(s, e);
    var v := TerminalView(s);
    TerminalStepMessages(s, e);
    TerminalStepMessages(v, e);
    assert e.HubTake? || e.HubSent? ==> s.relay == v.relay;
    hide DownOf, UpOf, Apply, Enabled;
    if e.HubTake? || e.HubSent? {
      HubLocal(s, v, e);
    } else if e.AgentTake? || e.AgentLaunch? || e.AgentAnnounce? || e.AgentSpawn? {
      AgentLocal(s, v, e);
    } else if e.PumpRead? || e.PumpSend? || e.PumpEof? || e.PumpExit? {
      PumpLocal(s, v, e);
    } else {
      TabsLocal(s, v, e);
    }
  }

  ghost predicate Possible(s: State, run: seq<Step>) {
    run == [] || (Possible(s, run[..|run| - 1]) && Enabled(After(s, run[..|run| - 1]), run[|run| - 1]))
  }

  function TerminalSteps(run: seq<Step>): seq<Step> {
    if run == [] then []
    else TerminalSteps(run[..|run| - 1]) + if IsFileStep(run[|run| - 1]) then [] else [run[|run| - 1]]
  }

  /**
   Non-interference: whatever file transfer does on the same connection, the
   terminal half goes through exactly the run its own steps make alone.
   */
  lemma {:induction false} FileTransferDoesNotInterfere(run: seq<Step>)
    requires Possible(INITIAL, run)
    ensures Possible(INITIAL, TerminalSteps(run))
    ensures TerminalView(After(INITIAL, run)) == After(INITIAL, TerminalSteps(run))
  {
    hide Apply, Enabled, TerminalView;
    if run == [] {
      NothingToHide();
    } else {
      var front, e := run[..|run| - 1], run[|run| - 1];
      FileTransferDoesNotInterfere(front);
      var s := After(INITIAL, front);
      if IsFileStep(e) {
        FileStepsInvisible(s, e);
        assert TerminalSteps(run) == TerminalSteps(front);
      } else {
        TerminalStepsCommute(s, e);
        var steps := TerminalSteps(front);
        assert (steps + [e])[..|steps|] == steps;
      }
    }
  }

  lemma NothingToHide()
    ensures TerminalView(INITIAL) == INITIAL
  {}
}
