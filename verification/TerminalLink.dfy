/**
 The objects behind TerminalRelay: the agent link on the server, whose slots the
 handlers assign (app/terminal_hub.py), and the session manager of the agent
 (agent/internal/terminal/terminal.go). Each method is the piece of a handler
 between two awaits, or of a goroutine between two sends; together they are what
 the state machine says, whatever the order they run in.
 */
module TerminalLink {
  import opened Wrappers
  import opened TerminalRelay

  class Link {
    // AgentLink, and the tabs that use it.
    var sessionId: Option<nat>
    var browser: Option<nat>
    var tabs: map<nat, Tab>
    var sidOf: map<nat, nat>
    var connected: set<nat>
    var received: map<nat, seq<Frame>>
    var nextSid: nat

    // sessionManager, its shells and output pumps.
    var managerSid: Option<nat>
    var pty: Option<nat>
    var reader: Reader
    var shells: seq<Shell>
    var pumps: map<nat, Pump>

    // The connection: what is on its way down, on its way up, and to a browser.
    var down: seq<Down>
    var up: seq<Up>
    var relay: Option<Relay>

    // The file slot of the same link.
    var files: Files

    ghost var handled: map<nat, seq<Chunk>>
    ghost var mark: int

    ghost predicate SlotValid()
      reads this`sessionId, this`browser
    {
      sessionId.Some? == browser.Some?
    }

    ghost predicate ManagerValid()
      reads this`managerSid, this`pty
    {
      managerSid.Some? == pty.Some?
    }

    /** Both fields of a pair are always set and cleared together. */
    ghost predicate Valid()
      reads this`sessionId, this`browser, this`managerSid, this`pty
    {
      SlotValid() && ManagerValid()
    }

    ghost function ServerSide(): Server
      requires SlotValid()
      reads this`sessionId, this`browser, this`tabs, this`sidOf, this`connected, this`received, this`nextSid
    {
      Server(if sessionId.Some? then Some(Session(sessionId.value, browser.value)) else None,
             tabs, sidOf, connected, received, nextSid)
    }

    ghost function AgentSide(): Agent
      requires ManagerValid()
      reads this`managerSid, this`pty, this`reader, this`shells, this`pumps
    {
      Agent(if managerSid.Some? then Some((managerSid.value, pty.value)) else None, reader, shells, pumps)
    }

    ghost function Abs(): State
      requires Valid()
      reads this
    {
      State(ServerSide(), AgentSide(), files, down, up, relay, handled, mark)
    }

    constructor ()
      ensures Valid() && Abs() == INITIAL
    {
      sessionId, browser, tabs, sidOf, connected, received, nextSid := None, None, map[], map[], {}, map[], 0;
      managerSid, pty, reader, shells, pumps := None, None, Idle, [], map[];
      down, up, relay, files := [], [], None, Files(None, map[], map[], 0);
      handled, mark := map[], -1;
    }

    // ---- TerminalHub -------------------------------------------------------------------

    /** start_session takes a new session id and the slot. */
    method NewSession(b: nat) returns (sid: nat)
      requires Valid()
      modifies this`sessionId, this`browser, this`nextSid, this`tabs, this`sidOf, this`received
      ensures Valid() && sid == old(nextSid)
      ensures ServerSide() == Commit(old(Abs()), b).server
    {
      sid := nextSid;
      sessionId, browser, nextSid := Some(sid), Some(b), nextSid + 1;
      tabs, sidOf, received := tabs[b := Live], sidOf[b := sid], received[b := Get(received, b) + [Connecting]];
    }

    /** From there to its last send. */
    method TakeSlot(b: nat)
      requires Valid()
      modifies this`sessionId, this`browser, this`tabs, this`sidOf
      modifies this`connected, this`received, this`nextSid, this`down
      ensures Valid() && Abs() == Commit(old(Abs()), b)
    {
      hide AgentSide;
      var sid := NewSession(b);
      down := down + [Start(sid)];
    }

    /** start_session up to its first await: a session in the way is told of its end. */
    method StartSession(b: nat)
      requires Valid()
      modifies this`sessionId, this`browser, this`tabs, this`sidOf
      modifies this`connected, this`received, this`nextSid, this`down
      ensures Valid() && Abs() == Arrive(old(Abs()), b)
    {
      hide AgentSide;
      connected := connected + {b};
      if sessionId.None? {
        TakeSlot(b);
        return;
      }
      received := received[browser.value := Get(received, browser.value) + [Ended]];
      tabs := tabs[b := Preempting];
    }

    /** The stop of a preemption names whatever session the slot holds by then. */
    method StopPreempted(b: nat)
      requires Valid()
      modifies this`sessionId, this`browser, this`tabs, this`sidOf
      modifies this`connected, this`received, this`nextSid, this`down
      ensures Valid() && Abs() == StopOld(old(Abs()), b)
    {
      hide AgentSide;
      down := down + [Stop(sessionId)];
      tabs := tabs[b := Committing];
    }

    /** handle_browser_message: an input with its data, or a resize. */
    method BrowserMessage(data: Option<Chunk>)
      requires Valid()
      modifies this`sessionId, this`browser, this`tabs, this`sidOf
      modifies this`connected, this`received, this`nextSid, this`down
      ensures Valid() && Abs() == FromTab(old(Abs()), data)
    {
      hide AgentSide;
      if sessionId.None? {
        return;
      }
      down := down + [if data.Some? then Input(sessionId.value, data.value) else Resize(sessionId.value)];
    }

    /** stop_session up to its await. */
    method StopSession(b: nat)
      requires Valid()
      modifies this`sessionId, this`browser, this`tabs, this`sidOf
      modifies this`connected, this`received, this`nextSid, this`down
      ensures Valid() && Abs() == Leave(old(Abs()), b)
    {
      hide AgentSide;
      if sessionId.Some? {
        down := down + [Stop(sessionId)];
      }
      tabs := tabs[b := Leaving];
    }

    method ClearSlot(b: nat)
      requires Valid()
      modifies this`sessionId, this`browser, this`tabs, this`sidOf
      modifies this`connected, this`received, this`nextSid, this`down
      ensures Valid() && Abs() == Clear(old(Abs()), b)
    {
      hide AgentSide;
      sessionId, browser := None, None;
      tabs := tabs[b := Gone];
    }

    method CloseTab(b: nat)
      requires Valid()
      modifies this`sessionId, this`browser, this`tabs, this`sidOf
      modifies this`connected, this`received, this`nextSid, this`down
      ensures Valid() && Abs() == Drop(old(Abs()), b)
    {
      hide AgentSide;
      connected := connected - {b};
    }

    /** handle_agent_message up to its send. */
    method AgentMessage()
      requires Valid() && up != [] && !up[0].FileUp?
      modifies this`sessionId, this`browser, this`received, this`up, this`relay, this`handled
      ensures Valid() && Abs() == Take(old(Abs()))
    {
      hide AgentSide;
      var m := up[0];
      up := up[1..];
      if m.Output? {
        handled := handled[m.sid := Get(handled, m.sid) + [m.data]];
      }
      if sessionId.None? || sessionId.value != m.sid {
        return; // stale
      }
      relay := Some(Relay(browser.value, FrameOf(m), m.Exited? || m.Failed?));
    }

    /** BrowserLink.send, and what handle_agent_message does after it. */
    method AgentMessageSent()
      requires Valid() && relay.Some? && relay.value.Relay?
      modifies this`sessionId, this`browser, this`received, this`up, this`relay, this`handled
      ensures Valid() && Abs() == Sent(old(Abs()))
    {
      hide AgentSide;
      var r := relay.value;
      if r.browser in connected {
        received := received[r.browser := Get(received, r.browser) + [r.frame]];
      }
      if r.clears {
        sessionId, browser := None, None;
      }
      relay := None;
    }

    // ---- sessionManager ------------------------------------------------------------------

    method StopCurrent()
      requires Valid()
      modifies this`managerSid, this`pty
      ensures Valid() && managerSid.None? && pty.None?
    {
      managerSid, pty := None, None;
    }

    method HandleStart(sid: nat)
      requires Valid()
      modifies this`managerSid, this`pty, this`reader, this`mark
      ensures Valid() && AgentSide() == old(AgentSide()).(current := None, reader := Stopped(sid)) && mark == sid
    {
      StopCurrent();
      reader, mark := Stopped(sid), sid;
    }

    method HandleStop(target: Option<nat>)
      requires Valid()
      modifies this`managerSid, this`pty
      ensures Valid()
      ensures AgentSide() == if old(managerSid) == target then old(AgentSide()).(current := None) else old(AgentSide())
    {
      if managerSid == target {
        StopCurrent();
      }
    }

    /** handle: a start stops what runs; a stop is heeded if it names the current session. */
    method HandleMessage()
      requires Valid() && down != [] && !down[0].FileDown?
      modifies this`managerSid, this`pty, this`reader, this`down, this`mark
      ensures Valid() && Abs() == AgentHandle(old(Abs()))
    {
      hide ServerSide;
      var m := down[0];
      down := down[1..];
      if m.Start? {
        HandleStart(m.sid);
      } else if m.Stop? {
        HandleStop(m.target);
      }
    }

    method StartShell(ok: bool)
      requires Valid() && reader.Stopped?
      modifies this`managerSid, this`pty, this`reader, this`shells, this`pumps, this`up
      ensures Valid() && Abs() == Launch(old(Abs()), ok)
    {
      hide ServerSide;
      var sid := reader.sid;
      if !ok {
        up := up + [Failed(sid)];
        reader := Idle;
        return;
      }
      managerSid, pty := Some(sid), Some(|shells|);
      reader := Launched(|shells|);
      shells := shells + [Shell(sid, [])];
    }

    method SendStarted()
      requires Valid() && reader.Launched? && reader.shell < |shells|
      modifies this`managerSid, this`pty, this`reader, this`shells, this`pumps, this`up
      ensures Valid() && Abs() == Announce(old(Abs()))
    {
      hide ServerSide;
      up := up + [Started(shells[reader.shell].sid)];
      reader := Announced(reader.shell);
    }

    method GoPump()
      requires Valid() && reader.Announced?
      modifies this`managerSid, this`pty, this`reader, this`shells, this`pumps, this`up
      ensures Valid() && Abs() == Spawn(old(Abs()))
    {
      hide ServerSide;
      pumps := pumps[reader.shell := Pump(None, false)];
      reader := Idle;
    }

    // ---- pumpOutput --------------------------------------------------------------------------

    method ReadOutput(p: nat, data: Chunk)
      requires Valid() && p in pumps && p < |shells|
      modifies this`managerSid, this`pty, this`reader, this`shells, this`pumps, this`up
      ensures Valid() && Abs() == Read(old(Abs()), p, data)
    {
      hide ServerSide;
      shells := shells[p := Shell(shells[p].sid, shells[p].produced + [data])];
      pumps := pumps[p := Pump(Some(data), false)];
    }

    method SendOutput(p: nat)
      requires Valid() && p in pumps && pumps[p].holding.Some? && p < |shells|
      modifies this`managerSid, this`pty, this`reader, this`shells, this`pumps, this`up
      ensures Valid() && Abs() == SendHeld(old(Abs()), p)
    {
      hide ServerSide;
      up := up + [Output(shells[p].sid, pumps[p].holding.value)];
      pumps := pumps[p := Pump(None, pumps[p].ended)];
    }

    /** The fields are cleared only if no newer session has replaced this one. */
    method EndOutput(p: nat)
      requires Valid() && p in pumps && p < |shells|
      modifies this`managerSid, this`pty, this`reader, this`shells, this`pumps, this`up
      ensures Valid() && Abs() == Eof(old(Abs()), p)
    {
      hide ServerSide;
      if managerSid == Some(shells[p].sid) {
        StopCurrent();
      }
      pumps := pumps[p := Pump(None, true)];
    }

    method SendExited(p: nat)
      requires Valid() && p in pumps && p < |shells|
      modifies this`managerSid, this`pty, this`reader, this`shells, this`pumps, this`up
      ensures Valid() && Abs() == Exit(old(Abs()), p)
    {
      hide ServerSide;
      up := up + [Exited(shells[p].sid)];
      pumps := pumps - {p};
    }

    // ---- The file slot -----------------------------------------------------------------------

    method StartFileSession(b: nat)
      requires Valid()
      modifies this`files, this`down
      ensures Valid() && Abs() == (if old(files).slot.None? then FileCommitted(old(Abs()), b)
                                   else old(Abs()).(files := old(files).(tabs := old(files).tabs[b := Preempting])))
    {
      hide ServerSide, AgentSide;
      if files.slot.None? {
        TakeFileSlot(b);
      } else {
        files := files.(tabs := files.tabs[b := Preempting]);
      }
    }

    method FileMessage(request: int)
      requires Valid()
      modifies this`down
      ensures Valid() && Abs() == if files.slot.None? then old(Abs())
                else old(Abs()).(down := old(down) + [FileDown(request)])
    {
      hide ServerSide, AgentSide;
      if files.slot.Some? {
        down := down + [FileDown(request)];
      }
    }

    /** FileHub's handlers, cut as TerminalHub's are. */
    method FileTabStep(e: Step)
      requires Valid() && IsFileStep(e) && Enabled(Abs(), e) && !IsFileTraffic(e)
      modifies this`files, this`down
      ensures Valid() && Abs() == FileApply(old(Abs()), e)
    {
      hide ServerSide, AgentSide;
      if e.FileArrive? {
        StartFileSession(e.b);
      } else if e.FileStopOld? {
        down, files := down + [FileDown(1)], files.(tabs := files.tabs[e.b := Committing]);
      } else if e.FileCommit? {
        TakeFileSlot(e.b);
      } else if e.FileRequest? {
        FileMessage(e.request);
      } else if e.FileLeave? {
        FileMessage(1);
        files := files.(tabs := files.tabs[e.b := Leaving]);
      } else {
        files := files.(slot := None, tabs := files.tabs[e.b := Gone]);
      }
    }

    method FileAgentMessage()
      requires Valid() && relay.None? && up != [] && up[0].FileUp?
      modifies this`up, this`relay
      ensures Valid() && Abs() == FileApply(old(Abs()), FileHubTake)
    {
      hide ServerSide, AgentSide;
      var m := up[0];
      up := up[1..];
      if files.slot.Some? && files.slot.value.sid == m.sid {
        relay := Some(FileRelay(files.slot.value.browser, m.payload));
      }
    }

    method FileMessageSent()
      requires Valid() && relay.Some? && relay.value.FileRelay?
      modifies this`files, this`relay
      ensures Valid() && Abs() == FileApply(old(Abs()), FileHubSent)
    {
      hide ServerSide, AgentSide;
      var r := relay.value;
      files, relay := files.(received := files.received[r.browser := Get(files.received, r.browser) + [r.payload]]),
          None;
    }

    /** File messages between the agent, the hub and a browser. */
    method FileTraffic(e: Step)
      requires Valid() && IsFileStep(e) && Enabled(Abs(), e) && IsFileTraffic(e)
      modifies this`files, this`down, this`up, this`relay
      ensures Valid() && Abs() == FileApply(old(Abs()), e)
    {
      hide ServerSide, AgentSide;
      if e.FileHubTake? {
        FileAgentMessage();
      } else if e.FileHubSent? {
        FileMessageSent();
      } else if e.FileAgentTake? {
        down := down[1..];
      } else {
        up := up + [FileUp(e.sid, e.payload)];
      }
    }

    method TakeFileSlot(b: nat)
      requires Valid()
      modifies this`files, this`down
      ensures Valid() && Abs() == FileCommitted(old(Abs()), b)
    {
      hide ServerSide, AgentSide;
      var sid := files.nextSid;
      files := files.(slot := Some(Session(sid, b)), tabs := files.tabs[b := Live], nextSid := sid + 1);
      down := down + [FileDown(0)];
    }

    // ---- Any order -----------------------------------------------------------------------------

    method TabStep(e: Step)
      requires Valid() && Enabled(Abs(), e)
                 && (e.TabArrive? || e.TabStopOld? || e.TabCommit? || e.TabInput? || e.TabResize?)
      modifies this
      ensures Valid() && Abs() == Apply(old(Abs()), e)
    {
      hide Arrive, Commit, StopOld, FromTab;
      match e {
        case TabArrive(b) => StartSession(b);
        case TabStopOld(b) => StopPreempted(b);
        case TabCommit(b) => TakeSlot(b);
        case TabInput(b, data) => BrowserMessage(Some(data));
        case TabResize(b) => BrowserMessage(None);
      }
    }

    method TabEndStep(e: Step)
      requires Valid() && Enabled(Abs(), e) && (e.TabLeave? || e.TabClear? || e.TabDrop? || e.HubTake? || e.HubSent?)
      modifies this
      ensures Valid() && Abs() == Apply(old(Abs()), e)
    {
      hide Leave, Clear, Drop, Take, Sent;
      match e {
        case TabLeave(b) => StopSession(b);
        case TabClear(b) => ClearSlot(b);
        case TabDrop(b) => CloseTab(b);
        case HubTake => AgentMessage();
        case HubSent => AgentMessageSent();
      }
    }

    method ManagerStep(e: Step)
      requires Valid() && Enabled(Abs(), e) && (e.AgentTake? || e.AgentLaunch? || e.AgentAnnounce? || e.AgentSpawn?)
      modifies this
      ensures Valid() && Abs() == Apply(old(Abs()), e)
    {
      hide AgentHandle, Launch, Announce, Spawn;
      match e {
        case AgentTake => HandleMessage();
        case AgentLaunch(ok) => StartShell(ok);
        case AgentAnnounce => SendStarted();
        case AgentSpawn => GoPump();
      }
    }

    method PumpStep(e: Step)
      requires Valid() && Enabled(Abs(), e) && (e.PumpRead? || e.PumpSend? || e.PumpEof? || e.PumpExit?)
      modifies this
      ensures Valid() && Abs() == Apply(old(Abs()), e)
    {
      hide Read, SendHeld, Eof, Exit;
      match e {
        case PumpRead(p, data) => ReadOutput(p, data);
        case PumpSend(p) => SendOutput(p);
        case PumpEof(p) => EndOutput(p);
        case PumpExit(p) => SendExited(p);
      }
    }

    method Do(e: Step)
      requires Valid() && Enabled(Abs(), e)
      modifies this
      ensures Valid() && Abs() == Apply(old(Abs()), e)
    {
      if IsFileStep(e) {
        FileStepsApply(Abs(), e);
        hide Enabled, Apply, FileApply, Abs;
        if IsFileTraffic(e) {
          FileTraffic(e);
        } else {
          FileTabStep(e);
        }
      } else {
        hide Enabled, Apply, FileApply, Abs;
        if e.TabArrive? || e.TabStopOld? || e.TabCommit? || e.TabInput? || e.TabResize? {
          TabStep(e);
        } else if e.TabLeave? || e.TabClear? || e.TabDrop? || e.HubTake? || e.HubSent? {
          TabEndStep(e);
        } else if e.AgentTake? || e.AgentLaunch? || e.AgentAnnounce? || e.AgentSpawn? {
          ManagerStep(e);
        } else {
          PumpStep(e);
        }
      }
    }

    /**
     Any interleaving from the start: the objects go through the states of the
     machine, so what a browser has of the output is a prefix of what the shell of
     its own session produced.
     */
    method Interleave(run: seq<Step>)
      requires Valid() && Abs() == INITIAL
      modifies this
      ensures Valid() && Abs() == After(INITIAL, run)
      ensures forall b | b in sidOf :: forall p | 0 <= p < |shells| && shells[p].sid == sidOf[b] ::
                OutputsIn(Get(received, b)) <= shells[p].produced
    {
      hide Apply, Enabled;
      assert run[..0] == [];
      for i := 0 to |run|
        invariant Valid() && Abs() == After(INITIAL, run[..i])
      {
        assert run[..i + 1][..i] == run[..i];
        var enabled := IsEnabled(run[i]);
        if enabled {
          Do(run[i]);
        }
      }
      assert run[..|run|] == run;
      forall b | b in sidOf
        ensures forall p | 0 <= p < |shells| && shells[p].sid == sidOf[b] ::
                  OutputsIn(Get(received, b)) <= shells[p].produced
      {
        BrowserSeesPrefixOfItsShell(run, b);
      }
    }

    method IsEnabled(e: Step) returns (enabled: bool)
      requires Valid()
      ensures enabled == Enabled(Abs(), e)
    {
      var slot := if sessionId.Some? then Some(Session(sessionId.value, browser.value)) else None;
      var current := if managerSid.Some? then Some((managerSid.value, pty.value)) else None;
      enabled := Enabled(State(Server(slot, tabs, sidOf, connected, received, nextSid),
          Agent(current, reader, shells, pumps),
                               files, down, up, relay, map[], -1), e);
    }
  }

  predicate IsFileTraffic(e: Step) {
    e.FileHubTake? || e.FileHubSent? || e.FileAgentTake? || e.FileEmit?
  }

  lemma FileStepsApply(s: State, e: Step)
    requires Enabled(s, e) && IsFileStep(e)
    ensures Apply(s, e) == FileApply(s, e)
  {}
}
