/**
 How sessions of the relay begin and end: which stops reach which shell, how long a
 shell stays the current one, what it is typed, and what the browsers are told.
 All is said of runs of TerminalRelay, whatever interleaving they are.
 */
module TerminalSessions {
  import opened Wrappers
  import opened TerminalRelay

  function CurrentSid(s: State): Option<nat> {
    if s.agent.current.Some? then Some(s.agent.current.value.0) else None
  }

  /** What names a session, other than its start. */
  predicate Names(m: Down, sid: nat) {
    m == Stop(Some(sid)) || (m.Input? && m.sid == sid) || (m.Resize? && m.sid == sid)
  }

  /** Nothing about a session goes down before its start has. */
  ghost predicate InOrder(down: seq<Down>, nextSid: nat) {
    && (forall i, sid: nat | 0 <= i < |down| && Names(down[i], sid) :: sid < nextSid)
    && (forall i, j, sid: nat | 0 <= i < |down| && 0 <= j < |down| && Names(down[i], sid) && down[j] == Start(sid) ::
       j < i)
  }

  /** The session has no shell to itself and will have none. */
  ghost predicate Over(s: State, sid: nat) {
    && sid < s.server.nextSid && CurrentSid(s) != Some(sid)
    && s.agent.reader != Stopped(sid) && Start(sid) !in s.down
  }

  /** The shell the agent's fields name is of the session they name; between a stop and a launch there is none. */
  ghost predicate FieldsAgree(s: State) {
    && (s.agent.reader.Stopped? ==> s.agent.current.None? && s.agent.reader.sid < s.server.nextSid)
    && (s.agent.current.Some? ==>
          s.agent.current.value.1 < |s.agent.shells|
          && s.agent.shells[s.agent.current.value.1].sid == s.agent.current.value.0 < s.server.nextSid)
  }

  /** The slot is held by a tab that is open or just leaving, under a session that has been started. */
  ghost predicate SlotHeld(v: Server) {
    v.slot.Some? ==>
      && v.slot.value.sid < v.nextSid && v.slot.value.browser in v.tabs
      && v.tabs[v.slot.value.browser] in {Live, Leaving}
  }

  /** Every session that was opened has its start on the way, or the agent has had it. */
  ghost predicate StartsSent(s: State) {
    forall sid: nat | sid < s.server.nextSid && sid > s.mark :: Start(sid) in s.down
  }

  ghost predicate Wired(s: State) {
    && InOrder(s.down, s.server.nextSid) && FieldsAgree(s) && SlotHeld(s.server) && StartsSent(s)
    && StartsInv(s.down, s.mark, s.server.nextSid)
  }

  // ---- One step ------------------------------------------------------------------------------------

  lemma OrderMore(down: seq<Down>, m: Down, nextSid: nat)
    requires InOrder(down, nextSid) && (forall sid: nat | Names(m, sid) :: sid < nextSid) && !m.Start?
    ensures InOrder(down + [m], nextSid)
  {}

  lemma OrderStart(down: seq<Down>, nextSid: nat)
    requires InOrder(down, nextSid)
    ensures InOrder(down + [Start(nextSid)], nextSid + 1)
  {}

  lemma OrderTail(down: seq<Down>, nextSid: nat)
    requires down != [] && InOrder(down, nextSid)
    ensures InOrder(down[1..], nextSid)
    ensures forall sid: nat | Names(down[0], sid) :: sid < nextSid && Start(sid) !in down
  {
    assert forall i | 0 <= i < |down| - 1 :: down[1..][i] == down[i + 1];
  }

  lemma TabsStayWired(s: State, e: Step)
    requires Wired(s) && Enabled(s, e)
    requires e.TabArrive? || e.TabStopOld? || e.TabCommit? || e.TabInput? || e.TabResize? || e.TabLeave? || e.TabClear?
             || e.TabDrop?
    requires var s' := Apply(s, e); StartsInv(s'.down, s'.mark, s'.server.nextSid)
    ensures Wired(Apply(s, e))
  {
    hide InOrder, StartsInv;
    var slot, next := s.server.slot, s.server.nextSid;
    OrderStart(s.down, next);
    OrderMore(s.down, Stop(if slot.Some? then Some(slot.value.sid) else None), next);
    OrderMore(s.down, Stop(None), next);
    if slot.Some? {
      OrderMore(s.down, Resize(slot.value.sid), next);
      if e.TabInput? {
        OrderMore(s.down, Input(slot.value.sid, e.data), next);
      }
    }
  }

  lemma TakeStaysWired(s: State)
    requires Wired(s) && Enabled(s, AgentTake)
    requires var s' := AgentHandle(s); StartsInv(s'.down, s'.mark, s'.server.nextSid)
    ensures Wired(AgentHandle(s))
  {
    hide InOrder;
    OrderTail(s.down, s.server.nextSid);
    assert s.down == [s.down[0]] + s.down[1..];
  }

  lemma AgentStaysWired(s: State, e: Step)
    requires Wired(s) && Enabled(s, e)
    requires e.AgentLaunch? || e.AgentAnnounce? || e.AgentSpawn? || e.PumpRead? || e.PumpSend? || e.PumpEof?
               || e.PumpExit?
    ensures Wired(Apply(s, e))
  {
    hide InOrder, StartsInv;
  }

  lemma HubStaysWired(s: State, e: Step)
    requires Wired(s) && Enabled(s, e) && (e.HubTake? || e.HubSent?)
    requires var s' := Apply(s, e); StartsInv(s'.down, s'.mark, s'.server.nextSid)
    ensures Wired(Apply(s, e))
  {
    hide InOrder;
  }

  lemma FilesStayWired(s: State, e: Step)
    requires Wired(s) && Enabled(s, e) && IsFileStep(e)
    requires var s' := Apply(s, e); StartsInv(s'.down, s'.mark, s'.server.nextSid)
    ensures Wired(Apply(s, e))
  {
    hide InOrder, StartsInv;
    FileStepMessages(s, e);
    var down := FileSentDown(s, e);
    hide Apply, FileSentDown, FileSentUp;
    if e.FileAgentTake? {
      OrderTail(s.down, s.server.nextSid);
      assert s.down == [s.down[0]] + s.down[1..];
    } else if down.Some? {
      OrderMore(s.down, down.value, s.server.nextSid);
    }
  }

  lemma TakeIs(s: State)
    requires Enabled(s, AgentTake)
    ensures Apply(s, AgentTake) == AgentHandle(s)
  {}

  lemma WiredStep(s: State, e: Step)
    requires Wired(s) && Inv(s) && Enabled(s, e)
    ensures Wired(Apply(s, e))
  {
    StepKeeps(s, e);
    InvMeansStarts(Apply(s, e));
    hide Wired, Apply, Enabled, Inv;
    if IsFileStep(e) {
      FilesStayWired(s, e);
    } else if e.HubTake? || e.HubSent? {
      HubStaysWired(s, e);
    } else if e.TabArrive? || e.TabStopOld? || e.TabCommit? || e.TabInput? || e.TabResize? || e.TabLeave? || e.TabClear?
              || e.TabDrop? {
      TabsStayWired(s, e);
    } else if e.AgentTake? {
      TakeIs(s);
      TakeStaysWired(s);
    } else {
      AgentStaysWired(s, e);
    }
  }

  lemma InvMeansStarts(s: State)
    ensures Inv(s) ==> StartsInv(s.down, s.mark, s.server.nextSid)
  {}

  lemma AfterMore(s: State, run: seq<Step>, e: Step)
    ensures After(s, run + [e]) == if Enabled(After(s, run), e) then Apply(After(s, run), e) else After(s, run)
  {
    assert (run + [e])[..|run|] == run;
  }

  lemma {:induction false} AlwaysWired(run: seq<Step>)
    ensures Wired(After(INITIAL, run))
  {
    if run != [] {
      hide Wired, Apply, Enabled, Inv;
      AlwaysWired(run[..|run| - 1]);
      InvAlways(run[..|run| - 1]);
      var before := After(INITIAL, run[..|run| - 1]);
      if Enabled(before, run[|run| - 1]) {
        WiredStep(before, run[|run| - 1]);
      }
    }
  }

  // ---- How long a shell is the current one --------------------------------------------------------

  /**
   The current session stays so until a stop names it, a start comes, or its own
   output ends; and each of these ends it. A stop that names another changes nothing.
   */
  lemma CurrentUntilStopped(s: State, e: Step, sid: nat)
    requires Wired(s) && Enabled(s, e) && CurrentSid(s) == Some(sid)
    ensures CurrentSid(Apply(s, e)) != Some(sid) <==>
              || (e.AgentTake? && (s.down[0] == Stop(Some(sid)) || s.down[0].Start?))
              || (e.PumpEof? && s.agent.shells[e.p].sid == sid)
    ensures e.AgentTake? && s.down[0].Stop? && s.down[0] != Stop(Some(sid)) ==> Apply(s, e).agent == s.agent
  {
    if IsFileStep(e) {
      FileStepMessages(s, e);
      hide Apply;
    }
  }

  /** A launch that succeeds makes its session the current one, and nothing else does. */
  lemma CurrentFromLaunch(s: State, e: Step, sid: nat)
    requires Wired(s) && Enabled(s, e) && CurrentSid(s) != Some(sid)
    ensures CurrentSid(Apply(s, e)) == Some(sid) <==> e.AgentLaunch? && e.ok && s.agent.reader == Stopped(sid)
  {
    if IsFileStep(e) {
      FileStepMessages(s, e);
      hide Apply;
    }
  }

  /** A session that is over stays over. */
  lemma OverStep(s: State, e: Step, sid: nat)
    requires Wired(s) && Enabled(s, e) && Over(s, sid)
    ensures Over(Apply(s, e), sid)
  {
    CurrentFromLaunch(s, e, sid);
    if IsFileStep(e) {
      FileStepMessages(s, e);
      hide Apply, FileSentDown, FileSentUp;
    } else {
      TerminalStepMessages(s, e);
    }
    hide InOrder;
  }

  /** Taking a stop ends its session for good. */
  lemma StopTakenEnds(s: State, sid: nat)
    requires Wired(s) && Enabled(s, AgentTake) && s.down[0] == Stop(Some(sid))
    ensures Over(Apply(s, AgentTake), sid)
  {
    OrderTail(s.down, s.server.nextSid);
    assert Names(s.down[0], sid);
    hide InOrder, StartsInv;
    assert s.down == [s.down[0]] + s.down[1..];
  }

  lemma {:induction false} OverForGood(run: seq<Step>, k: nat, n: nat, sid: nat)
    requires k <= n <= |run| && Over(After(INITIAL, run[..k]), sid)
    ensures Over(After(INITIAL, run[..n]), sid)
  {
    hide Over, Apply, Enabled;
    if k < n {
      OverForGood(run, k, n - 1, sid);
      assert run[..n] == run[..n - 1] + [run[n - 1]];
      AfterMore(INITIAL, run[..n - 1], run[n - 1]);
      AlwaysWired(run[..n - 1]);
      if Enabled(After(INITIAL, run[..n - 1]), run[n - 1]) {
        OverStep(After(INITIAL, run[..n - 1]), run[n - 1], sid);
      }
    }
  }

  /**
   Main result on stops: once the agent has taken the stop of a session, that session
   is never current again, in any continuation of any run.
   */
  lemma StoppedForGood(run: seq<Step>, k: nat, n: nat, sid: nat)
    requires k < n <= |run| && run[k] == AgentTake
    requires var s := After(INITIAL, run[..k]); Enabled(s, AgentTake) && s.down[0] == Stop(Some(sid))
    ensures CurrentSid(After(INITIAL, run[..n])) != Some(sid)
  {
    AlwaysWired(run[..k]);
    StopTakenEnds(After(INITIAL, run[..k]), sid);
    assert run[..k + 1] == run[..k] + [run[k]];
    AfterMore(INITIAL, run[..k], run[k]);
    hide Apply, Enabled, After;
    OverForGood(run, k + 1, n, sid);
  }

  // ---- Every stop that is sent arrives ---------------------------------------------------------------

  /** The sessions the server has told the agent to stop: of a tab that preempts, or of one that leaves. */
  function ToldToStop(run: seq<Step>): set<nat> {
    if run == [] then {}
    else
      var front, e := run[..|run| - 1], run[|run| - 1];
      var s := After(INITIAL, front);
      if Enabled(s, e) && (e.TabStopOld? || e.TabLeave?) && s.server.slot.Some?
      then ToldToStop(front) + {s.server.slot.value.sid} else ToldToStop(front)
  }

  /** A session told to stop has its stop on the way, or is over. */
  ghost predicate Stopping(s: State, sid: nat) {
    Over(s, sid) || Stop(Some(sid)) in s.down
  }

  /** A message down stays there until it is taken. */
  lemma StaysQueued(s: State, e: Step, m: Down)
    requires Enabled(s, e) && m in s.down && !((e.AgentTake? || e.FileAgentTake?) && s.down[0] == m)
    ensures m in Apply(s, e).down
  {
    if IsFileStep(e) {
      FileStepMessages(s, e);
    } else {
      TerminalStepMessages(s, e);
    }
    hide Apply, FileSentDown, FileSentUp, SentDown, SentUp, Enabled;
    assert s.down == [s.down[0]] + s.down[1..];
  }

  lemma StoppingStep(s: State, e: Step, sid: nat)
    requires Wired(s) && Enabled(s, e) && Stopping(s, sid)
    ensures Stopping(Apply(s, e), sid)
  {
    hide Wired, Apply;
    if Over(s, sid) {
      OverStep(s, e, sid);
    } else if e.AgentTake? && s.down[0] == Stop(Some(sid)) {
      StopTakenEnds(s, sid);
    } else {
      StaysQueued(s, e, Stop(Some(sid)));
    }
  }

  lemma StopIsSent(s: State, e: Step)
    requires Enabled(s, e) && (e.TabStopOld? || e.TabLeave?) && s.server.slot.Some?
    ensures Stop(Some(s.server.slot.value.sid)) in Apply(s, e).down
  {}

  lemma {:induction false} StopsArrive(run: seq<Step>, sid: nat)
    requires sid in ToldToStop(run)
    ensures Stopping(After(INITIAL, run), sid)
  {
    hide Stopping, Apply, Enabled;
    var front, e := run[..|run| - 1], run[|run| - 1];
    var s := After(INITIAL, front);
    AlwaysWired(front);
    if sid in ToldToStop(front) {
      StopsArrive(front, sid);
      if Enabled(s, e) {
        StoppingStep(s, e, sid);
      }
    } else {
      StopIsSent(s, e);
      SentIsStopping(After(INITIAL, run), sid);
    }
  }

  lemma SentIsStopping(s: State, sid: nat)
    ensures Stop(Some(sid)) in s.down ==> Stopping(s, sid)
  {}

  /**
   No shell outlives its tab: once the messages down have been taken, a session that
   was told to stop has no current shell, and gets none in any continuation.
   */
  lemma NoShellOutlivesItsTab(run: seq<Step>, n: nat, m: nat, sid: nat)
    requires n <= m <= |run| && sid in ToldToStop(run[..n]) && Stop(Some(sid)) !in After(INITIAL, run[..n]).down
    ensures CurrentSid(After(INITIAL, run[..m])) != Some(sid)
  {
    StopsArrive(run[..n], sid);
    OverForGood(run, n, m, sid);
    hide After, ToldToStop;
  }

  /** In particular that of a tab that leaves while it holds the slot. */
  lemma LeavingStopsTheShell(run: seq<Step>, k: nat, n: nat, b: nat)
    requires k < n <= |run| && run[k] == TabLeave(b)
    requires var s := After(INITIAL, run[..k]);
             Enabled(s, TabLeave(b)) && s.server.slot.Some? && s.server.slot.value.browser == b
    requires After(INITIAL, run[..n]).down == []
    ensures CurrentSid(After(INITIAL, run[..n])) != Some(After(INITIAL, run[..k]).server.slot.value.sid)
  {
    var sid := After(INITIAL, run[..k]).server.slot.value.sid;
    assert run[..k + 1][..k] == run[..k];
    assert sid in ToldToStop(run[..k + 1]);
    hide After, Apply, Enabled;
    StillTold(run, k + 1, n, sid);
    NoShellOutlivesItsTab(run, n, n, sid);
  }

  lemma {:induction false} StillTold(run: seq<Step>, k: nat, n: nat, sid: nat)
    requires k <= n <= |run| && sid in ToldToStop(run[..k])
    ensures sid in ToldToStop(run[..n])
  {
    if k < n {
      StillTold(run, k, n - 1, sid);
      assert run[..n][..n - 1] == run[..n - 1];
    }
  }

  // ---- What a shell is typed ---------------------------------------------------------------------------

  /** Input of one session on its way down. */
  function InputsFor(down: seq<Down>, sid: nat): seq<Chunk> {
    if down == [] then []
    else
      var m := down[|down| - 1];
      InputsFor(down[..|down| - 1], sid) + if m.Input? && m.sid == sid then [m.data] else []
  }

  lemma InputsForAppend(down: seq<Down>, m: Down, sid: nat)
    ensures InputsFor(down + [m], sid) == InputsFor(down, sid) + if m.Input? && m.sid == sid then [m.data] else []
  {
    assert (down + [m])[..|down|] == down;
  }

  lemma {:induction false} InputsForHead(down: seq<Down>, sid: nat)
    requires down != []
    ensures InputsFor(down, sid)
         == (if down[0].Input? && down[0].sid == sid then [down[0].data] else []) + InputsFor(down[1..], sid)
  {
    if |down| == 1 {
      InputsForAppend([], down[0], sid);
      assert [] + down == down && down == [down[0]];
    } else {
      var last := |down| - 1;
      InputsForHead(down[..last], sid);
      assert down[..last][1..] + [down[last]] == down[1..];
      InputsForAppend(down[..last][1..], down[last], sid);
    }
  }

  /** What a tab types, for the session that holds the slot at that moment. */
  function TypedFor(s: State, e: Step, sid: nat): seq<Chunk> {
    if Enabled(s, e) && e.TabInput? && s.server.slot.Some? && s.server.slot.value.sid == sid then [e.data] else []
  }

  /** The input the agent takes off the connection for a session. */
  function TakenFor(s: State, e: Step, sid: nat): seq<Chunk> {
    if Enabled(s, e) && e.AgentTake? && s.down[0].Input? && s.down[0].sid == sid then [s.down[0].data] else []
  }

  /** What it writes to a PTY: input of the current session only. */
  function WrittenTo(s: State, e: Step, p: nat): seq<Chunk> {
    if Enabled(s, e) && e.AgentTake? && s.down[0].Input? && s.agent.current == Some((s.down[0].sid, p))
    then [s.down[0].data] else []
  }

  function AllTypedFor(run: seq<Step>, sid: nat): seq<Chunk> {
    if run == [] then []
    else AllTypedFor(run[..|run| - 1], sid) + TypedFor(After(INITIAL, run[..|run| - 1]), run[|run| - 1], sid)
  }

  function AllTakenFor(run: seq<Step>, sid: nat): seq<Chunk> {
    if run == [] then []
    else AllTakenFor(run[..|run| - 1], sid) + TakenFor(After(INITIAL, run[..|run| - 1]), run[|run| - 1], sid)
  }

  function AllWrittenTo(run: seq<Step>, p: nat): seq<Chunk> {
    if run == [] then []
    else AllWrittenTo(run[..|run| - 1], p) + WrittenTo(After(INITIAL, run[..|run| - 1]), run[|run| - 1], p)
  }

  /**
   The shell has been written the first of what was typed for its session, and all that arrived
   while it is current.
   */
  ghost predicate Fed(s: State, sid: nat, p: nat, typed: seq<Chunk>, taken: seq<Chunk>, written: seq<Chunk>) {
    && typed == taken + InputsFor(s.down, sid)
    && (s.agent.reader == Stopped(sid) || Start(sid) in s.down || sid >= s.server.nextSid ==> taken == [])
    && (p >= |s.agent.shells| ==> written == [])
    && (p < |s.agent.shells| && s.agent.shells[p].sid == sid ==> written <= taken)
    && (s.agent.current == Some((sid, p)) ==> written == taken)
  }

  lemma TypedFollows(s: State, e: Step, sid: nat)
    requires Enabled(s, e)
    ensures InputsFor(s.down, sid) + TypedFor(s, e, sid) == TakenFor(s, e, sid) + InputsFor(Apply(s, e).down, sid)
  {
    hide Apply, FileSentUp, SentUp, InputsFor;
    if IsFileStep(e) {
      FileStepMessages(s, e);
    } else {
      TerminalStepMessages(s, e);
    }
    assert IsFileStep(e) ==> !e.TabInput? && !e.AgentTake?;
    var down := if IsFileStep(e) then FileSentDown(s, e) else SentDown(s, e);
    if e.AgentTake? || e.FileAgentTake? {
      InputsForHead(s.down, sid);
    } else if down.Some? {
      InputsForAppend(s.down, down.value, sid);
    }
  }

  lemma FedStep(s: State, e: Step, sid: nat, p: nat, typed: seq<Chunk>, taken: seq<Chunk>, written: seq<Chunk>)
    requires Wired(s) && Enabled(s, e) && Fed(s, sid, p, typed, taken, written)
    ensures Fed(Apply(s, e), sid, p, typed + TypedFor(s, e, sid), taken + TakenFor(s, e, sid), written
              + WrittenTo(s, e, p))
  {
    hide InputsFor, Wired, Apply, Enabled, TypedFor, TakenFor, WrittenTo, HasShell;
    TypedFollows(s, e, sid);
    NothingTakenEarly(s, e, sid);
    ShellsFollow(s, e, sid, p);
    var s', t, w := Apply(s, e), TakenFor(s, e, sid), WrittenTo(s, e, p);
    Regroup(typed, taken, InputsFor(s.down, sid), TypedFor(s, e, sid), t, InputsFor(s'.down, sid));
    assert p < |s'.agent.shells| && s'.agent.shells[p].sid == sid ==> written + w <= taken + t by {
      PrefixGrows(written, taken, w, t);
    }
  }

  lemma Regroup(typed: seq<Chunk>, taken: seq<Chunk>, queued: seq<Chunk>, more: seq<Chunk>, t: seq<Chunk>,
                queued': seq<Chunk>)
    requires typed == taken + queued && queued + more == t + queued'
    ensures typed + more == (taken + t) + queued'
  {
    assert typed + more == taken + (queued + more);
  }

  lemma PrefixGrows(written: seq<Chunk>, taken: seq<Chunk>, w: seq<Chunk>, t: seq<Chunk>)
    ensures written <= taken && w == [] ==> written + w <= taken + t
    ensures written == taken && w == t ==> written + w == taken + t
  {}

  /** Before a session is launched none of its input is taken. */
  lemma NothingTakenEarly(s: State, e: Step, sid: nat)
    requires Wired(s) && Enabled(s, e)
    ensures var s' := Apply(s, e);
            s'.agent.reader == Stopped(sid) || Start(sid) in s'.down || sid >= s'.server.nextSid ==>
              && TakenFor(s, e, sid) == []
              && (s.agent.reader == Stopped(sid) || Start(sid) in s.down || sid >= s.server.nextSid)
  {
    if IsFileStep(e) {
      FileStepMessages(s, e);
      hide Apply, FileSentDown, FileSentUp;
    } else {
      TerminalStepMessages(s, e);
    }
    if e.AgentTake? {
      OrderTail(s.down, s.server.nextSid);
      assert Names(Input(sid, []), sid) && (s.down[0].Input? ==> Names(s.down[0], s.down[0].sid));
    }
    hide InOrder, StartsInv;
  }

  /** What a step does to the shells and to the current one, as far as input is concerned. */
  lemma ShellsFollow(s: State, e: Step, sid: nat, p: nat)
    requires Wired(s) && Enabled(s, e)
    ensures var s' := Apply(s, e);
            && |s.agent.shells| <= |s'.agent.shells|
            && (p < |s.agent.shells| ==> s'.agent.shells[p].sid == s.agent.shells[p].sid)
            && (s'.agent.current == Some((sid, p)) ==>
                  s.agent.current == Some((sid, p)) || (s.agent.reader == Stopped(sid) && p == |s.agent.shells|))
            && (|s.agent.shells| <= p < |s'.agent.shells| && s'.agent.shells[p].sid == sid ==>
                  s.agent.reader == Stopped(sid) && p == |s.agent.shells|)
            && (WrittenTo(s, e, p) != [] ==>
                  && p < |s.agent.shells| && s.agent.current == Some((s.agent.shells[p].sid, p))
                  && WrittenTo(s, e, p) == TakenFor(s, e, s.agent.shells[p].sid))
            && (s.agent.current == Some((sid, p)) && s'.agent.current == Some((sid, p)) ==>
                  WrittenTo(s, e, p) == TakenFor(s, e, sid))
            && (s.agent.reader.Stopped? ==> TakenFor(s, e, sid) == [] && WrittenTo(s, e, p) == [])
  {
    if IsFileStep(e) {
      FileStepMessages(s, e);
      hide Apply, FileSentDown, FileSentUp;
    }
    hide InOrder, StartsInv;
  }

  lemma FedAtFirst(sid: nat, p: nat)
    ensures Fed(INITIAL, sid, p, [], [], [])
  {}

  lemma NothingHappens(s: State, e: Step, sid: nat, p: nat)
    requires !Enabled(s, e)
    ensures TypedFor(s, e, sid) == [] && TakenFor(s, e, sid) == [] && WrittenTo(s, e, p) == []
  {}

  lemma {:induction false} AlwaysFed(run: seq<Step>, sid: nat, p: nat)
    ensures Fed(After(INITIAL, run), sid, p, AllTypedFor(run, sid), AllTakenFor(run, sid), AllWrittenTo(run, p))
  {
    hide Fed, Wired, Apply, Enabled, TypedFor, TakenFor, WrittenTo;
    if run == [] {
      FedAtFirst(sid, p);
    } else {
      var front, e := run[..|run| - 1], run[|run| - 1];
      var s := After(INITIAL, front);
      AlwaysFed(front, sid, p);
      AlwaysWired(front);
      if Enabled(s, e) {
        FedStep(s, e, sid, p, AllTypedFor(front, sid), AllTakenFor(front, sid), AllWrittenTo(front, p));
      } else {
        NothingHappens(s, e, sid, p);
        assert AllTypedFor(front, sid) + [] == AllTypedFor(front, sid);
        assert AllTakenFor(front, sid) + [] == AllTakenFor(front, sid);
        assert AllWrittenTo(front, p) + [] == AllWrittenTo(front, p);
      }
    }
  }

  /**
   Main result on input: in every interleaving what is written to a PTY is a prefix,
   in order, of what was typed while its session held the slot; all of it that the
   agent has taken, as long as the shell is current.
   */
  lemma ShellGetsPrefixOfTyping(run: seq<Step>, p: nat)
    requires p < |After(INITIAL, run).agent.shells|
    ensures var s := After(INITIAL, run);
            var sid := s.agent.shells[p].sid;
            && AllWrittenTo(run, p) <= AllTypedFor(run, sid)
            && (s.agent.current == Some((sid, p)) && s.down == [] ==> AllWrittenTo(run, p) == AllTypedFor(run, sid))
  {
    var s := After(INITIAL, run);
    AlwaysFed(run, s.agent.shells[p].sid, p);
    hide After, AllWrittenTo, AllTypedFor, AllTakenFor;
  }

  // ---- What the browsers are told -----------------------------------------------------------------------

  /** The session has no shell and will not get one. */
  ghost predicate NoShellEver(s: State, sid: nat) {
    && !HasShell(s.agent, sid) && sid < s.server.nextSid
    && s.agent.reader != Stopped(sid) && Start(sid) !in s.down
  }

  /** A status is true of the session it is about. */
  ghost predicate IsTrue(s: State, f: Frame, sid: nat) {
    (f == Active ==> HasShell(s.agent, sid)) && (f == Broken ==> NoShellEver(s, sid))
  }

  ghost predicate Truthful(s: State) {
    && (forall b, f | b in s.server.received && f in s.server.received[b] && f in {Active, Broken} ::
          b in s.server.sidOf && IsTrue(s, f, s.server.sidOf[b]))
    && (forall m | m in s.up && !m.FileUp? :: IsTrue(s, FrameOf(m), m.sid))
    && (s.relay.Some? && s.relay.value.Relay? ==>
          var r := s.relay.value;
          r.browser in s.server.sidOf && IsTrue(s, r.frame, s.server.sidOf[r.browser])
          && (r.clears <==> r.frame in {Ended, Broken}))
  }

  /** Shells come from launches of their session, and stay. */
  lemma ShellsFromLaunches(s: State, e: Step, sid: nat)
    requires Wired(s) && Enabled(s, e)
    ensures HasShell(s.agent, sid) ==> HasShell(Apply(s, e).agent, sid)
    ensures HasShell(Apply(s, e).agent, sid) <==>
              HasShell(s.agent, sid) || (e.AgentLaunch? && e.ok && s.agent.reader == Stopped(sid))
  {
    if IsFileStep(e) {
      FileStepMessages(s, e);
      hide Apply, FileSentDown, FileSentUp;
    }
    hide InOrder, StartsInv;
    var shells, shells' := s.agent.shells, Apply(s, e).agent.shells;
    assert |shells| <= |shells'| && forall p | 0 <= p < |shells| :: shells'[p].sid == shells[p].sid;
    assert e.AgentLaunch? && e.ok ==> shells'[|shells|].sid == s.agent.reader.sid;
  }

  lemma NoShellEverStep(s: State, e: Step, sid: nat)
    requires Wired(s) && Enabled(s, e) && NoShellEver(s, sid)
    ensures NoShellEver(Apply(s, e), sid)
  {
    ShellsFromLaunches(s, e, sid);
    ReaderAndQueue(s, e, sid);
    hide Wired, Apply, HasShell;
  }

  /** A session whose start has been dealt with is not started again. */
  lemma ReaderAndQueue(s: State, e: Step, sid: nat)
    requires Wired(s) && Enabled(s, e)
    requires sid < s.server.nextSid && s.agent.reader != Stopped(sid) && Start(sid) !in s.down
    ensures var s' := Apply(s, e); sid < s'.server.nextSid && s'.agent.reader != Stopped(sid) && Start(sid) !in s'.down
  {
    if IsFileStep(e) {
      FileStepMessages(s, e);
      hide Apply, FileSentDown, FileSentUp;
    } else {
      TerminalStepMessages(s, e);
    }
    hide InOrder, StartsInv;
  }

  lemma StaysTrue(s: State, e: Step, f: Frame, sid: nat)
    requires Wired(s) && Enabled(s, e) && IsTrue(s, f, sid)
    ensures IsTrue(Apply(s, e), f, sid)
  {
    hide Wired, Apply, HasShell, NoShellEver;
    ShellsFromLaunches(s, e, sid);
    if f == Broken {
      NoShellEverStep(s, e, sid);
    }
  }

  /** What goes up is true when it is sent. */
  lemma SentIsTrue(s: State, e: Step)
    requires Wired(s) && ShellsInv(s.agent, s.mark) && Enabled(s, e) && !IsFileStep(e) && SentUp(s, e).Some?
    ensures var m := SentUp(s, e).value; !m.FileUp? && IsTrue(Apply(s, e), FrameOf(m), m.sid)
  {
    hide InOrder;
    match e
    case AgentLaunch(_) =>
      var sid := s.agent.reader.sid;
      assert forall p | 0 <= p < |s.agent.shells| :: s.agent.shells[p].sid < sid;
      assert Start(sid) !in s.down;
    case AgentAnnounce =>
      assert s.agent.shells[s.agent.reader.shell].sid == SentUp(s, e).value.sid;
    case _ =>
  }

  /** What a step adds to what the browsers have been told. */
  lemma TellsOnly(s: State, e: Step, b: nat, f: Frame)
    requires SessionsInv(s.server) && Enabled(s, e) && f in {Active, Broken}
    requires f in Get(Apply(s, e).server.received, b)
    ensures f in Get(s.server.received, b)
            || (e.HubSent? && s.relay.value.browser == b && s.relay.value.frame == f)
    ensures b in s.server.sidOf ==> b in Apply(s, e).server.sidOf && Apply(s, e).server.sidOf[b] == s.server.sidOf[b]
  {
    if IsFileStep(e) {
      FileStepMessages(s, e);
    } else {
      if b in s.server.sidOf {
        SessionsKept(s, e, b);
      }
      FramesAdded(s, e, b);
    }
    hide Apply, FileSentDown, FileSentUp, SessionsInv;
  }

  lemma SessionsKept(s: State, e: Step, b: nat)
    requires SessionsInv(s.server) && Enabled(s, e) && !IsFileStep(e) && b in s.server.sidOf
    ensures b in Apply(s, e).server.sidOf && Apply(s, e).server.sidOf[b] == s.server.sidOf[b]
  {}

  lemma FramesAdded(s: State, e: Step, b: nat)
    requires Enabled(s, e) && !IsFileStep(e)
    ensures var was, now := Get(s.server.received, b), Get(Apply(s, e).server.received, b);
            || now == was || now == was + [Ended] || now == was + [Connecting]
            || (e.HubSent? && s.relay.value.browser == b && now == was + [s.relay.value.frame])
  {}

  lemma UpStaysTrue(s: State, e: Step, m: Up)
    requires Wired(s) && Inv(s) && Truthful(s) && Enabled(s, e) && m in Apply(s, e).up && !m.FileUp?
    ensures IsTrue(Apply(s, e), FrameOf(m), m.sid)
  {
    InvMeansShells(s);
    hide Inv, Wired, HasShell, NoShellEver, ShellsInv, IsTrue;
    if m in s.up {
      StaysTrue(s, e, FrameOf(m), m.sid);
    } else if IsFileStep(e) {
      FileStepMessages(s, e);
      hide Apply, FileSentDown;
    } else {
      TerminalStepMessages(s, e);
      hide Apply, SentDown;
      assert SentUp(s, e) == Some(m);
      SentIsTrue(s, e);
    }
  }

  lemma InvMeansShells(s: State)
    ensures Inv(s) ==> ShellsInv(s.agent, s.mark) && SessionsInv(s.server)
  {}

  lemma ReceivedStaysTrue(s: State, e: Step, b: nat, f: Frame)
    requires Wired(s) && Inv(s) && Truthful(s) && Enabled(s, e) && f in {Active, Broken}
    requires b in Apply(s, e).server.received && f in Apply(s, e).server.received[b]
    ensures b in Apply(s, e).server.sidOf && IsTrue(Apply(s, e), f, Apply(s, e).server.sidOf[b])
  {
    InvMeansShells(s);
    TellsOnly(s, e, b, f);
    hide Inv, Wired, HasShell, NoShellEver, ShellsInv, SessionsInv, IsTrue, Apply;
    if f in Get(s.server.received, b) {
      StaysTrue(s, e, f, s.server.sidOf[b]);
    } else {
      StaysTrue(s, e, f, s.server.sidOf[b]);
    }
  }

  /** What the hub relays next. */
  lemma RelayIs(s: State, e: Step)
    requires SessionsInv(s.server) && Enabled(s, e) && Apply(s, e).relay.Some? && Apply(s, e).relay.value.Relay?
    ensures var r := Apply(s, e).relay.value;
            || s.relay == Some(r)
            || (&& e.HubTake? && s.up != [] && !s.up[0].FileUp? && s.server.slot.Some?
                && r.browser == s.server.slot.value.browser && r.browser in s.server.sidOf
                && s.server.sidOf[r.browser] == s.up[0].sid && r.frame == FrameOf(s.up[0])
                && (r.clears <==> r.frame in {Ended, Broken}))
    ensures forall b | b in s.server.sidOf ::
              b in Apply(s, e).server.sidOf && Apply(s, e).server.sidOf[b] == s.server.sidOf[b]
  {
    if IsFileStep(e) {
      FileStepMessages(s, e);
      hide Apply, FileSentDown, FileSentUp;
    }
  }

  lemma RelayStaysTrue(s: State, e: Step)
    requires Wired(s) && Inv(s) && Truthful(s) && Enabled(s, e)
    requires Apply(s, e).relay.Some? && Apply(s, e).relay.value.Relay?
    ensures var s' := Apply(s, e);
            var r := s'.relay.value;
            && r.browser in s'.server.sidOf && IsTrue(s', r.frame, s'.server.sidOf[r.browser])
            && (r.clears <==> r.frame in {Ended, Broken})
  {
    InvMeansShells(s);
    RelayIs(s, e);
    hide Inv, Wired, HasShell, NoShellEver, ShellsInv, SessionsInv, IsTrue, Apply;
    var r := Apply(s, e).relay.value;
    assert s.relay != Some(r) ==> s.up[0] in s.up;
    StaysTrue(s, e, r.frame, s.server.sidOf[r.browser]);
  }

  lemma {:induction false} AlwaysTruthful(run: seq<Step>)
    ensures Truthful(After(INITIAL, run))
  {
    if run != [] {
      var front, e := run[..|run| - 1], run[|run| - 1];
      var s := After(INITIAL, front);
      AlwaysTruthful(front);
      AlwaysWired(front);
      InvAlways(front);
      if Enabled(s, e) {
        TruthfulStep(s, e);
      }
      hide Truthful, Wired, Inv, Apply;
    }
  }

  lemma TruthfulStep(s: State, e: Step)
    requires Wired(s) && Inv(s) && Truthful(s) && Enabled(s, e)
    ensures Truthful(Apply(s, e))
  {
    hide Inv, Wired, HasShell, NoShellEver, IsTrue, Apply, Enabled;
    var s' := Apply(s, e);
    forall b, f | b in s'.server.received && f in s'.server.received[b] && f in {Active, Broken}
      ensures b in s'.server.sidOf && IsTrue(s', f, s'.server.sidOf[b])
    {
      ReceivedStaysTrue(s, e, b, f);
    }
    forall m | m in s'.up && !m.FileUp?
      ensures IsTrue(s', FrameOf(m), m.sid)
    {
      UpStaysTrue(s, e, m);
    }
    if s'.relay.Some? && s'.relay.value.Relay? {
      RelayStaysTrue(s, e);
    }
  }

  /** Sending the last frame of a session clears the slot; sending any other leaves it. */
  lemma EndingsClearTheSlot(s: State)
    requires Truthful(s) && Enabled(s, HubSent)
    ensures Apply(s, HubSent).server.slot == if s.relay.value.frame in {Ended, Broken} then None else s.server.slot
  {}

  /** A tab that finds the slot taken ends the other's terminal before it does anything, and takes nothing yet. */
  lemma PreemptedIsTold(s: State, b: nat)
    requires Enabled(s, TabArrive(b)) && s.server.slot.Some?
    ensures var s', former := Apply(s, TabArrive(b)), s.server.slot.value.browser;
            && Get(s'.server.received, former) == Get(s.server.received, former) + [Ended]
            && (forall c: nat | c != former :: Get(s'.server.received, c) == Get(s.server.received, c))
            && s'.server.slot == s.server.slot && s'.down == s.down
  {}

  /**
   A browser is told its shell is active only once the session it opened has one, and that it failed
   only if it never will.
   */
  lemma StatusesAreTrue(run: seq<Step>, b: nat)
    ensures var s := After(INITIAL, run);
            var frames := Get(s.server.received, b);
            && (Active in frames ==> b in s.server.sidOf && HasShell(s.agent, s.server.sidOf[b]))
            && (Broken in frames ==> b in s.server.sidOf && NoShellEver(s, s.server.sidOf[b]))
            && !(Active in frames && Broken in frames)
  {
    AlwaysTruthful(run);
    hide After, HasShell;
  }
}
