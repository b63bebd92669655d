/**
 The agent's side of the command queue (agent/internal/agentloop/loop.go): one
 check-in, the commands it brings, and the follow-up check-in whose commands the
 agent throws away. Other requests reach the server between any two steps.
 */
module AgentLoop {
  import opened Wrappers
  import opened Fleet

  /**
   What becomes of one command: whether it failed, whether its report arrives, whether the agent
   lives on (a reboot, an update).
   */
  datatype Fate = Fate(failed: bool, reported: bool, survived: bool)

  /**
   One step of anyone: requests of others, or an agent checks in, executes its next
   command while others make requests, or dies.
   */
  datatype Turn =
    | Requests(requests: seq<Request>)
    | CheckIn(agent: nat, serial: Option<string>, version: Option<string>, kept: bool)
    | ExecuteOne(agent: nat, fate: Fate, requests: seq<Request>)
    | Die(agent: nat)

  /** strings.HasPrefix */
  predicate HasPrefix(s: string, prefix: string) {
    prefix <= s
  }

  predicate TouchesInventory(kind: string) {
    HasPrefix(kind, "docker_") || HasPrefix(kind, "vm_")
  }

  /** `id` appeared in a check-in response, and that response went to this bearer. */
  ghost predicate Delivered(handedOut: seq<int>, recipients: seq<nat>, id: int, secret: nat) {
    |handedOut| == |recipients| && exists i | 0 <= i < |handedOut| :: handedOut[i] == id && recipients[i] == secret
  }

  /** Every command executed or given up reached this agent; none was executed twice, or executed and given up. */
  ghost predicate Logged(executed: seq<int>, discarded: set<int>, handedOut: seq<int>, recipients: seq<nat>,
                         secret: nat) {
    && (forall id | id in executed :: Delivered(handedOut, recipients, id, secret))
    && (forall id | id in discarded :: Delivered(handedOut, recipients, id, secret) && id !in executed)
    && Distinct(executed)
  }

  /** Commands the agent was sent and has neither executed nor given up. */
  ghost predicate ToDo(work: seq<int>, executed: seq<int>, discarded: set<int>, handedOut: seq<int>,
                       recipients: seq<nat>, secret: nat) {
    && Distinct(work)
    && (forall id | id in work :: Delivered(handedOut, recipients, id, secret) && id !in executed && id !in discarded)
  }

  lemma NothingToDo(executed: seq<int>, discarded: set<int>, handedOut: seq<int>, recipients: seq<nat>, secret: nat)
    ensures ToDo([], executed, discarded, handedOut, recipients, secret)
  {}

  lemma LogStays(work: seq<int>, executed: seq<int>, discarded: set<int>, handedOut: seq<int>, recipients: seq<nat>,
                 handedOut': seq<int>, recipients': seq<nat>, secret: nat)
    requires Logged(executed, discarded, handedOut, recipients, secret)
    requires ToDo(work, executed, discarded, handedOut, recipients, secret)
    requires handedOut <= handedOut' && recipients <= recipients' && |handedOut'| == |recipients'|
    ensures Logged(executed, discarded, handedOut', recipients', secret)
    ensures ToDo(work, executed, discarded, handedOut', recipients', secret)
  {}

  /** The ids a response adds are new, and each appears once in it. */
  lemma LogResponse(executed: seq<int>, discarded: set<int>, handedOut: seq<int>, recipients: seq<nat>, ids: seq<int>,
                    secret: nat)
    requires Logged(executed, discarded, handedOut, recipients, secret) && |handedOut| == |recipients|
    requires Distinct(handedOut + ids)
    ensures var handedOut', recipients' := handedOut + ids, recipients + seq(|ids|, _ => secret);
            Logged(executed, discarded, handedOut', recipients', secret)
            && ToDo(ids, executed, discarded, handedOut', recipients', secret)
  {
    var handedOut', recipients' := handedOut + ids, recipients + seq(|ids|, _ => secret);
    assert ToDo([], executed, discarded, handedOut, recipients, secret);
    LogStays([], executed, discarded, handedOut, recipients, handedOut', recipients', secret);
    forall i, j | 0 <= i < j < |ids|
      ensures ids[i] != ids[j]
    {
      assert handedOut'[|handedOut| + i] == ids[i] && handedOut'[|handedOut| + j] == ids[j];
    }
    forall id | id in ids
      ensures id !in handedOut && Delivered(handedOut', recipients', id, secret)
    {
      var j :| 0 <= j < |ids| && ids[j] == id;
      assert handedOut'[|handedOut| + j] == id && recipients'[|handedOut| + j] == secret;
    }
    forall id | Delivered(handedOut, recipients, id, secret)
      ensures id in handedOut
    {}
  }

  lemma LogExecute(work: seq<int>, executed: seq<int>, discarded: set<int>, handedOut: seq<int>, recipients: seq<nat>,
                   secret: nat)
    requires Logged(executed, discarded, handedOut, recipients, secret)
    requires ToDo(work, executed, discarded, handedOut, recipients, secret) && work != []
    ensures Logged(executed + [work[0]], discarded, handedOut, recipients, secret)
    ensures ToDo(work[1..], executed + [work[0]], discarded, handedOut, recipients, secret)
  {
    hide Delivered;
    assert work[0] in work;
    assert forall id | id in work[1..] :: id in work;
  }

  lemma LogDiscard(work: seq<int>, executed: seq<int>, discarded: set<int>, handedOut: seq<int>, recipients: seq<nat>,
                   secret: nat)
    requires Logged(executed, discarded, handedOut, recipients, secret)
    requires ToDo(work, executed, discarded, handedOut, recipients, secret)
    ensures Logged(executed, discarded + Elements(work), handedOut, recipients, secret)
  {
    hide Delivered;
  }

  function Elements(s: seq<int>): set<int> {
    set x | x in s
  }

  lemma AllDistinct(server: Server)
    requires server.Valid()
    ensures Distinct(server.handedOut) && |server.recipients| == |server.handedOut|
  {}

  class Agent {
    const server: Server
    const secret: nat

    // Commands of the last response that are still to be executed.
    var work: seq<int>

    // History, across restarts of the agent process.
    ghost var executed: seq<int>   // command ids, in the order they were executed
    ghost var discarded: set<int>  // command ids sent to this agent that it has lost or thrown away

    ghost predicate Valid()
      reads this, server
    {
      && server.Valid()
      && Logged(executed, discarded, server.handedOut, server.recipients, secret)
      && ToDo(work, executed, discarded, server.handedOut, server.recipients, secret)
    }

    constructor (server: Server, secret: nat)
      requires server.Valid()
      ensures Valid() && this.server == server && this.secret == secret && work == [] && executed == []
                && discarded == {}
    {
      this.server, this.secret, work := server, secret, [];
      executed, discarded := [], {};
    }

    /** Whatever the server does meanwhile, what this agent has done and has to do stands. */
    lemma StaysValid(handedOut: seq<int>, recipients: seq<nat>)
      requires Logged(executed, discarded, handedOut, recipients, secret)
      requires ToDo(work, executed, discarded, handedOut, recipients, secret)
      requires handedOut <= server.handedOut && recipients <= server.recipients && server.Valid()
      ensures Valid()
    {
      hide Logged, ToDo, TokensOk, NodesOk, CommandsOk;
      LogStays(work, executed, discarded, handedOut, recipients, server.handedOut, server.recipients, secret);
    }

    /** Requests of others, while this agent is busy. */
    method Meanwhile(requests: seq<Request>)
      requires Valid()
      modifies server
      ensures Valid() && Advanced(server)
    {
      hide TokensOk, NodesOk, CommandsOk, Logged, ToDo, Onward, LimitsStand;
      Run(server, requests);
      StaysValid(old(server.handedOut), old(server.recipients));
    }

    /** client.Checkin: what the server hands out is new to this agent. */
    method Fetch(serial: Option<string>, version: Option<string>) returns (ids: seq<int>)
      requires Valid() && work == []
      modifies server
      ensures Valid() && Advanced(server)
      ensures ToDo(ids, executed, discarded, server.handedOut, server.recipients, secret)
      ensures var n := Authenticated(old(server.agentTokens), secret);
              && (forall c :: c in ids <==> n.Some? && c in PendingOf(old(server.commands), n.value))
              && server.commands == (if n.Some? then MarkSent(old(server.commands), n.value) else old(server.commands))
              && server.agentTokens == old(server.agentTokens)
    {
      AdvancedAtCheckin(server.commands, server.nextCommand, server.agentTokens, server.limits, secret);
      hide TokensOk, NodesOk, CommandsOk, Logged, ToDo;
      hide Authenticated, PendingOf, MarkSent, Unlink, RefreshedRow, KnownSecret;
      hide Onward, LimitsStand;
      AllDistinct(server);
      var reply := server.Checkin(secret, serial, version);
      ids := if reply.Ok? then reply.value else [];
      AllDistinct(server);
      assert server.handedOut == old(server.handedOut) + ids;
      assert server.recipients == old(server.recipients) + seq(|ids|, _ => secret);
      LogResponse(executed, discarded, old(server.handedOut), old(server.recipients), ids, secret);
      NothingToDo(executed, discarded, server.handedOut, server.recipients, secret);
    }

    /** What a check-in brings is work if the response arrives and is read; otherwise it is lost. */
    method Ask(serial: Option<string>, version: Option<string>, kept: bool) returns (ghost ids: seq<int>)
      requires Valid() && work == []
      modifies this`work, this`discarded, server
      ensures Valid() && Advanced(server)
      ensures work == (if kept then ids else [])
                && discarded == (if kept then old(discarded) else old(discarded) + Elements(ids))
      ensures var n := Authenticated(old(server.agentTokens), secret);
              && Elements(ids) == (if n.Some? then PendingOf(old(server.commands), n.value) else {})
              && server.commands == (if n.Some? then MarkSent(old(server.commands), n.value) else old(server.commands))
              && server.agentTokens == old(server.agentTokens)
    {
      hide TokensOk, NodesOk, CommandsOk, Logged, ToDo, Authenticated, PendingOf, MarkSent, Onward, LimitsStand;
      ghost var n := Authenticated(server.agentTokens, secret);
      var received := Fetch(serial, version);
      ids := received;
      assert forall c :: c in ids <==> n.Some? && c in PendingOf(old(server.commands), n.value);
      if kept {
        work := received;
      } else {
        LogDiscard(ids, executed, discarded, server.handedOut, server.recipients, secret);
        discarded := discarded + Elements(ids);
        NothingToDo(executed, discarded, server.handedOut, server.recipients, secret);
      }
    }

    /** commands.Execute on the next command, then the report of its result, if the machine lives to send it. */
    method ExecuteNext(fate: Fate, requests: seq<Request>)
      requires Valid() && work != []
      modifies this`work, this`executed, server
      ensures Valid() && Advanced(server)
      ensures work == old(work)[1..] && executed == old(executed) + [old(work)[0]]
      ensures var n, id := Authenticated(server.agentTokens, secret), old(work)[0];
              fate.survived && fate.reported && n.Some? && id in server.commands
                  && server.commands[id].node == n.value ==>
                server.commands[id].status == if fate.failed then Failed else Completed
    {
      hide TokensOk, NodesOk, CommandsOk, Logged, ToDo, Authenticated, Onward, LimitsStand;
      var id := work[0];
      LogExecute(work, executed, discarded, server.handedOut, server.recipients, secret);
      executed, work := executed + [id], work[1..];
      Meanwhile(requests);
      if fate.survived && fate.reported {
        label Executed:
        var _ := server.ReportResult(secret, id, fate.failed);
        AdvancedAtReport(old(server.commands), old(server.nextCommand),
                         old@Executed(server.commands), old@Executed(server.nextCommand),
                         id, fate.failed);
      }
    }

    /** The process ends: what is left of the response is forgotten. */
    method Restart()
      requires Valid()
      modifies this`work, this`discarded
      ensures Valid() && work == [] && discarded == old(discarded) + Elements(old(work))
    {
      hide TokensOk, NodesOk, CommandsOk, Logged, ToDo;
      LogDiscard(work, executed, discarded, server.handedOut, server.recipients, secret);
      discarded, work := discarded + Elements(work), [];
      NothingToDo(executed, discarded, server.handedOut, server.recipients, secret);
    }

    /**
     One step of this agent: a check-in when there is nothing left to do, the next
     command, or the end of the process. Nothing it was sent is lost from the record.
     */
    method Step(turn: Turn)
      requires Valid()
      modifies this, server
      ensures Valid() && Advanced(server)
      ensures executed == old(executed) + (if turn.ExecuteOne? && old(work) != [] then [old(work)[0]] else [])
      ensures old(discarded) <= discarded
      ensures !turn.Die? && (turn.CheckIn? ==> turn.kept) ==> discarded == old(discarded)
      ensures var n := Authenticated(old(server.agentTokens), secret);
              var asked := if turn.CheckIn? && old(work) == [] && n.Some? then PendingOf(old(server.commands), n.value)
                           else {};
              Elements(old(work)) + asked <= Elements(work) + Elements(executed) + discarded
    {
      hide TokensOk, NodesOk, CommandsOk, Logged, ToDo;
      hide Authenticated, Onward, LimitsStand, PendingOf, MarkSent;
      AdvancedChain(server.commands, server.nextCommand, server.commands, server.nextCommand, server.commands,
                    server.limits, server.limits, server.limits);
      if turn.CheckIn? && work == [] {
        ghost var ids := Ask(turn.serial, turn.version, turn.kept);
      } else if turn.ExecuteOne? && work != [] {
        ExecuteNext(turn.fate, turn.requests);
      } else if turn.Die? {
        Restart();
      }
    }

    /** The loop over the commands of a response, which ends early with the process. */
    method WorkOff(queue: map<int, Command>, fate: int -> Fate, during: int -> seq<Request>)
      returns (inventoryChanged: bool, survived: bool)
      requires Valid() && Elements(work) <= queue.Keys
      modifies this, server
      ensures Valid() && Advanced(server) && work == []
      ensures old(executed) <= executed && old(discarded) <= discarded
      ensures Elements(executed) <= Elements(old(executed)) + Elements(old(work)) <= Elements(executed) + discarded
      ensures survived == forall c | c in old(work) :: fate(c).survived
      ensures survived ==>
                && Elements(executed) == Elements(old(executed)) + Elements(old(work)) && discarded == old(discarded)
                && inventoryChanged == AnyTouches(Elements(old(work)), queue)
    {
      hide TokensOk, NodesOk, CommandsOk, Logged, ToDo, Authenticated, AnyTouches, Onward, LimitsStand;
      ghost var ids, i := work, 0;
      inventoryChanged, survived := false, true;
      NoneTouches(queue);
      AdvancedChain(server.commands, server.nextCommand, server.commands, server.nextCommand, server.commands,
                    server.limits, server.limits, server.limits);
      assert Elements(ids[..0]) == {} && ids[0..] == ids;
      while work != []
        invariant Valid() && Advanced(server) && i <= |ids| && work == ids[i..]
        invariant executed == old(executed) + ids[..i] && discarded == old(discarded)
        invariant survived && forall k | 0 <= k < i :: fate(ids[k]).survived
        invariant inventoryChanged == AnyTouches(Elements(ids[..i]), queue)
        decreases |work|
      {
        var id := work[0];
        assert id == ids[i] && id in ids && id in Elements(ids);
        assert ids[i..][1..] == ids[i + 1..] && ids[..i + 1] == ids[..i] + [ids[i]];
        label Next:
        ExecuteNext(fate(id), during(id));
        AdvancedChain(old(server.commands), old(server.nextCommand),
                      old@Next(server.commands), old@Next(server.nextCommand),
                      server.commands, old(server.limits), old@Next(server.limits), server.limits);
        i := i + 1;
        if !fate(id).survived {
          Restart();
          assert Elements(ids) == Elements(ids[..i]) + Elements(ids[i..]);
          return inventoryChanged, false;
        }
        OneMoreTouches(Elements(ids[..i - 1]), id, queue);
        assert Elements(ids[..i]) == Elements(ids[..i - 1]) + {id};
        inventoryChanged := inventoryChanged || TouchesInventory(queue[id].kind);
      }
      assert i == |ids| && ids[..i] == ids;
    }

    /**
     checkinOnce. `answered` says whether the response arrives; `fate` and
     `during` say what becomes of each command and what other requests the server
     serves while it executes. The commands the follow-up check-in brings are
     already marked sent and go to `discarded`: delivery is at most once, not
     exactly once.
     */
    method CheckinOnce(serial: Option<string>, version: Option<string>, answered: bool,
                       fate: int -> Fate, during: int -> seq<Request>) returns (refreshed: bool)
      requires Valid() && work == []
      modifies this, server
      ensures Valid() && Advanced(server) && work == []
      ensures old(executed) <= executed && old(discarded) <= discarded
      ensures var n := Authenticated(old(server.agentTokens), secret);
              var asked := if n.Some? then PendingOf(old(server.commands), n.value) else {};
              && Elements(executed) <= Elements(old(executed)) + asked
              && asked <= Elements(executed) + discarded
              && (if !answered then executed == old(executed) && !refreshed
                  else if forall c | c in asked :: fate(c).survived then
                    && Elements(executed) == Elements(old(executed)) + asked
                    && refreshed == AnyTouches(asked, old(server.commands))
                  else !refreshed)
      ensures refreshed && Authenticated(server.agentTokens, secret).Some? ==>
                PendingOf(server.commands, Authenticated(server.agentTokens, secret).value) == {}
    {
      hide TokensOk, NodesOk, CommandsOk, Logged, ToDo;
      hide Authenticated, AnyTouches, Onward, LimitsStand, PendingOf, MarkSent;
      refreshed := false;
      ghost var n := Authenticated(server.agentTokens, secret);
      PendingAreQueued(server.commands, if n.Some? then n.value else 0);
      var queue := server.commands; // the response carries the command types
      ghost var ids := Ask(serial, version, answered);
      if !answered {
        return;
      }
      assert forall c :: c in ids <==> c in Elements(ids);
      label Asked:
      var inventoryChanged, survived := WorkOff(queue, fate, during);
      AdvancedChain(old(server.commands), old(server.nextCommand),
                    old@Asked(server.commands), old@Asked(server.nextCommand),
                    server.commands, old(server.limits), old@Asked(server.limits), server.limits);
      if survived && inventoryChanged {
        ghost var m, before := Authenticated(server.agentTokens, secret), server.commands;
        label Worked:
        ghost var unread := Ask(serial, version, false);
        AdvancedChain(old(server.commands), old(server.nextCommand),
                      old@Worked(server.commands), old@Worked(server.nextCommand),
                      server.commands, old(server.limits), old@Worked(server.limits), server.limits);
        NothingStaysPending(before, if m.Some? then m.value else 0);
        refreshed := true;
      }
    }
  }

  /** One advance after another is an advance, and so is standing still. */
  lemma AdvancedChain(a: map<int, Command>, boundA: int, b: map<int, Command>, boundB: int, c: map<int, Command>,
                      limitsA: map<nat, Option<int>>, limitsB: map<nat, Option<int>>, limitsC: map<nat, Option<int>>)
    ensures Onward(a, boundA, a) && LimitsStand(limitsA, limitsA)
    ensures boundA <= boundB && Onward(a, boundA, b) && Onward(b, boundB, c) ==> Onward(a, boundA, c)
    ensures LimitsStand(limitsA, limitsB) && LimitsStand(limitsB, limitsC) ==> LimitsStand(limitsA, limitsC)
  {}

  lemma AdvancedAtCheckin(commands: map<int, Command>, bound: int, tokens: map<int, AgentToken>,
                          limits: map<nat, Option<int>>, secret: nat)
    ensures Onward(commands, bound, commands) && LimitsStand(limits, limits)
    ensures Authenticated(tokens, secret).Some? ==>
              Onward(commands, bound, MarkSent(commands, Authenticated(tokens, secret).value))
  {}

  lemma AdvancedAtReport(commands: map<int, Command>, bound: int, commands': map<int, Command>, bound': int, id: int,
                         failed: bool)
    requires Onward(commands, bound, commands') && bound <= bound'
    ensures id in commands' ==>
              Onward(commands, bound, commands'[id := commands'[id].(status := if failed then Failed else Completed)])
  {}

  predicate AnyTouches(ids: set<int>, commands: map<int, Command>) {
    exists c | c in ids && c in commands :: TouchesInventory(commands[c].kind)
  }

  /** Of the commands that can be queued, those for containers and virtual machines change the inventory. */
  lemma InventoryCommands(kind: string)
    requires kind in COMMAND_TYPES
    ensures TouchesInventory(kind) <==>
              kind in {"docker_start", "docker_stop", "docker_restart", "vm_start", "vm_stop", "vm_restart"}
  {
    assert "docker_" <= "docker_start" && "docker_" <= "docker_stop" && "docker_" <= "docker_restart";
    assert "vm_" <= "vm_start" && "vm_" <= "vm_stop" && "vm_" <= "vm_restart";
    if "docker_" <= kind {
      assert kind[0] == "docker_"[0] && kind[1] == "docker_"[1];
    }
    if "vm_" <= kind {
      assert kind[0] == "vm_"[0];
    }
  }

  lemma NoneTouches(commands: map<int, Command>)
    ensures !AnyTouches({}, commands)
  {}

  lemma OneMoreTouches(ids: set<int>, id: int, commands: map<int, Command>)
    requires id in commands
    ensures AnyTouches(ids + {id}, commands) == (AnyTouches(ids, commands) || TouchesInventory(commands[id].kind))
  {}

  lemma NothingStaysPending(commands: map<int, Command>, n: int)
    ensures PendingOf(MarkSent(commands, n), n) == {}
  {}

  lemma PendingAreQueued(commands: map<int, Command>, n: int)
    ensures PendingOf(commands, n) <= commands.Keys
  {}

  // ---- Several agents of one server --------------------------------------------------------

  /** The agents of a server, each with a bearer secret of its own. */
  ghost predicate Crew(agents: seq<Agent>, server: Server) {
    && (forall k | 0 <= k < |agents| :: agents[k].server == server)
    && (forall j, k | 0 <= j < k < |agents| :: agents[j] != agents[k] && agents[j].secret != agents[k].secret)
  }

  ghost predicate AllValid(agents: seq<Agent>, server: Server)
    requires Crew(agents, server)
    reads agents, server
  {
    forall k | 0 <= k < |agents| :: agents[k].Valid()
  }

  /** No command has been executed by two of them, or twice by one. */
  ghost predicate OnceEach(agents: seq<Agent>)
    reads agents
  {
    && (forall k | 0 <= k < |agents| :: Distinct(agents[k].executed))
    && (forall j, k, id | 0 <= j < k < |agents| && id in agents[j].executed :: id !in agents[k].executed)
  }

  /** Requests of others. */
  method Others(server: Server, agents: seq<Agent>, requests: seq<Request>)
    requires Crew(agents, server) && server.Valid() && AllValid(agents, server)
    modifies server
    ensures server.Valid() && AllValid(agents, server)
  {
    hide Logged, ToDo, TokensOk, NodesOk, CommandsOk, Onward, LimitsStand;
    Run(server, requests);
    forall k | 0 <= k < |agents|
      ensures agents[k].Valid()
    {
      agents[k].StaysValid(old(server.handedOut), old(server.recipients));
    }
  }

  /** A step of one agent. */
  method Act(server: Server, agents: seq<Agent>, turn: Turn)
    requires Crew(agents, server) && server.Valid() && AllValid(agents, server)
    requires !turn.Requests? && turn.agent < |agents|
    modifies server, agents[turn.agent]
    ensures server.Valid() && AllValid(agents, server)
    ensures old(agents[turn.agent].executed) <= agents[turn.agent].executed
  {
    hide Logged, ToDo, TokensOk, NodesOk, CommandsOk, Onward, LimitsStand, Authenticated, PendingOf, MarkSent, Elements;
    var a := agents[turn.agent];
    a.Step(turn);
    forall k | 0 <= k < |agents| && agents[k] != a
      ensures agents[k].Valid()
    {
      agents[k].StaysValid(old(server.handedOut), old(server.recipients));
    }
  }

  /**
   However the steps of any number of agents, and of everyone else, interleave: no
   command is executed twice, by one agent or by two.
   */
  method Interleave(server: Server, agents: seq<Agent>, turns: seq<Turn>)
    requires Crew(agents, server) && server.Valid() && AllValid(agents, server)
    modifies server, agents
    ensures server.Valid() && AllValid(agents, server) && OnceEach(agents)
    ensures forall k | 0 <= k < |agents| :: old(agents[k].executed) <= agents[k].executed
  {
    hide AllValid, OnceEach, TokensOk, NodesOk, CommandsOk;
    for i := 0 to |turns|
      invariant server.Valid() && AllValid(agents, server)
      invariant forall k | 0 <= k < |agents| :: old(agents[k].executed) <= agents[k].executed
    {
      if turns[i].Requests? {
        Others(server, agents, turns[i].requests);
      } else if turns[i].agent < |agents| {
        Act(server, agents, turns[i]);
      }
    }
    NoCommandRunsTwice(server, agents);
  }

  /** What was delivered to one bearer is executed by no other, and once. */
  lemma NoCommandRunsTwice(server: Server, agents: seq<Agent>)
    requires Crew(agents, server) && AllValid(agents, server)
    ensures OnceEach(agents)
  {
    forall j, k, id | 0 <= j < k < |agents| && id in agents[j].executed
      ensures id !in agents[k].executed
    {
      NoCommandRunsOnTwoMachines(agents[j], agents[k]);
    }
  }

  lemma NoCommandRunsOnTwoMachines(a: Agent, b: Agent)
    requires a.Valid() && b.Valid() && a.server == b.server && a.secret != b.secret
    ensures forall id | id in a.executed :: id !in b.executed
  {}
}
