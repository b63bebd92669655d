/**
 Enrolment, agent tokens and the command queue: the handlers of app/api/agent.py,
 app/api/nodes.py and app/api/enrollment.py over the tables they share. Each
 handler is one transaction.

 A random secret is known by a number that has not been used before, and a stored
 SHA-256 by the secret it belongs to: the hash is taken to be injective.
 */
module Fleet {
  import opened Collections
  import opened Wrappers

  datatype EnrolToken = EnrolToken(secret: nat, expiresAt: Option<int>, maxUses: Option<int>, useCount: nat,
      revoked: bool)

  datatype Node = Node(uuid: string, serial: string, active: bool, enrolToken: Option<int>, version: string)

  datatype AgentToken = AgentToken(node: int, secret: nat, revoked: bool)

  datatype Status = Pending | Sent | Completed | Failed

  datatype Command = Command(node: int, kind: string, status: Status)

  datatype Refusal = Invalid | Revoked | Expired | UsedUp | Unauthorized | NotFound | BadType

  datatype Reply<T> = Ok(value: T) | Refused(why: Refusal)

  const COMMAND_TYPES: set<string> := {
    "restart_service", "kill_process", "run_script", "reboot", "shutdown",
    "run_speedtest", "update_agent",
    "disk_largest_files", "disk_cleanup_temp", "disk_health_check",
    "docker_start", "docker_stop", "docker_restart",
    "vm_start", "vm_stop", "vm_restart"}

  /** How often a secret may enrol: max_uses, not below zero; no bound without max_uses. */
  predicate WithinUses(maxUses: Option<int>, uses: nat) {
    maxUses.None? || uses <= if maxUses.value > 0 then maxUses.value else 0
  }

  /** What an enrolment request says about the machine. */
  datatype Machine = Machine(uuid: string, serial: string, version: string)

  /** Why /enroll refuses a token row, if it does. */
  function Objection(t: EnrolToken, now: int): Option<Refusal> {
    if t.revoked then Some(Revoked)
    else if t.expiresAt.Some? && now > t.expiresAt.value then Some(Expired)
    else if t.maxUses.Some? && t.useCount >= t.maxUses.value then Some(UsedUp)
    else None
  }

  // ---- The invariants, on the tables as values ----------------------------------------------

  function Uses(uses: map<nat, nat>, secret: nat): nat {
    if secret in uses then uses[secret] else 0
  }

  /** Every stored secret is one of a kind and has its own count; no secret ever issued has been used too often. */
  ghost predicate TokensOk(tokens: map<int, EnrolToken>, uses: map<nat, nat>, limits: map<nat, Option<int>>,
                           nextToken: int, nextSecret: nat) {
    && (forall t | t in tokens :: t < nextToken && tokens[t].secret < nextSecret)
    && (forall t, u | t in tokens && u in tokens && tokens[t].secret == tokens[u].secret :: t == u)
    && (forall t | t in tokens :: tokens[t].useCount == Uses(uses, tokens[t].secret))
    && (forall t | t in tokens :: tokens[t].secret in limits && limits[tokens[t].secret] == tokens[t].maxUses)
    && (forall s | s in uses :: s < nextSecret)
    && (forall s | s in limits :: s < nextSecret && WithinUses(limits[s], Uses(uses, s)))
  }

  /** Machines are known by unique ids; a node has at most one valid token, and only while it is active. */
  ghost predicate NodesOk(nodes: map<int, Node>, tokens: map<int, AgentToken>, nextNode: int, nextToken: int,
                          nextSecret: nat) {
    && (forall n | n in nodes :: n < nextNode)
    && (forall n, m | n in nodes && m in nodes && nodes[n].uuid == nodes[m].uuid :: n == m)
    && (forall a | a in tokens :: a < nextToken && tokens[a].secret < nextSecret && tokens[a].node in nodes)
    && (forall a, b | a in tokens && b in tokens && tokens[a].secret == tokens[b].secret :: a == b)
    && (forall a, b | a in tokens && b in tokens && !tokens[a].revoked && !tokens[b].revoked
       && tokens[a].node == tokens[b].node :: a == b)
    && (forall a | a in tokens && !tokens[a].revoked :: nodes[tokens[a].node].active)
  }

  /** What has been handed out is never pending again, and was handed out once. */
  ghost predicate CommandsOk(commands: map<int, Command>, nodes: set<int>, handedOut: seq<int>, nextCommand: int) {
    && (forall c | c in commands :: c < nextCommand && commands[c].node in nodes)
    && (forall i | 0 <= i < |handedOut| :: handedOut[i] < nextCommand)
    && (forall i | 0 <= i < |handedOut| && handedOut[i] in commands :: commands[handedOut[i]].status != Pending)
    && (forall i, j | 0 <= i < j < |handedOut| :: handedOut[i] != handedOut[j])
  }

  lemma TokensIssue(tokens: map<int, EnrolToken>, uses: map<nat, nat>, limits: map<nat, Option<int>>, nextToken: int,
                    nextSecret: nat,
                    t: int, e: EnrolToken)
    requires TokensOk(tokens, uses, limits, nextToken, nextSecret)
    requires e.secret == nextSecret && e.useCount == 0 && t <= nextToken
    ensures TokensOk(tokens[t := e], uses, limits[nextSecret := e.maxUses], nextToken + 1, nextSecret + 1)
  {
    assert Uses(uses, nextSecret) == 0;
  }

  lemma TokensRotate(tokens: map<int, EnrolToken>, uses: map<nat, nat>, limits: map<nat, Option<int>>, nextToken: int,
                     nextSecret: nat,
                     t: int, e: EnrolToken)
    requires TokensOk(tokens, uses, limits, nextToken, nextSecret)
    requires e.secret == nextSecret && e.useCount == 0 && t in tokens
    ensures TokensOk(tokens[t := e], uses, limits[nextSecret := e.maxUses], nextToken, nextSecret + 1)
  {
    assert Uses(uses, nextSecret) == 0;
  }

  lemma TokensRevoke(tokens: map<int, EnrolToken>, uses: map<nat, nat>, limits: map<nat, Option<int>>, nextToken: int,
                     nextSecret: nat, t: int)
    requires TokensOk(tokens, uses, limits, nextToken, nextSecret) && t in tokens
    ensures TokensOk(tokens[t := tokens[t].(revoked := true)], uses, limits, nextToken, nextSecret)
  {}

  lemma TokensDrop(tokens: map<int, EnrolToken>, uses: map<nat, nat>, limits: map<nat, Option<int>>, nextToken: int,
                   nextSecret: nat, t: int)
    requires TokensOk(tokens, uses, limits, nextToken, nextSecret)
    ensures TokensOk(tokens - {t}, uses, limits, nextToken, nextSecret)
  {}

  lemma TokensSpend(tokens: map<int, EnrolToken>, uses: map<nat, nat>, limits: map<nat, Option<int>>, nextToken: int,
                    nextSecret: nat, t: int)
    requires TokensOk(tokens, uses, limits, nextToken, nextSecret) && t in tokens
    requires tokens[t].maxUses.Some? ==> tokens[t].useCount < tokens[t].maxUses.value
    ensures var e := tokens[t];
            TokensOk(tokens[t := e.(useCount := e.useCount + 1)], uses[e.secret := e.useCount + 1], limits, nextToken,
                nextSecret)
  {}

  lemma NodesUnlink(nodes: map<int, Node>, tokens: map<int, AgentToken>, nextNode: int, nextToken: int, nextSecret: nat,
                    t: int)
    requires NodesOk(nodes, tokens, nextNode, nextToken, nextSecret)
    ensures NodesOk(Unlink(nodes, t), tokens, nextNode, nextToken, nextSecret)
  {
    assert forall n | n in nodes ::
             Unlink(nodes, t)[n].uuid == nodes[n].uuid && Unlink(nodes, t)[n].active == nodes[n].active;
  }

  /** Writing a node row whose machine id no other row has, once the node has no valid token left. */
  lemma NodesWrite(nodes: map<int, Node>, tokens: map<int, AgentToken>, nextNode: int, nextToken: int, nextSecret: nat,
                   n: int, row: Node)
    requires NodesOk(nodes, tokens, nextNode, nextToken, nextSecret)
    requires forall k | k in nodes && k != n :: nodes[k].uuid != row.uuid
    requires n in nodes || n == nextNode
    ensures NodesOk(nodes[n := row], RevokeAll(tokens, n),
                    if n in nodes then nextNode else nextNode + 1, nextToken, nextSecret)
  {}

  /** Writing the facts a check-in brings leaves everything that matters here. */
  lemma NodesRefresh(nodes: map<int, Node>, tokens: map<int, AgentToken>, nextNode: int, nextToken: int,
                     nextSecret: nat, n: int, row: Node)
    requires NodesOk(nodes, tokens, nextNode, nextToken, nextSecret) && n in nodes
    requires row.uuid == nodes[n].uuid && row.active == nodes[n].active
    ensures NodesOk(nodes[n := row], tokens, nextNode, nextToken, nextSecret)
  {}

  lemma NodesIssue(nodes: map<int, Node>, tokens: map<int, AgentToken>, nextNode: int, nextToken: int, nextSecret: nat,
                   n: int)
    requires NodesOk(nodes, tokens, nextNode, nextToken, nextSecret) && n in nodes && nodes[n].active
    requires forall a | a in tokens && tokens[a].node == n :: tokens[a].revoked
    ensures NodesOk(nodes, tokens[nextToken := AgentToken(n, nextSecret, false)], nextNode, nextToken + 1,
                    nextSecret + 1)
  {}

  lemma NodesMoreSecrets(nodes: map<int, Node>, tokens: map<int, AgentToken>, nextNode: int, nextToken: int,
                         nextSecret: nat)
    requires NodesOk(nodes, tokens, nextNode, nextToken, nextSecret)
    ensures NodesOk(nodes, tokens, nextNode, nextToken, nextSecret + 1)
  {}

  lemma TokensMoreSecrets(tokens: map<int, EnrolToken>, uses: map<nat, nat>, limits: map<nat, Option<int>>,
                          nextToken: int, nextSecret: nat)
    requires TokensOk(tokens, uses, limits, nextToken, nextSecret)
    ensures TokensOk(tokens, uses, limits, nextToken, nextSecret + 1)
  {}

  lemma NodesDelete(nodes: map<int, Node>, tokens: map<int, AgentToken>, nextNode: int, nextToken: int, nextSecret: nat,
                    n: int)
    requires NodesOk(nodes, tokens, nextNode, nextToken, nextSecret)
    ensures NodesOk(nodes - {n}, TokensOfOthers(tokens, n), nextNode, nextToken, nextSecret)
  {}

  lemma CommandsMoreNodes(commands: map<int, Command>, nodes: set<int>, nodes': set<int>, handedOut: seq<int>,
                          nextCommand: int)
    requires CommandsOk(commands, nodes, handedOut, nextCommand) && nodes <= nodes'
    ensures CommandsOk(commands, nodes', handedOut, nextCommand)
  {}

  lemma CommandsAreBelow(commands: map<int, Command>, nodes: set<int>, handedOut: seq<int>, nextCommand: int)
    requires CommandsOk(commands, nodes, handedOut, nextCommand)
    ensures forall c | c in commands :: c < nextCommand
  {}

  lemma CommandsQueue(commands: map<int, Command>, nodes: set<int>, handedOut: seq<int>, nextCommand: int, c: Command)
    requires CommandsOk(commands, nodes, handedOut, nextCommand) && c.node in nodes
    ensures nextCommand !in commands && nextCommand !in handedOut
    ensures CommandsOk(commands[nextCommand := c], nodes, handedOut, nextCommand + 1)
  {}

  lemma CommandsReport(commands: map<int, Command>, nodes: set<int>, handedOut: seq<int>, nextCommand: int, c: int,
                       status: Status)
    requires CommandsOk(commands, nodes, handedOut, nextCommand) && c in commands && status != Pending
    ensures CommandsOk(commands[c := commands[c].(status := status)], nodes, handedOut, nextCommand)
  {}

  lemma CommandsHandOut(commands: map<int, Command>, nodes: set<int>, handedOut: seq<int>, nextCommand: int, n: int,
                        ids: seq<int>)
    requires CommandsOk(commands, nodes, handedOut, nextCommand)
    requires forall i | 0 <= i < |ids| ::
               ids[i] in commands && commands[ids[i]].node == n && commands[ids[i]].status == Pending
    requires forall i, j | 0 <= i < j < |ids| :: ids[i] != ids[j]
    ensures CommandsOk(MarkSent(commands, n), nodes, handedOut + ids, nextCommand)
  {}

  lemma CommandsDelete(commands: map<int, Command>, nodes: set<int>, handedOut: seq<int>, nextCommand: int, n: int)
    requires CommandsOk(commands, nodes, handedOut, nextCommand)
    ensures CommandsOk(CommandsOfOthers(commands, n), nodes - {n}, handedOut, nextCommand)
  {}

  // ---- What the operations do, row by row ---------------------------------------------------

  /** One row gets a use more, and goes with its last; the others stay. */
  ghost predicate TokenSpent(before: map<int, EnrolToken>, after: map<int, EnrolToken>, t: int) {
    && t in before
    && (t in after <==> before[t].maxUses.None? || before[t].useCount + 1 < before[t].maxUses.value)
    && (t in after ==> after[t] == before[t].(useCount := before[t].useCount + 1))
    && (forall k | k != t :: k in after <==> k in before)
    && (forall k | k in after && k != t :: after[k] == before[k])
  }

  /** The row of a machine: its own; else one of a decommissioned machine with its serial number; else a new one. */
  ghost predicate RowChosen(before: map<int, Node>, m: Machine, n: int) {
    && (forall k | k in before && before[k].uuid == m.uuid :: k == n)
    && ((forall k | k in before :: before[k].uuid != m.uuid) ==>
          if m.serial != "" && exists k | k in before :: !before[k].active && before[k].serial == m.serial
          then n in before && !before[n].active && before[n].serial == m.serial
          else n !in before)
  }

  /**
   That row is active and as the machine says, refers to the token it came with while that is there;
   the others stay.
   */
  ghost predicate RowEnrolled(before: map<int, Node>, after: map<int, Node>, m: Machine, n: int, t: int, left: bool) {
    && after.Keys == before.Keys + {n}
    && after[n] == Node(m.uuid, if n in before then before[n].serial else "", true, if left then Some(t)
       else None, m.version)
    && (forall k | k in before && k != n :: after[k] == Unlinked(before[k], if left then None else Some(t)))
  }

  function Unlinked(row: Node, gone: Option<int>): Node {
    if gone.Some? && row.enrolToken == gone then row.(enrolToken := None) else row
  }

  /** Every bearer of a node is revoked, and no other; nothing is given back. */
  ghost predicate BearersRevoked(before: map<int, AgentToken>, after: map<int, AgentToken>, n: int) {
    && (forall a | a in before :: a in after)
    && (forall a | a in before :: after[a] == before[a].(revoked := before[a].revoked || before[a].node == n))
  }

  /** All bearers of the node there were are revoked, and there is a new one; those of others stay. */
  ghost predicate BearerIssued(before: map<int, AgentToken>, after: map<int, AgentToken>, n: int, secret: nat) {
    && BearersRevoked(before, after, n)
    && (exists a :: a !in before && after.Keys == before.Keys + {a} && after[a] == AgentToken(n, secret, false))
  }

  /** The commands listed are those pending for the node, and exactly these become sent. */
  ghost predicate CommandsSent(before: map<int, Command>, after: map<int, Command>, ids: seq<int>, n: int) {
    && (forall c :: c in ids <==> c in before && before[c].node == n && before[c].status == Pending)
    && after.Keys == before.Keys
    && (forall c | c in before :: after[c] == if c in ids then before[c].(status := Sent) else before[c])
  }

  /** The node's row takes what the check-in says and loses the token it came with, as all rows do. */
  ghost predicate RowRefreshed(before: map<int, Node>, after: map<int, Node>, n: int, serial: Option<string>,
                               version: Option<string>) {
    && n in before && after.Keys == before.Keys
    && after[n] == Node(before[n].uuid, if serial.Some? then serial.value else before[n].serial, before[n].active, None,
                        if version.Some? then version.value else before[n].version)
    && (forall k | k in before && k != n :: after[k] == Unlinked(before[k], before[n].enrolToken))
  }

  class Server {
    var enrolTokens: map<int, EnrolToken>
    var nodes: map<int, Node>
    var agentTokens: map<int, AgentToken>
    var commands: map<int, Command>
    // AUTOINCREMENT: ids are never used again.
    var nextEnrolToken: int
    var nextNode: int
    var nextAgentToken: int
    var nextCommand: int
    // Every secret generated so far is below this.
    var nextSecret: nat

    // History.
    ghost var uses: map<nat, nat>             // enrolments made with a secret
    ghost var limits: map<nat, Option<int>>   // max_uses a secret was issued with
    ghost var handedOut: seq<int>             // command ids, in the order they appeared in check-in responses
    ghost var recipients: seq<nat>            // the bearer secret each of them was sent to

    ghost predicate Valid()
      reads this
    {
      && TokensOk(enrolTokens, uses, limits, nextEnrolToken, nextSecret)
      && NodesOk(nodes, agentTokens, nextNode, nextAgentToken, nextSecret)
      && CommandsOk(commands, nodes.Keys, handedOut, nextCommand)
      && |recipients| == |handedOut|
    }

    constructor ()
      ensures Valid() && nodes == map[] && enrolTokens == map[] && commands == map[] && handedOut == []
    {
      enrolTokens, nodes, agentTokens, commands := map[], map[], map[], map[];
      nextEnrolToken, nextNode, nextAgentToken, nextCommand, nextSecret := 1, 1, 1, 1, 0;
      uses, limits, handedOut, recipients := map[], map[], [], [];
    }

    // ---- Enrolment tokens (app/api/enrollment.py) ----------------------------------------

    method CreateToken(expiresAt: Option<int>, maxUses: Option<int>) returns (id: int, secret: nat)
      requires Valid()
      modifies this`enrolTokens, this`nextEnrolToken, this`nextSecret, this`limits
      ensures Valid()
      ensures id !in old(enrolTokens) && secret == old(nextSecret) && Uses(uses, secret) == 0
      ensures enrolTokens == old(enrolTokens)[id := EnrolToken(secret, expiresAt, maxUses, 0, false)]
      ensures limits == old(limits)[secret := maxUses] && nextSecret == secret + 1
    {
      hide TokensOk, NodesOk, CommandsOk;
      id, secret := nextEnrolToken, nextSecret;
      TokensIssue(enrolTokens, uses, limits, nextEnrolToken, nextSecret, id,
          EnrolToken(secret, expiresAt, maxUses, 0, false));
      NodesMoreSecrets(nodes, agentTokens, nextNode, nextAgentToken, nextSecret);
      FreshToken(enrolTokens, uses, limits, nextEnrolToken, nextSecret);
      enrolTokens := enrolTokens[id := EnrolToken(secret, expiresAt, maxUses, 0, false)];
      nextEnrolToken, nextSecret := nextEnrolToken + 1, nextSecret + 1;
      limits := limits[secret := maxUses];
    }

    /** A new secret for the same row, counting from zero; the old secret is worth nothing from here on. */
    method RotateToken(id: int) returns (reply: Reply<nat>)
      requires Valid()
      modifies this`enrolTokens, this`nextSecret, this`limits
      ensures Valid()
      ensures reply == if id !in old(enrolTokens) then Refused(NotFound)
                       else if old(enrolTokens)[id].revoked then Refused(Revoked) else Ok(old(nextSecret))
      ensures enrolTokens == if reply.Ok?
                then old(enrolTokens)[id := old(enrolTokens)[id].(secret := reply.value, useCount := 0)]
                             else old(enrolTokens)
      ensures limits == if reply.Ok? then old(limits)[reply.value := old(enrolTokens)[id].maxUses] else old(limits)
      ensures reply.Ok? ==> !KnownSecret(enrolTokens, old(enrolTokens)[id].secret)
      ensures nextSecret == old(nextSecret) + if reply.Ok? then 1 else 0
    {
      hide TokensOk, NodesOk, CommandsOk;
      if id !in enrolTokens {
        return Refused(NotFound);
      }
      if enrolTokens[id].revoked {
        return Refused(Revoked);
      }
      var secret := nextSecret;
      TokensRotate(enrolTokens, uses, limits, nextEnrolToken, nextSecret, id,
          enrolTokens[id].(secret := secret, useCount := 0));
      NodesMoreSecrets(nodes, agentTokens, nextNode, nextAgentToken, nextSecret);
      OldSecretIsGone(enrolTokens, uses, limits, nextEnrolToken, nextSecret, id,
          enrolTokens[id].(secret := secret, useCount := 0));
      limits := limits[secret := enrolTokens[id].maxUses];
      enrolTokens := enrolTokens[id := enrolTokens[id].(secret := secret, useCount := 0)];
      nextSecret := nextSecret + 1;
      reply := Ok(secret);
    }

    method RevokeToken(id: int) returns (reply: Reply<()>)
      requires Valid()
      modifies this`enrolTokens
      ensures Valid()
      ensures reply == if id in old(enrolTokens) then Ok(()) else Refused(NotFound)
      ensures enrolTokens == if reply.Ok? then old(enrolTokens)[id := old(enrolTokens)[id].(revoked := true)]
                else old(enrolTokens)
    {
      hide TokensOk, NodesOk, CommandsOk;
      if id !in enrolTokens {
        return Refused(NotFound);
      }
      TokensRevoke(enrolTokens, uses, limits, nextEnrolToken, nextSecret, id);
      enrolTokens := enrolTokens[id := enrolTokens[id].(revoked := true)];
      reply := Ok(());
    }

    /** DELETE FROM enrollment_tokens; the nodes' reference to it goes to NULL. */
    method DropEnrolToken(id: int)
      requires Valid()
      modifies this`enrolTokens, this`nodes
      ensures Valid()
      ensures enrolTokens == old(enrolTokens) - {id}
      ensures nodes == Unlink(old(nodes), id)
    {
      hide TokensOk, NodesOk, CommandsOk;
      TokensDrop(enrolTokens, uses, limits, nextEnrolToken, nextSecret, id);
      NodesUnlink(nodes, agentTokens, nextNode, nextAgentToken, nextSecret, id);
      enrolTokens := enrolTokens - {id};
      nodes := Unlink(nodes, id);
    }

    method DeleteToken(id: int) returns (reply: Reply<()>)
      requires Valid()
      modifies this`enrolTokens, this`nodes
      ensures Valid()
      ensures reply == if id in old(enrolTokens) then Ok(()) else Refused(NotFound)
      ensures enrolTokens == old(enrolTokens) - {id}
      ensures nodes == if reply.Ok? then Unlink(old(nodes), id) else old(nodes)
      ensures reply.Ok? ==> forall n | n in old(nodes) :: nodes[n] == Unlinked(old(nodes)[n], Some(id))
    {
      hide TokensOk, NodesOk, CommandsOk;
      if id !in enrolTokens {
        return Refused(NotFound);
      }
      DropEnrolToken(id);
      reply := Ok(());
    }

    // ---- Enrolment (app/api/agent.py) ----------------------------------------------------------

    /** The upsert by agent_uuid, or by serial number for a decommissioned machine; its old tokens are revoked. */
    method UpsertNode(m: Machine, token: int) returns (n: int)
      requires Valid()
      modifies this`nodes, this`agentTokens, this`nextNode
      ensures Valid()
      ensures RowFor(old(nodes), m, n)
      ensures nodes == old(nodes)[n := EnrolledRow(old(nodes), n, m, token)]
      ensures agentTokens == RevokeAll(old(agentTokens), n)
    {
      hide TokensOk, NodesOk, CommandsOk;
      if KnownUuid(nodes, m.uuid) {
        n :| n in nodes && nodes[n].uuid == m.uuid;
      } else if Revivable(nodes, m.serial) {
        n :| n in nodes && !nodes[n].active && nodes[n].serial == m.serial;
      } else {
        n := nextNode;
      }
      FreshNode(nodes, agentTokens, nextNode, nextAgentToken, nextSecret, m, n);
      NodesWrite(nodes, agentTokens, nextNode, nextAgentToken, nextSecret, n, EnrolledRow(nodes, n, m, token));
      CommandsMoreNodes(commands, nodes.Keys, nodes.Keys + {n}, handedOut, nextCommand);
      if n !in nodes {
        nextNode := nextNode + 1;
      }
      nodes := nodes[n := EnrolledRow(nodes, n, m, token)];
      agentTokens := RevokeAll(agentTokens, n);
      assert nodes.Keys == old(nodes).Keys + {n};
    }

    /** A fresh bearer token for a node that has no valid one. */
    method IssueAgentToken(n: int) returns (secret: nat)
      requires Valid() && n in nodes && nodes[n].active
      requires forall a | a in agentTokens && agentTokens[a].node == n :: agentTokens[a].revoked
      modifies this`agentTokens, this`nextAgentToken, this`nextSecret
      ensures Valid()
      ensures secret == old(nextSecret) && nextSecret == secret + 1
      ensures agentTokens == old(agentTokens)[old(nextAgentToken) := AgentToken(n, secret, false)]
    {
      hide TokensOk, NodesOk, CommandsOk;
      NodesIssue(nodes, agentTokens, nextNode, nextAgentToken, nextSecret, n);
      TokensMoreSecrets(enrolTokens, uses, limits, nextEnrolToken, nextSecret);
      secret := nextSecret;
      agentTokens := agentTokens[nextAgentToken := AgentToken(n, secret, false)];
      nextAgentToken, nextSecret := nextAgentToken + 1, nextSecret + 1;
    }

    /** One more use of an enrolment token; its last use deletes it. */
    method SpendToken(t: int)
      requires Valid() && t in enrolTokens
      requires enrolTokens[t].maxUses.Some? ==> enrolTokens[t].useCount < enrolTokens[t].maxUses.value
      modifies this`enrolTokens, this`nodes, this`uses
      ensures Valid()
      ensures uses == old(uses)[old(enrolTokens)[t].secret := old(enrolTokens)[t].useCount + 1]
      ensures enrolTokens == Spent(old(enrolTokens), t)
      ensures nodes == if t in enrolTokens then old(nodes) else Unlink(old(nodes), t)
    {
      hide TokensOk, NodesOk, CommandsOk;
      TokensSpend(enrolTokens, uses, limits, nextEnrolToken, nextSecret, t);
      var e := enrolTokens[t];
      uses := uses[e.secret := e.useCount + 1];
      enrolTokens := enrolTokens[t := e.(useCount := e.useCount + 1)];
      if e.maxUses.Some? && e.useCount + 1 >= e.maxUses.value {
        DropEnrolToken(t);
      }
    }

    /** The statements of an enrolment that is not refused. */
    method Admit(t: int, m: Machine) returns (e: Enrolment)
      requires Valid() && t in enrolTokens
      requires enrolTokens[t].maxUses.Some? ==> enrolTokens[t].useCount < enrolTokens[t].maxUses.value
      modifies this`enrolTokens, this`nodes, this`agentTokens
      modifies this`nextNode, this`nextAgentToken, this`nextSecret, this`uses
      ensures Valid()
      ensures Admitted(old(enrolTokens), old(nodes), old(agentTokens), t, m, e, old(nextAgentToken),
                       enrolTokens, nodes, agentTokens)
      ensures e.agentSecret == old(nextSecret) && nextSecret == old(nextSecret) + 1
      ensures uses == old(uses)[old(enrolTokens)[t].secret := old(enrolTokens)[t].useCount + 1]
    {
      hide TokensOk, NodesOk, CommandsOk, Spent, EnrolledRow, RowFor, Unlink, RevokeAll;
      var n := UpsertNode(m, t);
      ReadyForABearer(old(nodes), old(agentTokens), n, m, t);
      var agentSecret := IssueAgentToken(n);
      SpendToken(t);
      e := Enrolment(n, agentSecret);
    }

    /** The same, said of the rows. */
    method AdmitRow(t: int, m: Machine) returns (e: Enrolment)
      requires Valid() && t in enrolTokens
      requires enrolTokens[t].maxUses.Some? ==> enrolTokens[t].useCount < enrolTokens[t].maxUses.value
      modifies this`enrolTokens, this`nodes, this`agentTokens
      modifies this`nextNode, this`nextAgentToken, this`nextSecret, this`uses
      ensures Valid()
      ensures TokenSpent(old(enrolTokens), enrolTokens, t)
      ensures RowChosen(old(nodes), m, e.node) && RowEnrolled(old(nodes), nodes, m, e.node, t, t in enrolTokens)
      ensures BearerIssued(old(agentTokens), agentTokens, e.node, e.agentSecret)
      ensures e.agentSecret == old(nextSecret) && nextSecret == old(nextSecret) + 1
      ensures uses == old(uses)[old(enrolTokens)[t].secret := old(enrolTokens)[t].useCount + 1]
    {
      hide TokensOk, NodesOk, CommandsOk, Admitted, UniqueUuids, TokenSpent, RowChosen, RowEnrolled, BearerIssued;
      FreshBearer(agentTokens, nodes, nextNode, nextAgentToken, nextSecret);
      UuidsAreUnique(agentTokens, nodes, nextNode, nextAgentToken, nextSecret);
      e := Admit(t, m);
      AdmittedMeans(old(enrolTokens), old(nodes), old(agentTokens), t, m, e, old(nextAgentToken), enrolTokens, nodes,
                    agentTokens);
    }

    /** `t` is the token row the secret belongs to, when the request is not refused as invalid. */
    method Enroll(secret: nat, m: Machine, now: int) returns (reply: Reply<Enrolment>, ghost t: int)
      requires Valid()
      modifies this
      ensures Valid()
      // Refused is what the row says, in this order.
      ensures reply == Refused(Invalid) <==> forall k | k in old(enrolTokens) :: old(enrolTokens)[k].secret != secret
      ensures reply != Refused(Invalid) ==>
                && t in old(enrolTokens) && old(enrolTokens)[t].secret == secret
                && (var e := old(enrolTokens)[t];
                    var expired := e.expiresAt.Some? && e.expiresAt.value < now;
                    && (reply == Refused(Revoked) <==> e.revoked)
                    && (reply == Refused(Expired) <==> !e.revoked && expired)
                    && (reply == Refused(UsedUp) <==>
                          !e.revoked && !expired && e.maxUses.Some? && e.maxUses.value <= e.useCount)
                    && (reply.Ok? <==>
                          !e.revoked && !expired && (e.maxUses.None? || e.useCount < e.maxUses.value)))
      ensures reply.Refused? ==> unchanged(this)
      ensures reply.Ok? ==>
                var Enrolment(n, agentSecret) := reply.value;
                && TokenSpent(old(enrolTokens), enrolTokens, t)
                && RowChosen(old(nodes), m, n)
                && RowEnrolled(old(nodes), nodes, m, n, t, t in enrolTokens)
                && BearerIssued(old(agentTokens), agentTokens, n, agentSecret)
                && agentSecret == old(nextSecret) && nextSecret == old(nextSecret) + 1
                && uses == old(uses)[secret := old(enrolTokens)[t].useCount + 1]
                && commands == old(commands) && nextCommand == old(nextCommand)
                && handedOut == old(handedOut) && recipients == old(recipients) && limits == old(limits)
    {
      hide TokensOk, NodesOk, CommandsOk, TokenSpent, RowChosen, RowEnrolled, BearerIssued;
      t := 0;
      if !KnownSecret(enrolTokens, secret) {
        return Refused(Invalid), t;
      }
      var id :| id in enrolTokens && enrolTokens[id].secret == secret;
      t := id;
      var objection := Objection(enrolTokens[id], now);
      if objection.Some? {
        return Refused(objection.value), t;
      }
      var e := AdmitRow(id, m);
      reply := Ok(e);
    }

    // ---- Check-in and command results (app/api/agent.py) ------------------------------------------

    /** get_current_node: the node an unrevoked token belongs to. */
    method CurrentNode(secret: nat) returns (n: Option<int>)
      requires Valid()
      ensures n == Authenticated(agentTokens, secret)
      ensures n.None? <==> forall a | a in agentTokens && agentTokens[a].secret == secret :: agentTokens[a].revoked
      ensures forall a | a in agentTokens && agentTokens[a].secret == secret && !agentTokens[a].revoked ::
                n == Some(agentTokens[a].node)
      ensures n.Some? ==> n.value in nodes && nodes[n.value].active
    {
      n := None;
      if exists a | a in agentTokens :: agentTokens[a].secret == secret && !agentTokens[a].revoked {
        var a :| a in agentTokens && agentTokens[a].secret == secret && !agentTokens[a].revoked;
        n := Some(agentTokens[a].node);
      }
    }

    /** SELECT the node's pending commands, then UPDATE exactly those to sent. */
    method HandOut(n: int, ghost to: nat) returns (ids: seq<int>)
      requires Valid()
      modifies this`commands, this`handedOut, this`recipients
      ensures Valid()
      ensures forall c :: c in ids <==> c in PendingOf(old(commands), n)
      ensures Distinct(ids)
      ensures commands == MarkSent(old(commands), n)
      ensures handedOut == old(handedOut) + ids && recipients == old(recipients) + seq(|ids|, _ => to)
    {
      hide TokensOk, NodesOk, CommandsOk;
      ids := Listed(PendingOf(commands, n));
      forall i | 0 <= i < |ids|
        ensures ids[i] in commands && commands[ids[i]].node == n && commands[ids[i]].status == Pending
      {
        assert ids[i] in PendingOf(commands, n);
      }
      CommandsHandOut(commands, nodes.Keys, handedOut, nextCommand, n, ids);
      commands := MarkSent(commands, n);
      handedOut, recipients := handedOut + ids, recipients + seq(|ids|, _ => to);
    }

    /**
     A check-in deletes the enrolment token its node came in with, whatever uses
     that token has left, and answers with the node's pending commands.
     */
    method Checkin(secret: nat, serial: Option<string>, version: Option<string>) returns (reply: Reply<seq<int>>)
      requires Valid()
      modifies this`enrolTokens, this`nodes, this`commands, this`handedOut, this`recipients
      ensures Valid()
      ensures var n := Authenticated(old(agentTokens), secret);
              if n.None? then reply == Refused(Unauthorized) && unchanged(this)
              else
                && reply.Ok? && n.value in old(nodes)
                && (forall c :: c in reply.value <==> c in PendingOf(old(commands), n.value))
                && Distinct(reply.value)
                && commands == MarkSent(old(commands), n.value)
                && handedOut == old(handedOut) + reply.value
                && recipients == old(recipients) + seq(|reply.value|, _ => secret)
                && (var arrived := old(nodes)[n.value].enrolToken;
                    && enrolTokens == (if arrived.Some? then old(enrolTokens) - {arrived.value} else old(enrolTokens))
                    && (arrived.Some? && arrived.value in old(enrolTokens) ==>
                          !KnownSecret(enrolTokens, old(enrolTokens)[arrived.value].secret))
                    && nodes == (var rows := if arrived.Some? then Unlink(old(nodes), arrived.value) else old(nodes);
                                 rows[n.value := RefreshedRow(rows[n.value], serial, version)]))
                && CommandsSent(old(commands), commands, reply.value, n.value)
                && RowRefreshed(old(nodes), nodes, n.value, serial, version)
    {
      hide TokensOk, NodesOk, CommandsOk, CommandsSent, RowRefreshed;
      var current := CurrentNode(secret);
      if current.None? {
        return Refused(Unauthorized);
      }
      var n := current.value;
      if nodes[n].enrolToken.Some? {
        if nodes[n].enrolToken.value in enrolTokens {
          DroppedSecretIsGone(enrolTokens, uses, limits, nextEnrolToken, nextSecret, nodes[n].enrolToken.value);
        }
        DropEnrolToken(nodes[n].enrolToken.value);
      }
      var row := RefreshedRow(nodes[n], serial, version);
      NodesRefresh(nodes, agentTokens, nextNode, nextAgentToken, nextSecret, n, row);
      assert nodes[n := row].Keys == nodes.Keys;
      nodes := nodes[n := row];
      var ids := HandOut(n, secret);
      CheckedInMeans(old(nodes), n, serial, version);
      SentMeans(old(commands), ids, n);
      reply := Ok(ids);
    }

    method ReportResult(secret: nat, id: int, failed: bool) returns (reply: Reply<()>)
      requires Valid()
      modifies this`commands
      ensures Valid()
      ensures var n := Authenticated(agentTokens, secret);
              reply == if n.None? then Refused(Unauthorized)
                       else if id !in old(commands) || old(commands)[id].node != n.value then Refused(NotFound)
                           else Ok(())
      ensures commands == if reply.Ok?
                then old(commands)[id := old(commands)[id].(status := if failed then Failed else Completed)]
                          else old(commands)
    {
      hide TokensOk, NodesOk, CommandsOk;
      var current := CurrentNode(secret);
      if current.None? {
        return Refused(Unauthorized);
      }
      if id !in commands || commands[id].node != current.value {
        return Refused(NotFound);
      }
      CommandsReport(commands, nodes.Keys, handedOut, nextCommand, id, if failed then Failed else Completed);
      commands := commands[id := commands[id].(status := if failed then Failed else Completed)];
      reply := Ok(());
    }

    // ---- Nodes and commands (app/api/nodes.py) ---------------------------------------------------------

    method QueueCommand(n: int, kind: string) returns (reply: Reply<int>)
      requires Valid()
      modifies this`commands, this`nextCommand
      ensures Valid()
      ensures reply == if kind !in COMMAND_TYPES then Refused(BadType)
                       else if n !in nodes || !nodes[n].active then Refused(NotFound) else Ok(old(nextCommand))
      ensures commands == if reply.Ok? then old(commands)[reply.value := Command(n, kind, Pending)] else old(commands)
      ensures nextCommand == old(nextCommand) + if reply.Ok? then 1 else 0
      ensures reply.Ok? ==> reply.value !in old(commands) && reply.value !in handedOut
    {
      hide TokensOk, NodesOk, CommandsOk;
      if kind !in COMMAND_TYPES {
        return Refused(BadType);
      }
      if n !in nodes || !nodes[n].active {
        return Refused(NotFound);
      }
      CommandsQueue(commands, nodes.Keys, handedOut, nextCommand, Command(n, kind, Pending));
      commands := commands[nextCommand := Command(n, kind, Pending)];
      reply := Ok(nextCommand);
      nextCommand := nextCommand + 1;
    }

    /** The loop that inserts an update_agent command for each of the targets. */
    method QueueUpdates(targets: seq<int>) returns (queued: seq<int>)
      requires Valid() && forall i | 0 <= i < |targets| :: targets[i] in nodes
      modifies this`commands, this`nextCommand
      ensures Valid()
      ensures |queued| == |targets| && nextCommand == old(nextCommand) + |targets|
      ensures forall i | 0 <= i < |queued| :: queued[i] == old(nextCommand) + i
      ensures commands == WithUpdates(old(commands), targets, old(nextCommand))
    {
      hide TokensOk, NodesOk, CommandsOk;
      queued := [];
      assert targets[..0] == [];
      for i := 0 to |targets|
        invariant Valid() && nextCommand == old(nextCommand) + i && |queued| == i
        invariant forall k | 0 <= k < i :: queued[k] == old(nextCommand) + k
        invariant commands == WithUpdates(old(commands), targets[..i], old(nextCommand))
      {
        CommandsQueue(commands, nodes.Keys, handedOut, nextCommand, Command(targets[i], "update_agent", Pending));
        assert targets[..i + 1][..i] == targets[..i];
        commands := commands[nextCommand := Command(targets[i], "update_agent", Pending)];
        queued := queued + [nextCommand];
        nextCommand := nextCommand + 1;
      }
      assert targets[..|targets|] == targets;
    }

    /**
     One update_agent command for each selected active node that is not already on `latest`; naming
     none is refused.
     */
    method PushAgentUpdate(selected: set<int>, all: bool, latest: Option<string>)
      returns (ok: bool, targets: seq<int>, queued: seq<int>)
      requires Valid()
      modifies this`commands, this`nextCommand
      ensures Valid()
      ensures ok == (all || selected != {})
      ensures !ok ==> targets == [] && queued == []
      ensures ok ==> forall n :: n in targets <==>
                n in nodes && nodes[n].active && (all || n in selected)
                    && (latest.None? || nodes[n].version != latest.value)
      ensures Distinct(targets) && |queued| == |targets| && nextCommand == old(nextCommand) + |targets|
      ensures forall i | 0 <= i < |queued| :: queued[i] == old(nextCommand) + i
      ensures commands == WithUpdates(old(commands), targets, old(nextCommand))
      ensures UpdatesQueued(old(commands), commands, targets, queued)
    {
      NothingQueued(commands);
      if !all && selected == {} {
        return false, [], [];
      }
      hide TokensOk, NodesOk, CommandsOk, WithUpdates, UpdatesQueued;
      CommandsAreBelow(commands, nodes.Keys, handedOut, nextCommand);
      ok := true;
      targets := Listed(set n | n in nodes && nodes[n].active && (all || n in selected)
                                && (latest.None? || nodes[n].version != latest.value));
      queued := QueueUpdates(targets);
      UpdatesAre(old(commands), targets, old(nextCommand), queued);
    }

    method Decommission(n: int) returns (reply: Reply<()>)
      requires Valid()
      modifies this`nodes, this`agentTokens
      ensures Valid()
      ensures reply == if n in old(nodes) then Ok(()) else Refused(NotFound)
      ensures if reply.Ok? then nodes == old(nodes)[n := old(nodes)[n].(active := false)]
                && agentTokens == RevokeAll(old(agentTokens), n)
                && BearersRevoked(old(agentTokens), agentTokens, n)
              else unchanged(this)
    {
      hide TokensOk, NodesOk, CommandsOk, RevokeAll, BearersRevoked;
      if n !in nodes {
        return Refused(NotFound);
      }
      SameUuidOnly(nodes, agentTokens, nextNode, nextAgentToken, nextSecret, n);
      RevokedMeans(agentTokens, n);
      NodesWrite(nodes, agentTokens, nextNode, nextAgentToken, nextSecret, n, nodes[n].(active := false));
      assert nodes[n := nodes[n].(active := false)].Keys == nodes.Keys;
      nodes := nodes[n := nodes[n].(active := false)];
      agentTokens := RevokeAll(agentTokens, n);
      reply := Ok(());
    }

    /** The row goes with everything that refers to it by a cascading foreign key. */
    method DeleteNode(n: int) returns (reply: Reply<()>)
      requires Valid()
      modifies this`nodes, this`agentTokens, this`commands
      ensures Valid()
      ensures reply == if n in old(nodes) then Ok(()) else Refused(NotFound)
      ensures if reply.Refused? then unchanged(this)
              else nodes == old(nodes) - {n}
                   && agentTokens == TokensOfOthers(old(agentTokens), n)
                   && commands == CommandsOfOthers(old(commands), n)
      ensures reply.Ok? ==>
                && (forall a :: a in agentTokens <==> a in old(agentTokens) && old(agentTokens)[a].node != n)
                && (forall a | a in agentTokens :: agentTokens[a] == old(agentTokens)[a])
                && (forall c :: c in commands <==> c in old(commands) && old(commands)[c].node != n)
                && (forall c | c in commands :: commands[c] == old(commands)[c])
    {
      hide TokensOk, NodesOk, CommandsOk;
      if n !in nodes {
        return Refused(NotFound);
      }
      NodesDelete(nodes, agentTokens, nextNode, nextAgentToken, nextSecret, n);
      CommandsDelete(commands, nodes.Keys, handedOut, nextCommand, n);
      assert (nodes - {n}).Keys == nodes.Keys - {n};
      nodes := nodes - {n};
      agentTokens := TokensOfOthers(agentTokens, n);
      commands := CommandsOfOthers(commands, n);
      reply := Ok(());
    }
  }

  function Unlink(nodes: map<int, Node>, token: int): (r: map<int, Node>)
    ensures r.Keys == nodes.Keys
  {
    map n | n in nodes :: if nodes[n].enrolToken == Some(token) then nodes[n].(enrolToken := None) else nodes[n]
  }

  predicate KnownUuid(nodes: map<int, Node>, uuid: string) {
    exists n | n in nodes :: nodes[n].uuid == uuid
  }

  /** A decommissioned row with the same, non-empty serial number. */
  predicate Revivable(nodes: map<int, Node>, serial: string) {
    serial != "" && exists n | n in nodes :: !nodes[n].active && nodes[n].serial == serial
  }

  function RevokeAll(tokens: map<int, AgentToken>, n: int): (r: map<int, AgentToken>)
    ensures r.Keys == tokens.Keys
  {
    map a | a in tokens :: if tokens[a].node == n then tokens[a].(revoked := true) else tokens[a]
  }

  function MarkSent(commands: map<int, Command>, n: int): (r: map<int, Command>)
    ensures r.Keys == commands.Keys
  {
    map c | c in commands ::
      if commands[c].node == n && commands[c].status == Pending then commands[c].(status := Sent) else commands[c]
  }

  /** The elements of a set in some order, each once. */
  method Listed(s: set<int>) returns (r: seq<int>)
    ensures forall x :: x in r <==> x in s
    ensures forall i | 0 <= i < |r| :: r[i] in s
    ensures forall i, j | 0 <= i < j < |r| :: r[i] != r[j]
  {
    r := [];
    var left := s;
    while left != {}
      invariant left <= s
      invariant forall x :: x in r <==> x in s && x !in left
      invariant forall i | 0 <= i < |r| :: r[i] in s
      invariant forall i, j | 0 <= i < j < |r| :: r[i] != r[j]
      decreases left
    {
      var x := OneOf(left);
      r, left := r + [x], left - {x};
    }
  }

  datatype Enrolment = Enrolment(node: int, agentSecret: nat)

  predicate KnownSecret(tokens: map<int, EnrolToken>, secret: nat) {
    exists t | t in tokens :: tokens[t].secret == secret
  }

  /** The row an enrolling machine gets: its own, one of a decommissioned machine with its serial, or a new one. */
  ghost predicate RowFor(nodes: map<int, Node>, m: Machine, n: int) {
    if KnownUuid(nodes, m.uuid) then n in nodes && nodes[n].uuid == m.uuid
    else if Revivable(nodes, m.serial) then n in nodes && !nodes[n].active && nodes[n].serial == m.serial
    else n !in nodes
  }

  /** The serial number is not written at enrolment; the first check-in brings it. */
  function EnrolledRow(nodes: map<int, Node>, n: int, m: Machine, token: int): Node {
    Node(m.uuid, if n in nodes then nodes[n].serial else "", true, Some(token), m.version)
  }

  /** A fact the agent leaves out of a check-in is not written. */
  function RefreshedRow(row: Node, serial: Option<string>, version: Option<string>): Node {
    row.(serial := if serial.Some? then serial.value else row.serial,
         version := if version.Some? then version.value else row.version)
  }

  function Spent(tokens: map<int, EnrolToken>, t: int): map<int, EnrolToken>
    requires t in tokens
  {
    var e := tokens[t];
    if e.maxUses.Some? && e.useCount + 1 >= e.maxUses.value then tokens - {t}
    else tokens[t := e.(useCount := e.useCount + 1)]
  }

  /** The node a bearer secret stands for. Secrets are unique, so at most one row can match. */
  ghost function Authenticated(tokens: map<int, AgentToken>, secret: nat): (n: Option<int>)
    ensures n.Some? <==> exists a | a in tokens :: tokens[a].secret == secret && !tokens[a].revoked
  {
    if a :| a in tokens && tokens[a].secret == secret && !tokens[a].revoked then Some(tokens[a].node) else None
  }

  function PendingOf(commands: map<int, Command>, n: int): set<int> {
    set c | c in commands && commands[c].node == n && commands[c].status == Pending
  }

  ghost predicate Distinct(ids: seq<int>) {
    forall i, j | 0 <= i < j < |ids| :: ids[i] != ids[j]
  }

  function WithUpdates(commands: map<int, Command>, targets: seq<int>, first: int): map<int, Command> {
    if targets == [] then commands
    else
      var last := |targets| - 1;
      WithUpdates(commands, targets[..last], first)[first + last := Command(targets[last], "update_agent", Pending)]
  }

  function TokensOfOthers(tokens: map<int, AgentToken>, n: int): map<int, AgentToken> {
    map a | a in tokens && tokens[a].node != n :: tokens[a]
  }

  function CommandsOfOthers(commands: map<int, Command>, n: int): map<int, Command> {
    map c | c in commands && commands[c].node != n :: commands[c]
  }

  lemma FreshBearer(tokens: map<int, AgentToken>, nodes: map<int, Node>, nextNode: int, nextToken: int, nextSecret: nat)
    requires NodesOk(nodes, tokens, nextNode, nextToken, nextSecret)
    ensures nextToken !in tokens
  {}

  ghost predicate UniqueUuids(nodes: map<int, Node>) {
    forall j, k | j in nodes && k in nodes && nodes[j].uuid == nodes[k].uuid :: j == k
  }

  lemma UuidsAreUnique(tokens: map<int, AgentToken>, nodes: map<int, Node>, nextNode: int, nextToken: int,
                       nextSecret: nat)
    requires NodesOk(nodes, tokens, nextNode, nextToken, nextSecret)
    ensures UniqueUuids(nodes)
  {}

  lemma ReadyForABearer(nodes: map<int, Node>, bearers: map<int, AgentToken>, n: int, m: Machine, t: int)
    ensures EnrolledRow(nodes, n, m, t).active
    ensures forall a | a in RevokeAll(bearers, n) && RevokeAll(bearers, n)[a].node == n ::
              RevokeAll(bearers, n)[a].revoked
  {}

  /** The tables after the statements of an enrolment. */
  ghost predicate Admitted(tokens: map<int, EnrolToken>, nodes: map<int, Node>, bearers: map<int, AgentToken>, t: int,
                           m: Machine, e: Enrolment, a: int, tokens': map<int, EnrolToken>, nodes': map<int, Node>,
                           bearers': map<int, AgentToken>) {
    && t in tokens && RowFor(nodes, m, e.node) && tokens' == Spent(tokens, t)
    && nodes' == (var rows := nodes[e.node := EnrolledRow(nodes, e.node, m, t)];
                  if t in tokens' then rows else Unlink(rows, t))
    && bearers' == RevokeAll(bearers, e.node)[a := AgentToken(e.node, e.agentSecret, false)]
  }

  lemma AdmittedMeans(tokens: map<int, EnrolToken>, nodes: map<int, Node>, bearers: map<int, AgentToken>, t: int,
                      m: Machine, e: Enrolment, a: int, tokens': map<int, EnrolToken>, nodes': map<int, Node>,
                      bearers': map<int, AgentToken>)
    requires Admitted(tokens, nodes, bearers, t, m, e, a, tokens', nodes', bearers') && UniqueUuids(nodes)
               && a !in bearers
    ensures TokenSpent(tokens, tokens', t) && RowChosen(nodes, m, e.node)
    ensures RowEnrolled(nodes, nodes', m, e.node, t, t in tokens')
    ensures BearerIssued(bearers, bearers', e.node, e.agentSecret)
  {
    EnrolledMeans(tokens, nodes, bearers, t, m, e.node);
    hide Spent, EnrolledRow, RowFor, Unlink, TokenSpent, RowChosen, RowEnrolled;
  }

  /** The tables an enrolment computes, row by row. */
  lemma EnrolledMeans(tokens: map<int, EnrolToken>, nodes: map<int, Node>, bearers: map<int, AgentToken>, t: int,
                      m: Machine,
                      n: int)
    requires t in tokens && RowFor(nodes, m, n)
    ensures TokenSpent(tokens, Spent(tokens, t), t) && BearersRevoked(bearers, RevokeAll(bearers, n), n)
    ensures UniqueUuids(nodes) ==> RowChosen(nodes, m, n)
    ensures var rows := nodes[n := EnrolledRow(nodes, n, m, t)];
            var left := t in Spent(tokens, t);
            RowEnrolled(nodes, if left then rows else Unlink(rows, t), m, n, t, left)
  {}

  lemma RevokedMeans(bearers: map<int, AgentToken>, n: int)
    ensures BearersRevoked(bearers, RevokeAll(bearers, n), n)
  {}

  lemma CheckedInMeans(nodes: map<int, Node>, n: int, serial: Option<string>, version: Option<string>)
    requires n in nodes
    ensures var arrived := nodes[n].enrolToken;
            var rows := if arrived.Some? then Unlink(nodes, arrived.value) else nodes;
            RowRefreshed(nodes, rows[n := RefreshedRow(rows[n], serial, version)], n, serial, version)
  {}

  lemma SentMeans(commands: map<int, Command>, ids: seq<int>, n: int)
    requires forall c :: c in ids <==> c in PendingOf(commands, n)
    ensures CommandsSent(commands, MarkSent(commands, n), ids, n)
  {}

  /** One pending update command for each target, under the id listed for it, and nothing else changes. */
  ghost predicate UpdatesQueued(before: map<int, Command>, after: map<int, Command>, targets: seq<int>,
                                queued: seq<int>) {
    && |queued| == |targets|
    && (forall i | 0 <= i < |queued| ::
          queued[i] in after && after[queued[i]] == Command(targets[i], "update_agent", Pending))
    && (forall c | c in before :: c in after && after[c] == before[c])
    && (forall c | c in after :: c in before || c in queued)
  }

  lemma NothingQueued(commands: map<int, Command>)
    ensures UpdatesQueued(commands, WithUpdates(commands, [], 0), [], [])
    ensures WithUpdates(commands, [], 0) == commands
  {}

  lemma {:induction false} UpdatesAre(commands: map<int, Command>, targets: seq<int>, first: int, queued: seq<int>)
    requires |queued| == |targets| && forall i | 0 <= i < |queued| :: queued[i] == first + i
    requires forall c | c in commands :: c < first
    ensures UpdatesQueued(commands, WithUpdates(commands, targets, first), targets, queued)
  {
    if targets != [] {
      var last := |targets| - 1;
      var front := queued[..last];
      UpdatesAre(commands, targets[..last], first, front);
      assert forall i | 0 <= i < last :: front[i] == queued[i] && targets[..last][i] == targets[i];
      assert forall c | c in front :: c in queued;
      assert queued[last] in queued;
    }
  }

  lemma FreshToken(tokens: map<int, EnrolToken>, uses: map<nat, nat>, limits: map<nat, Option<int>>, nextToken: int,
                   nextSecret: nat)
    requires TokensOk(tokens, uses, limits, nextToken, nextSecret)
    ensures nextToken !in tokens && Uses(uses, nextSecret) == 0
  {}

  lemma OldSecretIsGone(tokens: map<int, EnrolToken>, uses: map<nat, nat>, limits: map<nat, Option<int>>,
                        nextToken: int, nextSecret: nat, t: int, e: EnrolToken)
    requires TokensOk(tokens, uses, limits, nextToken, nextSecret) && t in tokens && e.secret == nextSecret
    ensures !KnownSecret(tokens[t := e], tokens[t].secret)
  {}

  /** Deleting a token row makes its secret worthless, whatever uses it had left. */
  lemma DroppedSecretIsGone(tokens: map<int, EnrolToken>, uses: map<nat, nat>, limits: map<nat, Option<int>>,
                            nextToken: int, nextSecret: nat, t: int)
    requires TokensOk(tokens, uses, limits, nextToken, nextSecret) && t in tokens
    ensures !KnownSecret(tokens - {t}, tokens[t].secret)
  {}

  lemma FreshNode(nodes: map<int, Node>, tokens: map<int, AgentToken>, nextNode: int, nextToken: int, nextSecret: nat,
                  m: Machine, n: int)
    requires NodesOk(nodes, tokens, nextNode, nextToken, nextSecret)
    requires if KnownUuid(nodes, m.uuid) then n in nodes && nodes[n].uuid == m.uuid
             else if Revivable(nodes, m.serial) then n in nodes && !nodes[n].active && nodes[n].serial == m.serial
             else n == nextNode
    ensures RowFor(nodes, m, n)
    ensures forall k | k in nodes && k != n :: nodes[k].uuid != m.uuid
  {}

  lemma SameUuidOnly(nodes: map<int, Node>, tokens: map<int, AgentToken>, nextNode: int, nextToken: int,
                     nextSecret: nat, n: int)
    requires NodesOk(nodes, tokens, nextNode, nextToken, nextSecret) && n in nodes
    ensures forall k | k in nodes && k != n :: nodes[k].uuid != nodes[n].uuid
  {}

  // ---- Whole runs ------------------------------------------------------------------------

  /** One request to the server, from an agent or from an administrator. */
  datatype Request =
    | CreateToken(expiresAt: Option<int>, maxUses: Option<int>)
    | RotateToken(id: int)
    | RevokeToken(id: int)
    | DeleteToken(id: int)
    | Enroll(secret: nat, machine: Machine, now: int)
    | Checkin(secret: nat, serial: Option<string>, version: Option<string>)
    | ReportResult(secret: nat, id: int, failed: bool)
    | QueueCommand(node: int, kind: string)
    | PushAgentUpdate(selected: set<int>, all: bool, latest: Option<string>)
    | Decommission(node: int)
    | DeleteNode(node: int)

  /** A command below `bound` is one that was there before, and has not gone back to pending. */
  ghost predicate Onward(before: map<int, Command>, bound: int, after: map<int, Command>) {
    forall c | c in after && c < bound :: c in before && (before[c].status != Pending ==> after[c].status != Pending)
  }

  lemma UpdatesAddOnly(commands: map<int, Command>, targets: seq<int>, first: int)
    ensures Onward(commands, first, WithUpdates(commands, targets, first))
  {}

  lemma OnwardWithout(commands: map<int, Command>, bound: int, n: int)
    ensures Onward(commands, bound, commands)
    ensures Onward(commands, bound, MarkSent(commands, n))
    ensures Onward(commands, bound, CommandsOfOthers(commands, n))
  {}

  lemma OnwardWith(commands: map<int, Command>, bound: int, c: int, command: Command)
    requires c >= bound || (c in commands && command.status != Pending)
    ensures Onward(commands, bound, commands[c := command])
  {}

  /** What no request undoes: the history grows, limits stand, and commands only move onward. */
  twostate predicate Advanced(server: Server)
    reads server
  {
    && old(server.handedOut) <= server.handedOut && old(server.recipients) <= server.recipients
    && old(server.nextCommand) <= server.nextCommand
    && Onward(old(server.commands), old(server.nextCommand), server.commands)
    && LimitsStand(old(server.limits), server.limits)
  }

  // ---- Secrets over runs ------------------------------------------------------------------

  /** A row that lets its secret enrol at `now`. */
  predicate Usable(e: EnrolToken, now: int) {
    !e.revoked && !(e.expiresAt.Some? && e.expiresAt.value < now) && (e.maxUses.None? || e.useCount < e.maxUses.value)
  }

  /** A row has a secret newer than `bound`, or is one that was there: not revived, nor given more time or uses. */
  ghost predicate RowsStand(before: map<int, EnrolToken>, bound: nat, after: map<int, EnrolToken>) {
    forall t | t in after && after[t].secret < bound ::
      && t in before && after[t].secret == before[t].secret
      && after[t].expiresAt == before[t].expiresAt && after[t].maxUses == before[t].maxUses
      && (before[t].revoked ==> after[t].revoked)
  }

  /** A use is counted for no secret, or for the one an enrolment came with, which a row of the time let in. */
  ghost predicate UsesCounted(tokens: map<int, EnrolToken>, before: map<nat, nat>, after: map<nat, nat>, r: Request) {
    after == before ||
    (&& r.Enroll?
     && (exists t | t in tokens :: tokens[t].secret == r.secret && Usable(tokens[t], r.now))
     && (forall s | s != r.secret :: Uses(after, s) == Uses(before, s)))
  }

  twostate predicate SecretsStand(server: Server, r: Request)
    reads server
  {
    && old(server.nextSecret) <= server.nextSecret
    && RowsStand(old(server.enrolTokens), old(server.nextSecret), server.enrolTokens)
    && UsesCounted(old(server.enrolTokens), old(server.uses), server.uses, r)
  }

  /** No request of the run can enrol with the secret: its row, if there is one, is revoked or has run out by then. */
  ghost predicate Barred(tokens: map<int, EnrolToken>, secret: nat, requests: seq<Request>) {
    forall t, r | t in tokens && tokens[t].secret == secret && r in requests && r.Enroll? && r.secret == secret ::
      tokens[t].revoked || (tokens[t].expiresAt.Some? && tokens[t].expiresAt.value < r.now)
  }

  lemma RowsStandStill(tokens: map<int, EnrolToken>, bound: nat, t: int, e: EnrolToken)
    ensures RowsStand(tokens, bound, tokens) && RowsStand(tokens, bound, tokens - {t})
    ensures e.secret >= bound ==> RowsStand(tokens, bound, tokens[t := e])
    ensures t in tokens ==> RowsStand(tokens, bound, tokens[t := tokens[t].(revoked := true)])
    ensures t in tokens && e == tokens[t].(useCount := e.useCount) ==> RowsStand(tokens, bound, tokens[t := e])
  {}

  lemma SpentStands(tokens: map<int, EnrolToken>, bound: nat, tokens': map<int, EnrolToken>, t: int)
    ensures TokenSpent(tokens, tokens', t) ==> RowsStand(tokens, bound, tokens')
  {}

  lemma RowsStandChain(a: map<int, EnrolToken>, boundA: nat, b: map<int, EnrolToken>, boundB: nat,
                       c: map<int, EnrolToken>)
    requires boundA <= boundB && RowsStand(a, boundA, b) && RowsStand(b, boundB, c)
    ensures RowsStand(a, boundA, c)
  {}

  lemma NobodyCounted(tokens: map<int, EnrolToken>, uses: map<nat, nat>, r: Request)
    ensures UsesCounted(tokens, uses, uses, r)
  {}

  lemma OneCounted(tokens: map<int, EnrolToken>, uses: map<nat, nat>, t: int, n: nat, r: Request)
    requires t in tokens && r.Enroll? && tokens[t].secret == r.secret && Usable(tokens[t], r.now)
    ensures UsesCounted(tokens, uses, uses[r.secret := n], r)
  {}

  /** What is barred stays barred, and is not counted. */
  lemma BarredStep(tokens: map<int, EnrolToken>, bound: nat, now: map<int, EnrolToken>, uses: map<nat, nat>,
                   uses': map<nat, nat>, requests: seq<Request>, r: Request, secret: nat)
    requires RowsStand(tokens, bound, now) && UsesCounted(now, uses, uses', r) && r in requests
    requires secret < bound && Barred(tokens, secret, requests)
    ensures Uses(uses', secret) == Uses(uses, secret)
  {}

  ghost predicate LimitsStand(before: map<nat, Option<int>>, after: map<nat, Option<int>>) {
    forall s | s in before :: s in after && after[s] == before[s]
  }

  method ServeMachine(server: Server, request: Request)
    requires server.Valid() && request.Enroll?
    modifies server
    ensures server.Valid()
    ensures Advanced(server) && SecretsStand(server, request)
  {
    hide TokensOk, NodesOk, CommandsOk, Onward, RowChosen;
    hide RowEnrolled, BearerIssued, TokenSpent, RowsStand, UsesCounted;
    OnwardWithout(server.commands, server.nextCommand, 0);
    var reply, t := server.Enroll(request.secret, request.machine, request.now);
    RowsStandStill(old(server.enrolTokens), old(server.nextSecret), 0, EnrolToken(0, None, None, 0, false));
    NobodyCounted(old(server.enrolTokens), old(server.uses), request);
    if reply.Ok? {
      SpentStands(old(server.enrolTokens), old(server.nextSecret), server.enrolTokens, t);
      OneCounted(old(server.enrolTokens), old(server.uses), t, old(server.enrolTokens)[t].useCount + 1, request);
    }
  }

  method ServeEnrolment(server: Server, request: Request)
    requires server.Valid()
    modifies server
    ensures server.Valid()
    ensures Advanced(server) && SecretsStand(server, request)
  {
    hide TokensOk, NodesOk, CommandsOk, Onward, LimitsStand, KnownSecret, Unlink, RevokeAll, RowsStand, UsesCounted;
    ghost var tokens, bound := server.enrolTokens, server.nextSecret;
    NobodyCounted(tokens, server.uses, request);
    match request {
      case CreateToken(expiresAt, maxUses) =>
        OnwardWithout(server.commands, server.nextCommand, 0);
        NoSecretIsReissued(tokens, server.uses, server.limits, server.nextEnrolToken, bound, maxUses);
        var id, secret := server.CreateToken(expiresAt, maxUses);
        RowsStandStill(tokens, bound, id, EnrolToken(secret, expiresAt, maxUses, 0, false));
      case RotateToken(id) =>
        OnwardWithout(server.commands, server.nextCommand, 0);
        LimitsStay(server.limits);
        RowsStandStill(tokens, bound, id, EnrolToken(bound, None, None, 0, false));
        if id in tokens {
          NoSecretIsReissued(tokens, server.uses, server.limits, server.nextEnrolToken, bound, tokens[id].maxUses);
          RowsStandStill(tokens, bound, id, tokens[id].(secret := bound, useCount := 0));
        }
        var _ := server.RotateToken(id);
      case _ => ServeRemoval(server, request);
    }
  }

  method ServeRemoval(server: Server, request: Request)
    requires server.Valid()
    modifies server
    ensures server.Valid()
    ensures Advanced(server) && SecretsStand(server, request)
  {
    hide TokensOk, NodesOk, CommandsOk, Onward, LimitsStand, KnownSecret, Unlink, Unlinked, RevokeAll, BearersRevoked;
    hide RowsStand, UsesCounted;
    OnwardWithout(server.commands, server.nextCommand, 0);
    LimitsStay(server.limits);
    NobodyCounted(server.enrolTokens, server.uses, request);
    RowsStandStill(server.enrolTokens, server.nextSecret, if request.RevokeToken? || request.DeleteToken?
        then request.id else 0,
                   EnrolToken(0, None, None, 0, false));
    match request {
      case RevokeToken(id) => var _ := server.RevokeToken(id);
      case DeleteToken(id) => var _ := server.DeleteToken(id);
      case Decommission(node) => var _ := server.Decommission(node);
      case _ =>
    }
  }

  lemma LimitsStay(limits: map<nat, Option<int>>)
    ensures LimitsStand(limits, limits)
  {}

  method ServeCommands(server: Server, request: Request)
    requires server.Valid()
    modifies server
    ensures server.Valid()
    ensures Advanced(server) && SecretsStand(server, request)
  {
    hide TokensOk, NodesOk, CommandsOk, Onward, Authenticated, WithUpdates, Distinct, PendingOf, LimitsStand;
    hide RowsStand, UsesCounted, CommandsSent, RowRefreshed, UpdatesQueued, RefreshedRow, Unlink, KnownSecret;
    LimitsStay(server.limits);
    NobodyCounted(server.enrolTokens, server.uses, request);
    RowsStandStill(server.enrolTokens, server.nextSecret, 0, EnrolToken(0, None, None, 0, false));
    ghost var was, bound := server.commands, server.nextCommand;
    OnwardWithout(was, bound, 0);
    match request {
      case Checkin(secret, serial, version) =>
        ghost var n := Authenticated(server.agentTokens, secret);
        ghost var tokens, nodes := server.enrolTokens, server.nodes;
        var _ := server.Checkin(secret, serial, version);
        if n.Some? {
          if nodes[n.value].enrolToken.Some? {
            RowsStandStill(tokens, server.nextSecret, nodes[n.value].enrolToken.value,
                EnrolToken(0, None, None, 0, false));
          }
          OnwardWithout(was, bound, n.value);
        }
      case ReportResult(secret, id, failed) =>
        var reply := server.ReportResult(secret, id, failed);
        if reply.Ok? {
          OnwardWith(was, bound, id, was[id].(status := if failed then Failed else Completed));
        }
      case QueueCommand(node, kind) =>
        var reply := server.QueueCommand(node, kind);
        if reply.Ok? {
          OnwardWith(was, bound, bound, Command(node, kind, Pending));
        }
      case PushAgentUpdate(selected, all, latest) =>
        var _, targets, _ := server.PushAgentUpdate(selected, all, latest);
        UpdatesAddOnly(was, targets, bound);
      case DeleteNode(node) =>
        var _ := server.DeleteNode(node);
        OnwardWithout(was, bound, node);
      case _ =>
    }
  }

  method Serve(server: Server, request: Request)
    requires server.Valid()
    modifies server
    ensures server.Valid()
    ensures Advanced(server) && SecretsStand(server, request)
  {
    hide TokensOk, NodesOk, CommandsOk, RowsStand, UsesCounted, Onward, LimitsStand;
    if request.Checkin? || request.ReportResult? || request.QueueCommand? || request.PushAgentUpdate?
        || request.DeleteNode? {
      ServeCommands(server, request);
    } else if request.Enroll? {
      ServeMachine(server, request);
    } else {
      ServeEnrolment(server, request);
    }
  }

  lemma NoSecretIsReissued(tokens: map<int, EnrolToken>, uses: map<nat, nat>, limits: map<nat, Option<int>>,
                           nextToken: int, nextSecret: nat,
                           maxUses: Option<int>)
    requires TokensOk(tokens, uses, limits, nextToken, nextSecret)
    ensures LimitsStand(limits, limits[nextSecret := maxUses])
  {}

  /**
   Any run of requests, from any state that runs can reach: machine ids stay
   unique, a node has at most one valid agent token and only while it is active,
   no secret enrols more often than the max_uses it was issued with, no command
   is handed out twice, and none goes back to pending.
   */
  method Run(server: Server, requests: seq<Request>)
    requires server.Valid()
    modifies server
    ensures server.Valid()
    ensures Advanced(server)
    ensures forall s | s in server.limits :: WithinUses(server.limits[s], Uses(server.uses, s))
    ensures forall n, m | n in server.nodes && m in server.nodes && server.nodes[n].uuid == server.nodes[m].uuid ::
              n == m
    ensures forall a, b | a in server.agentTokens && b in server.agentTokens && !server.agentTokens[a].revoked
                          && !server.agentTokens[b].revoked
                          && server.agentTokens[a].node == server.agentTokens[b].node :: a == b
    ensures forall a | a in server.agentTokens && !server.agentTokens[a].revoked ::
              server.agentTokens[a].node in server.nodes && server.nodes[server.agentTokens[a].node].active
    ensures Distinct(server.handedOut)
    // A secret that is revoked, has expired or is not known any more does not enrol again.
    ensures forall s: nat | s < old(server.nextSecret) && Barred(old(server.enrolTokens), s, requests) ::
              Uses(server.uses, s) == Uses(old(server.uses), s)
  {
    hide TokensOk, NodesOk, CommandsOk, Distinct, WithinUses, Uses, Barred, RowsStand, UsesCounted, Onward, LimitsStand;
    RowsStandStill(server.enrolTokens, server.nextSecret, 0, EnrolToken(0, None, None, 0, false));
    AllStands(server);
    for i := 0 to |requests|
      invariant server.Valid()
      invariant Advanced(server)
      invariant old(server.nextSecret) <= server.nextSecret
      invariant RowsStand(old(server.enrolTokens), old(server.nextSecret), server.enrolTokens)
      invariant forall s: nat | s < old(server.nextSecret) && Barred(old(server.enrolTokens), s, requests) ::
                  Uses(server.uses, s) == Uses(old(server.uses), s)
    {
      ghost var tokens, bound, uses := server.enrolTokens, server.nextSecret, server.uses;
      ghost var commands, next, limits := server.commands, server.nextCommand, server.limits;
      Serve(server, requests[i]);
      OnwardChain(old(server.commands), old(server.nextCommand), commands, next, server.commands);
      LimitsChain(old(server.limits), limits, server.limits);
      RowsStandChain(old(server.enrolTokens), old(server.nextSecret), tokens, bound, server.enrolTokens);
      forall s: nat | s < old(server.nextSecret) && Barred(old(server.enrolTokens), s, requests)
        ensures Uses(server.uses, s) == Uses(uses, s)
      {
        BarredStep(old(server.enrolTokens), old(server.nextSecret), tokens, uses, server.uses, requests, requests[i],
            s);
      }
    }
    ValidMeans(server);
  }

  /** Once a token is revoked, no run of requests enrols another machine with its secret. */
  method RevokedForGood(server: Server, id: int, requests: seq<Request>)
    requires server.Valid() && id in server.enrolTokens
    modifies server
    ensures server.Valid()
    ensures var secret := old(server.enrolTokens)[id].secret;
            Uses(server.uses, secret) == Uses(old(server.uses), secret)
  {
    SecretsAreDistinct(server, id);
    hide TokensOk, NodesOk, CommandsOk, Uses;
    var _ := server.RevokeToken(id);
    Run(server, requests);
  }

  lemma SecretsAreDistinct(server: Server, id: int)
    requires server.Valid() && id in server.enrolTokens
    ensures server.enrolTokens[id].secret < server.nextSecret
    ensures forall t | t in server.enrolTokens && server.enrolTokens[t].secret == server.enrolTokens[id].secret ::
              t == id
  {}

  lemma AllStands(server: Server)
    ensures Onward(server.commands, server.nextCommand, server.commands) && LimitsStand(server.limits, server.limits)
  {}

  lemma OnwardChain(a: map<int, Command>, boundA: int, b: map<int, Command>, boundB: int, c: map<int, Command>)
    requires boundA <= boundB && Onward(a, boundA, b) && Onward(b, boundB, c)
    ensures Onward(a, boundA, c)
  {}

  lemma LimitsChain(a: map<nat, Option<int>>, b: map<nat, Option<int>>, c: map<nat, Option<int>>)
    requires LimitsStand(a, b) && LimitsStand(b, c)
    ensures LimitsStand(a, c)
  {}

  lemma ValidMeans(server: Server)
    requires server.Valid()
    ensures forall s | s in server.limits :: WithinUses(server.limits[s], Uses(server.uses, s))
    ensures forall n, m | n in server.nodes && m in server.nodes && server.nodes[n].uuid == server.nodes[m].uuid ::
              n == m
    ensures forall a, b | a in server.agentTokens && b in server.agentTokens && !server.agentTokens[a].revoked
                          && !server.agentTokens[b].revoked
                          && server.agentTokens[a].node == server.agentTokens[b].node :: a == b
    ensures forall a | a in server.agentTokens && !server.agentTokens[a].revoked ::
              server.agentTokens[a].node in server.nodes && server.nodes[server.agentTokens[a].node].active
    ensures Distinct(server.handedOut)
  {}
}
