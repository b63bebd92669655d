# Verified models of pktNode's stateful protocols

pktNode manages a fleet of machines from a FastAPI server (`app/`) with a Go agent
on each machine (`agent/`). This project models the parts of both that keep state
over many requests, and proves what holds over whole runs. Tables are maps or
sequences, a handler is one transaction unless it is cut at its awaits, time is in
whole seconds (milliseconds where the breaker needs them), and hashes, HMAC and what a
base32 text decodes to are uninterpreted functions.

`dafny verify dfyconfig.toml` checks everything.

| files | what they model |
|---|---|
| `Throttle`, `Lockout`, `SignIn`, `TimeSpans` | the sign-in throttle, the account lockout, and the two handlers that use both |
| `Limiter`, `RateWindows`, `BreakerBounds` | the fixed-window limiter and the two-threshold breaker in front of Resonance |
| `AlertEngine`, `Groups` | the alert reconciler, its group overrides, and the handlers that write them |
| `Fleet`, `AgentLoop` | enrolment, agent tokens and the command queue, on the server and on the agent |
| `TerminalRelay`, `TerminalSessions`, `TerminalLink` | the live terminal relay as a state machine over every interleaving, how its sessions begin and end, and the objects that go through it |
| `FileTransfer`, `Uploads`, `Downloads`, `FileManager` | uploads and downloads on the agent: what a message does, runs of them with an upload or beside a download, and the object that does it |
| `DataSpec`, `RouteWalk`, `PageFit`, `JsonText`, `JsonValues` | the assistant's OpenAPI document, the route walk, and page trimming by the length of its JSON text |
| `LogForward` | syslog forwarding with octet-counted frames |
| `GoHook`, `Whitespace` | the block kept in `/boot/config/go` |
| `Totp`, `Decimals` | the override code in Python and in Go |
| `Wrappers`, `Collections` | small shared types and helpers |

Handlers that assign fields or rows are classes with those fields; every method
says what the new state is, as a function of the old one, and the lemmas say what
that function keeps or bounds over runs. The relay's handlers interleave at every
`await` and goroutine step: `TerminalRelay` states the steps as a function on
states and proves its invariant; the methods of `TerminalLink` are those steps on
fields.

## Where the code and its words differ

The models follow the code. What follows from that, each with a lemma or contract:

- A fixed window admits up to 2 * limit - 1 requests in a span of its own length,
  and not more, whatever the limit (`RateWindows.FewerThanTwiceTheLimit`,
  `RateWindows.TheBoundIsReached`); only a window of one second is kept to the limit
  (`RateWindows.OneSecondWindows`).
- The breaker truncates the seconds left, so it reads closed within the last second
  of a cooldown. One call per 30 (or 300) seconds holds if no request comes in that last
  second; in general it is one per 29 (or 299), the first of them 998 milliseconds early,
  and runs of any length do so (`BreakerBounds.OutboundCallsAreBounded`,
  `BreakerBounds.TheBoundsAreReached`).
- `int_setting` catches what `int()` raises of a text or a NaN, but not the
  OverflowError of a stored JSON `Infinity` (`Lockout.IntSetting`).
- `app/api/groups.py` calls the most recently saved override the winner. An upsert keeps
  its row id, so an older row saved again does not win against a higher id
  (`Groups.SavedOverrideWinsIff`, `Groups.LastSavedDoesNotWin`).
- `app/api/agent.py` says tokens without a use limit are exempt from deletion. A check-in
  deletes the token its node came in with whatever uses it has left, so the first machine
  to check in ends a shared link (`Fleet.Server.Checkin`).
- A command handed to the follow-up check-in of an agent is marked sent and executed by
  nobody: delivery is at most once (`AgentLoop.Agent.CheckinOnce`).
- A password change refused for a short new password rolls back the reset of the failure
  counter, though the current password was right (`SignIn.HandleChangePassword`).
- An upload reported as done need not be there under its name, nor whole: `Uploads.DoneMeans`
  says for every run of messages when it is. It is if nothing has moved the name, no later
  upload start has failed to create its file, and Close, whose error is ignored, reports
  none (`Uploads.UndisturbedUploadArrives`). A failed start removes the earlier upload's file and
  leaves its closed handle behind (`FileManager.DoneWithoutAFile`), unless os.Remove fails
  too (`FileManager.DoneThoughAStartFailed`); a delete does the same
  (`FileManager.DoneAfterADelete`). A partial file survives a reset exactly if it was given
  another name (`FileTransfer.ResetDropsOneName`).
- A superseded download sends at most the chunk it was reading and at most one error or
  done, stamped with the session id of that moment; after such a chunk no done
  (`Downloads.SendsChunksThenOneEnd`).
- `_fit` prices one byte per separator and encodes with two: the compact form that is sent
  fits, the spaced form it is priced in need not (`PageFit.PricedSpacingFitsWhen`,
  `PageFit.SpacedPageCanExceedTheBudget`).
- Adding and removing the boot hook leaves one newline each time (`GoHook.RoundsAddNewlines`).
- In the first thirty seconds of the epoch the server's `verify` raises instead of
  refusing, where the agent's counter wraps (`Totp.PythonVerify`, `Totp.GoVerify`).

## Model

| member | source | states |
|---|---|---|
| Throttle.Store.BlockedSeconds | app/auth/throttle.py:53-61 | the seconds left of an unexpired block row, at least one, or nothing |
| Throttle.Store.RecordFailure | app/auth/throttle.py:64-93 | the whole new content of both tables: rows older than a day purged, expired blocks dropped, the failure inserted, and at the limit the address's rows exchanged for a block |
| Throttle.PurgeNeverChangesADecision | app/auth/throttle.py:70-93 | after any run over any addresses an address is refused exactly when its complete, never purged history says so: the one-day purge never matters, as a window is at most a day |
| Throttle.FailuresPerWindowAreBounded | app/auth/throttle.py:53-93 | in any chronological run at most limit times ceil(window / block) failures of one address are counted in any half-open interval of the window's length |
| Throttle.LongBlockBoundsByLimit | app/auth/throttle.py:84-93 | with a block no shorter than the window, the limit itself is the bound |
| Throttle.SegmentsBound | app/auth/throttle.py:79-93 | history falls into segments, one per block, and an interval within a window meets at most one segment per block length, each with at most limit stamps |
| Throttle.BlocksExactlyAtTheLimit | app/auth/throttle.py:64-93 | within one window fewer failures than the limit never block an address, and the limit-th blocks it for exactly the configured minutes |
| TimeSpans.CeilDivIsQuotientRoundedUp | app/auth/throttle.py:53-93 | the number of block lengths in the bound is the quotient rounded up |
| Lockout.IntSetting | app/auth/lockout.py:59-68 | a number in 1..ceiling comes back as it is, anything else as the default, and only JSON's Infinity raises |
| Lockout.Accounts.RecordFailure | app/auth/lockout.py:75-101 | the counting UPDATE on one row, and the lock state read back from it |
| Lockout.Accounts.RecordSuccess | app/auth/lockout.py:104-108 | counters and the temporary lock are cleared; a permanent lock is not |
| Lockout.Accounts.Unlock | app/auth/lockout.py:111-118 | an admin unlock clears the whole lock state, and says whether the row exists |
| Lockout.SuccessAndUnlockStartOver | app/auth/lockout.py:104-118 | after a success, and after an unlock, the account is one nobody has failed on (a permanent lock stays until the unlock), so every bound starts over |
| Lockout.NoLockBeforeTheLimit | app/auth/lockout.py:75-101 | fewer failures than the limit lock nothing |
| Lockout.LocksAtTheLimit | app/auth/lockout.py:75-101 | the limit-th failure locks for half an hour to the second, the 2 * limit-th until an admin acts |
| Lockout.RowAccountsForFailures | app/auth/lockout.py:75-118 | under every interleaving of checks and recordings lockouts * limit + failed equals the failures recorded, and the permanent lock is on exactly from the 2 * limit-th |
| Lockout.ComparisonsAreBounded | app/auth/lockout.py:39-101 | with at most k attempts in flight no more than 2 * limit + k - 1 passwords are ever compared |
| Lockout.SequentialComparisonsAreBounded | app/api/auth.py:57-72 | attempts one after the other: at most 2 * limit comparisons |
| Lockout.OverlapReachesTheBound | app/auth/lockout.py:75-101 | for every limit and every number of attempts in flight a run reaches the bound |
| Lockout.PermanentUntilUnlock | app/auth/lockout.py:104-118 | a permanent lock survives every attempt, even a successful one, and stops all comparisons until an admin unlocks |
| Lockout.FirstLockHolds | app/auth/lockout.py:39-47 | the first lock lasts its half hour: failures still in flight neither shorten nor move it |
| SignIn.HandleLogin | app/api/auth.py:36-89 | the whole handler: throttle, lock, comparison and recording in their order, as one function of both tables |
| SignIn.HandleChangePassword | app/api/users.py:71-111 | the other place a password is checked, with the rollback of the counter reset when the new password is too short |
| SignIn.GrantedIff | app/api/auth.py:36-89 | for every world and request: granted iff the address is free, the account open, the password right and a new one long enough; the account then has no failures, lockouts or temporary lock, and nothing else has changed |
| SignIn.RefusedAtOnce | app/api/auth.py:40-60 | a blocked address and a locked account are refused before any comparison, with the time left or the lock as it stands, and nothing changes |
| SignIn.AnswerAfterAFailure | app/api/auth.py:62-70 | a failed check is answered by what the tables and the row say once it is recorded: blocked, locked, or bad credentials |
| SignIn.NobodyGuessesIn | app/api/users.py:83-104 | over any run without the password of an account no request that names it is ever granted |
| SignIn.RefusedBeforeComparison | app/api/auth.py:40-60 | while the address is blocked, the account locked or the name no active account, neither answer nor state depends on the password and no user row changes; all that is recorded is a failed name against its address |
| SignIn.FailedComparisonCostsBoth | app/api/auth.py:62-72 | every failed comparison costs the account and the address one failure each |
| SignIn.GuessesPerAccountAreBounded | app/api/auth.py:57-72 | over any run of both handlers, from any addresses, at most 2 * limit passwords of one account are compared, and exactly so many when the lock is permanent |
| SignIn.ThrottleSeesEveryFailedCheck | app/api/auth.py:40-72 | what the throttle is told of is exactly the failed checks, and what it counts is exactly those of the address |
| SignIn.FailedChecksPerWindowAreBounded | app/api/users.py:83-104 | over any run of both handlers the throttle's bound holds for the failed credential checks of an address |
| Limiter.Guard.Consume | app/integrations/resonance/limiter.py:43-73 | the upsert of one bucket's fixed window, and admission exactly up to the limit |
| Limiter.Guard.ConsumeForUser | app/integrations/resonance/limiter.py:76-80 | the user's bucket first, the install's only if that admits |
| Limiter.Guard.RecordSuccess | app/integrations/resonance/limiter.py:120-125 | closes the breaker and forgets failures |
| Limiter.Guard.RecordFailure | app/integrations/resonance/limiter.py:128-156 | counts, and opens for 30 or 300 seconds at the threshold of the kind of error |
| Limiter.Guard.ResonanceCode | app/api/resonance.py:276-295 | the route from the limiter on: limiter, breaker, call, record |
| Limiter.RetryIn | app/integrations/resonance/limiter.py:90-117 | the truncated seconds left are positive exactly while at least one whole second is left |
| Limiter.ServeAnswers | app/api/resonance.py:276-295 | the answer of every call from the rows and the breaker: 429 iff a bucket is over its limit, 503 iff at least a whole second of the pause is left, otherwise as the client answered; a code leaves the breaker as new |
| Limiter.ServeChargesOneUser | app/integrations/resonance/limiter.py:76-80 | serving a call changes one user's row and no other's, and a call that goes out was within the limit |
| Limiter.OverLimitSpendsNothingGlobal | app/integrations/resonance/limiter.py:76-80 | a user over their own limit spends nothing of the install's allowance and does not touch the breaker |
| RateWindows.WindowsAdmitTheirFirst | app/integrations/resonance/limiter.py:43-73 | every fixed window admits exactly its first limit requests |
| RateWindows.EpisodesApart | app/integrations/resonance/limiter.py:47-63 | a window opens with a request, holds requests of less than its length, and the next opens no sooner than its end |
| RateWindows.FewerThanTwiceTheLimit | app/integrations/resonance/limiter.py:43-73 | any half-open interval as long as the window admits at most 2 * limit - 1 requests of a bucket |
| RateWindows.TheBoundIsReached | app/integrations/resonance/limiter.py:43-73 | for every limit and every window of at least two seconds a run reaches 2 * limit - 1 |
| RateWindows.OneSecondWindows | app/integrations/resonance/limiter.py:43-73 | in windows of one second the limit itself is the bound |
| RateWindows.BucketsAreIndependent | app/integrations/resonance/limiter.py:76-80 | the row of a user's bucket after any run of the route is that of the user's own requests alone |
| RateWindows.UserReachesAtMost | app/integrations/resonance/limiter.py:32-80 | one user's calls get past the limiter at most 39 times in any ten minutes, whatever others do |
| RateWindows.SharedAlwaysInStep | app/integrations/resonance/limiter.py:76-80 | the install's bucket counts exactly the calls within their user's limit, and what gets past the limiter is among what that bucket admits |
| RateWindows.AllUsersReachAtMost | app/integrations/resonance/limiter.py:32-80 | all users together get past the limiter at most 1,199 times in any ten minutes |
| BreakerBounds.OutboundCallsAreBounded | app/integrations/resonance/limiter.py:83-156 | from a closed breaker without a success, any mix of errors: in T milliseconds from the first request to the last at most 6 + (T + 998) / 29,000 calls go out, and 6 + T' / 30,000 with T' from the whole second before the first request, if none comes in the last second of a cooldown, as none on whole seconds does |
| BreakerBounds.ConfigErrorsAreBoundedHarder | app/integrations/resonance/limiter.py:83-156 | only configuration errors: at most 2 + (T + 998) / 299,000, or 2 + T' / 300,000, calls go out |
| BreakerBounds.BoundsStartOver | app/integrations/resonance/limiter.py:120-156 | the bounds hold from any state right after a success |
| BreakerBounds.CalmRunsAreNeverPaused | app/integrations/resonance/limiter.py:120-156 | a run whose failures since the last success stay below their threshold is never paused |
| BreakerBounds.OpensAtTheThreshold | app/integrations/resonance/limiter.py:128-156 | the failure that reaches the threshold of its kind lets nothing out for its cooldown, less the last second |
| BreakerBounds.WholeSecondsArePatient | app/integrations/resonance/limiter.py:100-117 | requests on whole seconds never come in the last second of a cooldown |
| BreakerBounds.TheBoundsAreReached | app/integrations/resonance/limiter.py:100-117 | why not 30 for all: for either kind of error and any number of calls past the threshold there is a run in which all go out and the bound is met with equality, since the breaker reads closed within the last second |
| AlertEngine.ResolveGroupOverride | app/alerts/engine.py:109-123 | the loop gives, for each field by itself, the value of the last matching row that sets it, whatever the order of the tags |
| AlertEngine.HighestIdWins | app/alerts/engine.py:108-123 | that is the non-null value with the highest row id among the groups' rows, and nothing only if no row has one |
| AlertEngine.HighestIdWinsThreshold | app/alerts/engine.py:108-123 | the same for the threshold |
| AlertEngine.HighestRowDecides | app/alerts/engine.py:95-123 | of all rows of the table, what is resolved for a node is in the one with the highest id among those of the rule and of the node's groups that set the field |
| AlertEngine.Engine.Fire | app/alerts/engine.py:125-145 | an event is inserted exactly if none is open for the pair |
| AlertEngine.Engine.ResolveOpen | app/alerts/engine.py:147-154 | closes the open events of the pair and nothing else |
| AlertEngine.Engine.EvalNodeOffline | app/alerts/engine.py:182-235 | after the three passes a node has an open event iff it is active, has checked in, is past the threshold, and its own override is on, or without one the deciding group row, or without one the global setting; rows of other rules are untouched |
| AlertEngine.Engine.EvalDiskLow | app/alerts/engine.py:237-261 | each active node with disk data has an open event iff not disabled by a group and below its effective threshold |
| AlertEngine.Engine.EvalMetricHigh | app/alerts/engine.py:263-296 | each active node with readings in the window has an open event iff not disabled by a group and its average is above its effective threshold |
| AlertEngine.ReconciledAsConfigured | app/alerts/engine.py:182-296 | on the tables alone: a node past the threshold has an open event as its own override says, else as the highest-id group row that sets the field, else as the global setting; disk and averages are judged against the deciding group row, the rule or the default |
| AlertEngine.TallyIsOfReadings | app/alerts/engine.py:263-296 | the average is over exactly the node's non-null readings within the window |
| AlertEngine.Engine.EvaluateOnce | app/alerts/engine.py:156-180 | one pass leaves every enabled rule reconciled, changes no pair that no enabled rule judges, keeps at most one open event per pair, and writes nothing if all was settled |
| AlertEngine.OneRowPerOpenedPair | app/alerts/engine.py:125-180 | a pass adds exactly one row for each pair it opens, and none besides |
| AlertEngine.Engine.EvaluateTwice | app/alerts/engine.py:156-180 | after one pass every enabled rule is reconciled and only judged pairs have changed; a second pass over the same tables at the same instant changes nothing |
| AlertEngine.OnlyCheckedInKept | app/alerts/engine.py:196-235 | open events only ever name nodes that have checked in, which the offline pass relies on |
| AlertEngine.Engine.DeleteRows | app/alerts/engine.py:125-154 | deleting rows of alert_events keeps the table's invariant and opens nothing |
| AlertEngine.ResolveAllClosesOnePair | app/alerts/engine.py:147-154 | the UPDATE takes exactly one pair out of the open ones, and is no write when the pair is not open |
| Groups.Tables.CreateGroup | app/api/groups.py:68-78 | a name, stripped, becomes a group unless it is empty or taken |
| Groups.Tables.DeleteGroup | app/api/groups.py:81-104 | the group, its override rows and its name in every node's list are gone, everything else stays; tags still name existing groups only |
| Groups.Tables.SetGroupOverride | app/api/groups.py:112-141 | the upsert: an existing row is updated in its place and keeps its id, an empty override deletes the row |
| Groups.Tables.UpdateNodeTags | app/api/nodes.py:224-257 | a list that names something that is not a group is refused and changes nothing |
| Groups.DeletedGroupNeverContributes | app/api/groups.py:81-104 | what the rows left after a deletion say to a node is what all rows say to it without the group |
| Groups.SavedOverrideWinsIff | app/alerts/engine.py:108-123 | saving an override decides for a node of the group exactly when no row with a higher id of another of its groups sets the field |
| Groups.SavedThresholdWinsIff | app/alerts/engine.py:108-123 | the same for the threshold |
| Groups.LastSavedDoesNotWin | app/alerts/engine.py:109-123 | so the docstring's most recently saved override need not win: two groups where it does not |
| Fleet.Server.CreateToken | app/api/enrollment.py:60-87 | a fresh row under a fresh secret, counting from zero |
| Fleet.Server.RotateToken | app/api/enrollment.py:90-116 | a fresh secret and a zero count for the same row; no row has the old secret any more; a revoked row is refused |
| Fleet.Server.RevokeToken | app/api/enrollment.py:119-130 | exactly that row becomes revoked |
| Fleet.Server.DeleteToken | app/api/enrollment.py:133-140 | the row goes and nodes stop referring to it |
| Fleet.Server.Enroll | app/api/agent.py:64-166 | refused as unknown, revoked, expired or used up exactly as the token's own columns say, in this order and without effect; otherwise the machine's own row, a decommissioned one with its serial number, or a new one is written, its old tokens are revoked, one new token is issued, and the enrolment token is spent |
| Fleet.Server.UpsertNode | app/api/agent.py:91-143 | machine ids stay unique: the row chosen is the only one that may carry the id |
| Fleet.Server.SpendToken | app/api/agent.py:150-166 | one more use is counted, and the last one deletes the row |
| Fleet.Server.CurrentNode | app/dependencies.py:81-109 | the bearer of an unrevoked token is a node that exists and is active |
| Fleet.Server.Checkin | app/api/agent.py:331-480 | exactly the node's pending commands, each once, and only those become sent; the enrolment token the node came in with is deleted and its secret unknown, whatever uses it had left |
| Fleet.Server.HandOut | app/api/agent.py:457-474 | the SELECT and UPDATE of the pending commands as one step on the history |
| Fleet.Server.ReportResult | app/api/agent.py:516-551 | only the node's own command changes, to completed or failed |
| Fleet.Server.QueueCommand | app/api/nodes.py:419-447 | a new pending command under an id never handed out, for an active node and a known type |
| Fleet.Server.PushAgentUpdate | app/api/nodes.py:471-508 | one update command for each selected active node that is not on the latest version |
| Fleet.Server.Decommission | app/api/nodes.py:282-316 | the node becomes inactive and all its tokens are revoked |
| Fleet.Server.DeleteNode | app/api/nodes.py:338-357 | the node goes with its tokens and commands |
| Fleet.Run | app/api/agent.py:64-551 | over any run of requests: machine ids unique, at most one unrevoked token per node and only for an active one, no secret used beyond the max_uses it was issued with, no command handed out twice, none back to pending, and no use counted for a secret that is revoked, past its expiry or unknown |
| Fleet.RevokedForGood | app/api/agent.py:67-84 | once a token is revoked no run of requests enrols with its secret |
| Fleet.CommandsHandOut | app/api/agent.py:457-474 | handing out pending commands repeats no id of the history |
| Fleet.TokensSpend | app/api/agent.py:150-166 | counting one more use keeps every secret within its limit |
| Fleet.DroppedSecretIsGone | app/api/agent.py:347-351 | a deleted token row leaves its secret unknown to every later enrolment |
| AgentLoop.Agent.CheckinOnce | agent/internal/agentloop/loop.go:185-242 | with requests of others served in between: everything a check-in hands out is executed once, or lost with the response, the machine or the follow-up; a follow-up is made exactly if a docker or VM command ran, and leaves nothing pending |
| AgentLoop.Agent.Ask | agent/internal/agentloop/loop.go:213-235 | what a check-in brings is new to this agent |
| AgentLoop.Agent.ExecuteNext | agent/internal/agentloop/loop.go:210-218 | the next command of the response is executed; if the agent lives and its report arrives, the command is failed or completed as reported, unless the node's token or the command is gone by then |
| AgentLoop.NoCommandRunsOnTwoMachines | agent/internal/agentloop/loop.go:209-238 | what two valid agents of different bearers have executed is disjoint |
| AgentLoop.Interleave | agent/internal/agentloop/loop.go:185-242 | for any number of agents, their check-ins, executions, reports and restarts interleaved in any order with any other requests: no command is ever executed twice, by one agent or by two |
| AgentLoop.Agent.Step | agent/internal/agentloop/loop.go:185-242 | a step executes the next command or none, and whatever the agent was sent is afterwards executed, still to do, or on record as lost |
| AgentLoop.LogResponse | app/api/agent.py:457-474 | the ids of a response are new and distinct |
| AgentLoop.InventoryCommands | agent/internal/agentloop/loop.go:219-221 | of the commands that can be queued exactly those for containers and virtual machines bring a follow-up |
| TerminalRelay.StepKeeps | app/terminal_hub.py:125-184 | every step of either side, terminal or file, keeps the invariant |
| TerminalRelay.InvAlways | app/terminal_hub.py:125-184 | so it holds after every interleaving |
| TerminalRelay.BrowserSeesPrefixOfItsShell | app/terminal_hub.py:160-175 | in every reachable state the output a browser has been sent is an in-order prefix of what the PTY of the session it opened produced, and nothing if there was no shell |
| TerminalRelay.BrowserSeesPrefixOfBytes | agent/internal/terminal/terminal.go:247-264 | the same, byte for byte |
| TerminalRelay.SessionsAreUnique | app/terminal_hub.py:146-150 | no two tabs share a session and no session has two shells |
| TerminalRelay.FileStepsInvisible | app/terminal_hub.py:248-294 | a file step changes nothing the terminal side can see |
| TerminalRelay.TerminalStepsInvisibleToFiles | app/terminal_hub.py:125-184 | a terminal step changes nothing of file transfer |
| TerminalRelay.TerminalStepsCommute | app/terminal_hub.py:125-184 | a terminal step does in the whole system what it does without file transfer |
| TerminalRelay.FileTransferDoesNotInterfere | app/terminal_hub.py:190-294 | for whole runs: what the terminal side sees is what it would see with every file step left out |
| TerminalRelay.TakeBrowsers | app/terminal_hub.py:160-167 | a stale message reaches no browser, a current one the browser that opened its session |
| TerminalRelay.ReadPipeline | agent/internal/terminal/terminal.go:247-255 | nothing a PTY produces is lost or reordered on the agent |
| TerminalSessions.AlwaysWired | app/terminal_hub.py:125-184 | in every reachable state nothing about a session travels before its start, every opened session's start is sent, the slot belongs to a tab that is open or leaving, and the agent's fields name a shell of their session |
| TerminalSessions.CurrentUntilStopped | agent/internal/terminal/terminal.go:203-264 | the current session ends exactly by a stop that names it, a start, or the end of its output; a stop that names another changes nothing |
| TerminalSessions.CurrentFromLaunch | agent/internal/terminal/terminal.go:203-214 | a session becomes current exactly by a launch of its own that succeeds |
| TerminalSessions.StoppedForGood | agent/internal/terminal/terminal.go:240-243 | once the agent has taken the stop of a session it is never current again, in any continuation |
| TerminalSessions.StopsArrive | app/terminal_hub.py:125-157 | a session the server has told to stop, because its tab left or was preempted, has its stop on the way or is over |
| TerminalSessions.LeavingStopsTheShell | app/terminal_hub.py:153-157 | when the messages down have been taken, a tab that left while it held the slot has no current shell |
| TerminalSessions.ShellGetsPrefixOfTyping | agent/internal/terminal/terminal.go:216-226 | in every interleaving what is written to a PTY is an in-order prefix of what was typed while its session held the slot, and all of it while the shell is current and nothing is on the way |
| TerminalSessions.StatusesAreTrue | app/terminal_hub.py:160-175 | a browser is told active only if the session it opened has a shell, and an error only if it never gets one |
| TerminalSessions.EndingsClearTheSlot | app/terminal_hub.py:160-175 | the last frame of a session clears the slot after it is sent, and no other frame does |
| TerminalSessions.PreemptedIsTold | app/terminal_hub.py:125-151 | a preempted browser is told at once, and nobody else is |
| TerminalLink.Link.StartSession | app/terminal_hub.py:125-151 | the slot's fields up to the first await of start_session |
| TerminalLink.Link.TakeSlot | app/terminal_hub.py:146-150 | a new session id, both slot fields, the start message |
| TerminalLink.Link.StopPreempted | app/terminal_hub.py:144-144 | the stop names whatever session the slot holds by then |
| TerminalLink.Link.BrowserMessage | app/terminal_hub.py:177-184 | input and resize go to the slot's current session |
| TerminalLink.Link.StopSession | app/terminal_hub.py:153-155 | the stop goes to the slot's current session |
| TerminalLink.Link.ClearSlot | app/terminal_hub.py:156-157 | the slot is cleared whoever holds it by then |
| TerminalLink.Link.AgentMessage | app/terminal_hub.py:160-171 | stale messages are dropped, others go to the slot's browser |
| TerminalLink.Link.AgentMessageSent | app/terminal_hub.py:88-101 | a closed socket gets nothing; an ending clears the slot after its send |
| TerminalLink.Link.HandleMessage | agent/internal/terminal/terminal.go:203-244 | a start stops the current shell first, a stop must name the current session |
| TerminalLink.Link.StartShell | agent/internal/terminal/terminal.go:206-214 | an error is sent, or both fields are set together |
| TerminalLink.Link.EndOutput | agent/internal/terminal/terminal.go:255-260 | the fields are cleared only if still this session's |
| TerminalLink.Link.FileTabStep | app/terminal_hub.py:248-275 | the file slot is started, preempted and stopped as the terminal's is |
| TerminalLink.Link.Interleave | app/terminal_hub.py:103-184 | run in any order, the methods go through the states of the machine, so the prefix property holds of their fields |
| FileTransfer.ResetDropsOneName | agent/internal/terminal/file.go:78-88 | after a reset no handle is left, and the partial file stays reachable exactly if it has another name (or os.Remove fails) |
| FileTransfer.RefusedChunkEndsTheUpload | agent/internal/terminal/file.go:152-165 | a chunk leaves the upload under way exactly if it is written whole within both limits; otherwise an error is sent and the file's name, and no other, is removed |
| FileTransfer.StaleMessagesDoNothing | agent/internal/terminal/file.go:90-203 | a message of another session is neither obeyed nor answered |
| FileTransfer.NamesAreTheSystems | agent/internal/terminal/file.go:175-197 | mkdir, delete and rename answer with their outcome and write no file |
| FileTransfer.RefusedStarts | agent/internal/terminal/file.go:121-142 | an upload start is answered with an error exactly if it is over 500 MiB or cannot create its file |
| FileTransfer.HandledGeneration | agent/internal/terminal/file.go:90-203 | file_start and a file_stop of the current session supersede, nothing else does, and the session id changes with nothing else |
| FileTransfer.AfterIsSound | agent/internal/terminal/file.go:90-203 | over any run every name has its file and an upload's handle an existing one |
| FileManager.Manager.Reset | agent/internal/terminal/file.go:78-88 | the whole new state, fields and disk |
| FileManager.Manager.Create | agent/internal/terminal/file.go:134-134 | an existing name keeps its file, which is emptied; a new name gets a new one |
| FileManager.Manager.StartUpload | agent/internal/terminal/file.go:121-142 | too large a size changes nothing; otherwise the old upload's file is closed and removed, and the new one is empty, or fails and leaves the closed handle |
| FileManager.Manager.ReceiveChunk | agent/internal/terminal/file.go:144-165 | a chunk is written whole, within declared size and 500 MiB, or the upload is given up and an error sent |
| FileManager.Manager.EndUpload | agent/internal/terminal/file.go:167-173 | done is sent exactly if an upload is under way; what Close loses is lost |
| FileManager.Manager.Handle | agent/internal/terminal/file.go:90-203 | the whole new state and everything sent, for every message: one of another session does nothing but file_start |
| FileManager.Manager.Meanwhile | agent/internal/terminal/file.go:90-203 | a run of messages, of other programs' changes and other downloads' frames goes through the states that Uploads and Downloads speak of |
| Uploads.DoneMeans | agent/internal/terminal/file.go:121-173 | for every run: file_upload_end is answered with done iff the session's last upload start was accepted and no message since has ended it, failed to be written or exceeded its size; the file then holds the chunks that could be decoded since, unless its first Close lost some, and has the name of that start iff the fold over later messages, names and answers of os.Remove says so |
| Uploads.UnderWayStep | agent/internal/terminal/file.go:121-173 | one more event keeps an upload under way, with its bytes and its name as the messages say, or ends it |
| Uploads.UndisturbedUploadArrives | agent/internal/terminal/file.go:121-173 | if no change of names moved the file and no further start failed, done means the file is there under its name with exactly the chunks |
| Downloads.WritesItsOwn | agent/internal/terminal/file.go:260-298 | of everything written while a download runs its own frames are these, in this order and once each; they are all the download frames if it is the only one, and everything if nothing else happens |
| Downloads.SendsChunksThenOneEnd | agent/internal/terminal/file.go:273-298 | whatever happens beside it: chunks, non-empty and of at most 256 KiB, then at most one frame that ends it; at most one chunk after it is superseded, and then no done; what comes before carries its session |
| Downloads.DeliversWhatIsRead | agent/internal/terminal/file.go:273-298 | if the file held still the chunks carry a prefix of it, all of it when done is sent; if the download was not superseded either, exactly the bytes the Reads give, and it ends as the Reads end |
| Downloads.HoldsStill | agent/internal/terminal/file.go:260-298 | listing, making, renaming and deleting beside a download leave its file as it is |
| Downloads.QuietDownloadDelivers | agent/internal/terminal/file.go:260-298 | with nothing beside it: its frames alone are sent, and done iff the Reads reach the end of the file without another error |
| FileManager.Manager.StreamDownload | agent/internal/terminal/file.go:260-298 | everything on the wire until the download ends, whoever wrote it, and the state it leaves, as a function of the Reads and of what happens at every moment between two steps |
| FileManager.DoneWithoutAFile | agent/internal/terminal/file.go:129-138 | a second start that fails to create its file, then an end: an error, done, and no file |
| FileManager.DoneAfterADelete | agent/internal/terminal/file.go:167-188 | a delete while the upload is under way, then an end: done, and no file |
| FileManager.DoneThoughAStartFailed | agent/internal/terminal/file.go:129-138 | a failed second start where os.Remove fails too: done, and the first file is there |
| DataSpec.ReferencedSchemas | app/api/resonance_data.py:1058-1067 | adds to the set exactly what the tree refers to |
| DataSpec.CollectsExactlyTheRefs | app/api/resonance_data.py:1058-1067 | a name is collected iff a node at any depth has a $ref to it |
| DataSpec.CollectsFromEverywhere | app/api/resonance_data.py:1058-1067 | wherever in lists and dicts a reference into the components stands, its name is collected, and no other name is |
| DataSpec.PlainNames | app/api/resonance_data.py:1061-1062 | the name looked up is what follows the prefix, exactly when that has no slash |
| DataSpec.Resolve | app/api/resonance_data.py:1101-1112 | whatever pop takes and whatever cycles there are, the worklist ends with exactly the known schemas reachable from the start |
| DataSpec.KeptPaths | app/api/resonance_data.py:1084-1099 | the paths with a granted operation, each without its security |
| DataSpec.ExactlyTheGrantedArePublished | app/api/resonance_data.py:1084-1099 | an operation is published under its path and verb iff it is granted; no path is published empty |
| DataSpec.PublishedIsGranted | app/api/resonance_data.py:1082-1099 | what is published under a path and verb is an operation of the app whose id a grant names, a writing one only if writing is allowed, without its security |
| DataSpec.WritesAreWithheld | app/api/resonance_data.py:1082-1092 | without leave to write an operation that only writing grants name is published nowhere |
| JsonValues.WithoutForgetsOneKey | app/api/resonance_data.py:1098-1098 | removing a key hides that key and no other |
| DataSpec.BuildSpec | app/api/resonance_data.py:1070-1131 | every reference in the document to a schema the app has resolves within it, and no schema is there that nothing in the document refers to |
| RouteWalk.Walk | app/api/resonance_data.py:990-1003 | the walk over a possibly cyclic graph enters everything nested in what it enters, and only what is reached |
| RouteWalk.DeclaredOperationIds | app/api/resonance_data.py:974-1006 | the ids found are exactly the non-empty ones of routes reachable from the app |
| PageFit.Fit | app/api/resonance_data.py:481-508 | the loop keeps a prefix, at least one item if any, and prices envelope and items as it says |
| PageFit.PageSays | app/api/resonance_data.py:504-508 | the page has the items, the count and the flag under their keys and the rest of the payload as it was |
| PageFit.KeepsTheLongestPrefix | app/api/resonance_data.py:494-503 | a prefix is within the one kept exactly when it is the first item alone or its price is within the budget |
| PageFit.AnswerSize | app/api/resonance_data.py:481-508 | the finished page against the priced envelope, byte for byte, in either spacing |
| PageFit.SentPageFits | app/api/resonance_data.py:469-508 | the page as it is sent is at most 18,000 bytes, unless its one item is too big or there is no item and the rest is; the byte of false against true is paid by a separator |
| PageFit.PricedSpacingFitsWhen | app/api/resonance_data.py:477-508 | in the spacing it is priced with, the page fits exactly when the items leave room for the second byte of each separator |
| PageFit.SpacedPageCanExceedTheBudget | app/api/resonance_data.py:477-508 | 9,000 zeros are cut to a page whose spaced text is over 18,000 bytes |
| JsonText.SizeIsLength | app/api/resonance_data.py:477-478 | the sizes counted are the lengths in bytes of the JSON texts, escapes and UTF-8 included, of every value in either spacing |
| PageFit.CompactIsNoLarger | app/api/resonance_data.py:477-478 | the sent form of any value is no longer than the priced one, escapes included |
| LogForward.Forwarder.Emit | app/log_forward.py:101-110 | a record is queued, or counted as dropped when the queue is full or formatting fails; the forwarder's own are ignored |
| LogForward.Forwarder.Take | app/log_forward.py:136-140 | the oldest line, if any, goes into flight |
| LogForward.Forwarder.Deliver | app/log_forward.py:121-153 | a line counts as sent with its whole frame on the wire, or as an error with the connection dropped |
| LogForward.Forwarder.Close | app/log_forward.py:155-162 | the worker is stopped and an open socket closed underneath it |
| LogForward.Forwarder.Await | app/log_forward.py:135-140 | the worker waits for a line only if it has not been stopped; a wait under way goes on |
| LogForward.DecodesBack | app/log_forward.py:126-128 | decoding octet-counted frames gives back the lines in order, then what the rest holds (section 3.4.1 of RFC 6587) |
| LogForward.CutFrameIsIgnored | app/log_forward.py:128-128 | a frame cut short decodes to nothing |
| LogForward.Run | app/log_forward.py:101-153 | in any run offered = queued + in flight + sent + errors + dropped with at most 5,000 queued, and over TCP the collectors read exactly the lines counted as sent, in order, over all connections; once closed, at most the line the worker was waiting for is still taken |
| GoHook.Script.EnsureHook | agent/internal/svcinstall/svcinstall_linux.go:260-288 | the block is appended unless the begin marker is somewhere in the file; a missing file is an error |
| GoHook.Script.RemoveHook | agent/internal/svcinstall/svcinstall_linux.go:293-320 | the skipping loop keeps exactly the lines that are no marker and not below a begin marker without an end between, in their order |
| GoHook.RemoveUndoesEnsure | agent/internal/svcinstall/svcinstall_linux.go:260-320 | removing after adding gives the text and one newline iff the begin marker is nowhere in it and no line trims to the end marker |
| GoHook.EnsureIsIdempotent | agent/internal/svcinstall/svcinstall_linux.go:266-268 | adding twice is adding once |
| GoHook.RemoveIsIdempotent | agent/internal/svcinstall/svcinstall_linux.go:302-319 | removing twice is removing once |
| GoHook.RoundsAddNewlines | agent/internal/svcinstall/svcinstall_linux.go:260-320 | n rounds of installing and uninstalling leave n newlines and nothing else |
| Totp.GoCode | agent/internal/totp/totp.go:45-69 | the agent's code, its modulus computed in uint32, is the server's for every counter and MAC |
| Totp.CodeHasSixDigits | app/totp.py:30-41 | six digits, zeros included, worth the truncated MAC modulo a million; all indices in bounds (section 5.3 of RFC 4226) |
| Totp.TruncatedIsFourBytes | app/totp.py:34-40 | truncation is the last 31 bits of the four bytes at the offset (section 5.3 of RFC 4226) |
| Totp.TruncationExample | app/totp.py:34-40 | the example of section 5.4 of RFC 4226 |
| Totp.BigEndianReadsBack | app/totp.py:34-34 | packing a counter that fits in its bytes loses nothing |
| Totp.GoVerify | agent/internal/totp/totp.go:81-98 | accepts exactly the codes of three adjacent time steps, the counter wrapping in uint64 |
| Totp.AcceptsThreeSteps | agent/internal/totp/totp.go:81-98 | the codes accepted are those of the present step, the one before and the next, and no other |
| Totp.PythonVerify | app/totp.py:58-69 | the same with its exceptions: a negative counter in the first thirty seconds, a text that is not ASCII, a secret that does not decode |
| Totp.SameKey | agent/internal/totp/totp.go:100-104 | the server decodes exactly secrets over the alphabet of a possible length, and on those the agent has the same key, padded or trimmed |
| Totp.GeneratedSecretsDecode | app/totp.py:27-29 | a secret as it is generated, 32 characters, decodes on both sides to the same key |
| Totp.ShownCodeIsAccepted | app/totp.py:48-50 | a code the server shows is accepted by an agent whose clock is at most thirty seconds away, and by the server from its second step on |
| Totp.VerifiersAgree | app/totp.py:58-69 | from the second time step on both sides judge an ordinary text alike |
| Totp.WindowOfSteps | agent/internal/totp/totp.go:78-98 | clocks within thirty seconds are within one step, and clocks within one step are less than a minute apart |
| Totp.SecondsRemaining | app/totp.py:53-55 | the same time step goes on for so many seconds and no longer |

## Left out

- Concurrent database handlers: the limiter's and the breaker's read-after-write races, and two requests inside one handler of `Fleet` or `SignIn`; only `Lockout` and the terminal relay interleave.
- SQLite's `julianday` in floating point, except for the breaker's truncation: `Throttle.Store.BlockedSeconds` counts whole seconds.
- Rounding of percentages and averages: `AlertEngine` computes them exactly, over reals.
- A tags column that is not a list of strings, and rule conditions that are not numbers: `AlertEngine` starts from the parsed values.
- What happens before the limiter in the code route (origin, session, setting, role), and errors of the client that are not Resonance errors.
- Fleet.Server.DeleteNode: does not model the node's alert events. The foreign key deletes them with the node, although the handler's comment keeps them; `AlertEngine.Engine.DeleteRows` covers any such deletion.
- Fleet.Server.Checkin: leaves out the inventory, metrics and network columns a check-in writes, which nothing here reads.
- Fleet.Server.Enroll: the override secret and the interval settings in the answer are left out; a stored hash stands for its secret, so two secrets never share one.
- AgentLoop.Agent.CheckinOnce: what a command does on the machine, the status file and the scheduled speed test are left out; a request that never reaches the server changes nothing and needs no case.
- The registry of agent links: a reconnect is a new `TerminalLink.Link`, and a node without one is refused before anything here begins. Resize values, error texts and base64 of the relay are left out.
- Session ids of the relay are random and never repeat; they are drawn in rising order here, which only names them.
- Uploads.DoneMeans: no other program writes to a file while it is uploaded. Directory listings, what mkdir, delete and rename do, and directories themselves are the operating system's.
- DataSpec.BuildSpec: title, version and description of the document, and an `operationId` that is not a string.
- `build_grant` and `validate_grants`: membership tests over the ids `RouteWalk` finds.
- PageFit.Fit: the response model's own fields and floating-point number texts; a number is its text. A lone surrogate in a string has no counterpart.
- LogForward.Forwarder.Emit: the text of a record is its line of bytes, never empty; two threads counting a drop at once are left out. Reconfiguration and the test message are left out.
- The `app_logs` ring buffer: one insert and one delete per flush.
- GoHook.Script.EnsureHook: an append or a rewrite that fails halfway.
- Totp.PythonVerify: what the agent's decoder makes of a text that is not base32, `upper()` beyond ASCII letters, and negative Unix time on the agent. HMAC-SHA1 is any function to twenty bytes.
- SAML, user administration, inventory collectors, installers, the frontend, and everything else that keeps little state.
