/**
 The two places a password is checked, `login` (app/api/auth.py) and
 `change_my_password` (app/api/users.py): the order of throttle, lock,
 comparison and recording, over the tables of Throttle and Lockout.
 */
module SignIn {
  import opened Wrappers
  import opened TimeSpans
  import Throttle
  import Lockout

  type Users = map<int, Lockout.Account>

  datatype Outcome =
    | Blocked(seconds: nat)                // 429
    | BadCredentials                       // 401, or 400 at the change form
    | LockedOut(state: Lockout.LockState)  // 423
    | Granted
    | TooShort                             // 400, nothing committed

  /** Settings in force: the account limit and the address policy. */
  datatype Settings = Settings(limit: nat, policy: Throttle.Policy) {
    predicate Legal() { 1 <= limit <= 100 && policy.Legal() }
  }

  datatype World = World(tables: Throttle.Tables, users: Users)

  /**
   One request. `found` is the row the lookup returned (a name can match one
   user's username and another's email, so it is not a function of the name),
   `matches` what verify_password says of the password sent.
   */
  datatype Request =
    | Login(address: string, found: Option<int>, matches: bool, at: int)
    | ChangePassword(address: string, found: Option<int>, matches: bool, newLength: nat, at: int)

  /** The row whose password this request asks to have compared, if it gets that far. */
  function Target(w: World, r: Request): Option<int> {
    if Throttle.Remaining(w.tables, r.address, r.at).Some? then None
    else if r.found.None? || r.found.value !in w.users then None
    else if r.Login? && !w.users[r.found.value].active then None
    else if Lockout.IsLockedAt(w.users[r.found.value], r.at) then None
    else r.found
  }

  /** A failed check is recorded against the account first, then against the address. */
  function Fails(w: World, id: Option<int>, r: Request, s: Settings): (World, Outcome)
    requires id.Some? ==> id.value in w.users
  {
    var users := if id.None? then w.users
                 else w.users[id.value := Lockout.CountFailure(w.users[id.value], r.at, s.limit)];
    var (tables, reached) := Throttle.Record(w.tables, r.address, r.at, s.policy);
    var outcome :=
      if reached then Blocked(s.policy.Block())
      else if id.Some? && Lockout.IsLockedAt(users[id.value], r.at)
      then LockedOut(Lockout.Describe(users[id.value], r.at))
      else BadCredentials;
    (World(tables, users), outcome)
  }

  /** The whole handler, as a function of the state before it. */
  function Handle(w: World, r: Request, s: Settings): (World, Outcome) {
    var left := Throttle.Remaining(w.tables, r.address, r.at);
    if left.Some? then (w, Blocked(left.value))
    else if r.found.None? || r.found.value !in w.users then
      if r.Login? then Fails(w, None, r, s) else (w, BadCredentials)
    else
      var id := r.found.value;
      var row := w.users[id];
      if r.Login? && !row.active then Fails(w, None, r, s)
      else if Lockout.IsLockedAt(row, r.at) then (w, LockedOut(Lockout.Describe(row, r.at)))
      else if !row.hasPassword || !r.matches then Fails(w, Some(id), r, s)
      else if r.ChangePassword? && r.newLength < 6 then (w, TooShort)
      else (w.(users := w.users[id := Lockout.CountSuccess(row)]), Granted)
  }

  method HandleLogin(throttle: Throttle.Store, accounts: Lockout.Accounts, r: Request, s: Settings)
    returns (outcome: Outcome)
    requires r.Login? && s.Legal()
    modifies throttle, accounts
    ensures (World(throttle.Rows(), accounts.users), outcome)
         == Handle(old(World(throttle.Rows(), accounts.users)), r, s)
  {
    var remaining := throttle.BlockedSeconds(r.address, r.at);
    if remaining.Some? {
      return Blocked(remaining.value);
    }
    if r.found.None? || r.found.value !in accounts.users || !accounts.users[r.found.value].active {
      remaining := throttle.RecordFailure(r.address, r.at, s.policy);
      return if remaining.Some? then Blocked(remaining.value) else BadCredentials;
    }
    var id := r.found.value;
    var user := accounts.users[id];
    var state := Lockout.Describe(user, r.at);
    if state.locked {
      return LockedOut(state);
    }
    if !user.hasPassword || !r.matches {
      state := accounts.RecordFailure(id, r.at, s.limit);
      remaining := throttle.RecordFailure(r.address, r.at, s.policy);
      if remaining.Some? {
        return Blocked(remaining.value);
      }
      return if state.locked then LockedOut(state) else BadCredentials;
    }
    accounts.RecordSuccess(id);
    return Granted;
  }

  /** A request refused for a short new password ends without a commit, so its UPDATE is rolled back. */
  method HandleChangePassword(throttle: Throttle.Store, accounts: Lockout.Accounts, r: Request, s: Settings)
    returns (outcome: Outcome)
    requires r.ChangePassword? && s.Legal()
    modifies throttle, accounts
    ensures (World(throttle.Rows(), accounts.users), outcome)
         == Handle(old(World(throttle.Rows(), accounts.users)), r, s)
  {
    hide Throttle.Record, Lockout.CountFailure, Lockout.CountSuccess;
    var remaining := throttle.BlockedSeconds(r.address, r.at);
    if remaining.Some? {
      return Blocked(remaining.value);
    }
    var row := if r.found.Some? && r.found.value in accounts.users
               then Some(accounts.users[r.found.value]) else None;
    var state := Lockout.LockState(false, false, None);
    if row.Some? {
      state := Lockout.Describe(row.value, r.at);
      if state.locked {
        return LockedOut(state);
      }
    }
    if row.None? || !row.value.hasPassword || !r.matches {
      if row.Some? {
        state := accounts.RecordFailure(r.found.value, r.at, s.limit);
        remaining := throttle.RecordFailure(r.address, r.at, s.policy);
        if remaining.Some? {
          return Blocked(remaining.value);
        }
        if state.locked {
          return LockedOut(state);
        }
      }
      return BadCredentials;
    }
    var committed := accounts.users;
    accounts.RecordSuccess(r.found.value);
    if r.newLength < 6 {
      accounts.users := committed;
      return TooShort;
    }
    return Granted;
  }

  // ---- What a caller can learn and change ---------------------------------------

  /**
   While the address is blocked, the account locked, or no account stands behind the
   name, the answer and the state do not depend on the password. No account row is
   written; all that can be recorded is the failed name, against the address.
   */
  lemma RefusedBeforeComparison(w: World, r: Request, s: Settings)
    requires Target(w, r).None?
    ensures Handle(w, r.(matches := true), s) == Handle(w, r.(matches := false), s)
    ensures Handle(w, r, s).0.users == w.users && Handle(w, r, s).1 != Granted
    ensures !FailsCheck(w, r) ==> Handle(w, r, s).0 == w
    ensures FailsCheck(w, r) ==>
              r.Login? && (r.found.None? || r.found.value !in w.users || !w.users[r.found.value].active)
  {}

  /** A comparison that fails always costs both the account and the address one failure. */
  lemma FailedComparisonCostsBoth(w: World, r: Request, s: Settings)
    requires Target(w, r).Some? && !r.matches
    ensures var id := r.found.value;
            Handle(w, r, s).0 == World(Throttle.Guarded(w.tables, Throttle.Attempt(r.address, r.at), s.policy),
                                       w.users[id := Lockout.CountFailure(w.users[id], r.at, s.limit)])
  {}

  // ---- The answers -----------------------------------------------------------------

  /** On the tables alone: the address has no block row in force. */
  predicate AddressFree(w: World, r: Request) {
    !(r.address in w.tables.blocks && w.tables.blocks[r.address] > r.at)
  }

  /** On the row alone: the account is there and, for a login, active, and neither lock is on. */
  predicate AccountOpen(w: World, r: Request) {
    && r.found.Some? && r.found.value in w.users
    && (var row := w.users[r.found.value];
        (r.Login? ==> row.active) && !row.isLocked && !(row.lockedUntil.Some? && row.lockedUntil.value > r.at))
  }

  predicate PasswordRight(w: World, r: Request)
    requires AccountOpen(w, r)
  {
    w.users[r.found.value].hasPassword && r.matches
  }

  /**
   Granted is the answer exactly if the address is not blocked, the account open and
   the password its own, and a new password long enough. It clears the counters and
   the temporary lock of that account and changes nothing else; a right password
   with a new one too short changes nothing at all.
   */
  lemma GrantedIff(w: World, r: Request, s: Settings)
    ensures var (after, answer) := Handle(w, r, s);
            var right := AddressFree(w, r) && AccountOpen(w, r) && PasswordRight(w, r);
            && (answer == Granted <==> right && (r.Login? || r.newLength >= 6))
            && (answer == TooShort <==> right && r.ChangePassword? && r.newLength < 6)
            && (answer == TooShort ==> after == w)
            && (answer == Granted ==>
                  var id := r.found.value;
                  after == World(w.tables, w.users[id := w.users[id].(failed := 0, lockouts := 0,
                      lockedUntil := None)]))
  {
    hide Throttle.Record, Lockout.CountFailure;
  }

  /** The refusals before any comparison: the time left of the block, or the lock as it stands. */
  lemma RefusedAtOnce(w: World, r: Request, s: Settings)
    ensures !AddressFree(w, r) ==> Handle(w, r, s) == (w, Blocked(w.tables.blocks[r.address] - r.at))
    ensures AddressFree(w, r) && r.found.Some? && r.found.value in w.users
            && (r.Login? ==> w.users[r.found.value].active) && !AccountOpen(w, r) ==>
              var row := w.users[r.found.value];
              Handle(w, r, s) == (w, LockedOut(Lockout.LockState(true, row.isLocked,
                                                                 if row.isLocked then None else row.lockedUntil)))
  {}

  /** A check that fails is answered by what the tables and the row say when it has been recorded. */
  lemma AnswerAfterAFailure(w: World, r: Request, s: Settings)
    requires s.Legal() && AddressFree(w, r)
    requires r.found.Some? && r.found.value in w.users && (r.Login? ==> w.users[r.found.value].active) ==>
               AccountOpen(w, r) && !PasswordRight(w, r)
    ensures var (after, answer) := Handle(w, r, s);
            && (r.Login? || (r.found.Some? && r.found.value in w.users) ==>
                  && (!AddressFree(after, r) ==> answer == Blocked(after.tables.blocks[r.address] - r.at))
                  && (AddressFree(after, r) && AccountOpen(w, r) && !AccountOpen(after, r) ==>
                        answer == LockedOut(Lockout.Describe(after.users[r.found.value], r.at)))
                  && (AddressFree(after, r) && (AccountOpen(w, r) ==> AccountOpen(after, r)) ==>
                     answer == BadCredentials))
            && (r.ChangePassword? && (r.found.None? || r.found.value !in w.users) ==>
               answer == BadCredentials && after == w)
  {}

  // ---- Runs of requests, one after the other --------------------------------------

  function WorldAfter(w: World, run: seq<Request>, s: Settings): World {
    if run == [] then w
    else Handle(WorldAfter(w, run[..|run| - 1], s), run[|run| - 1], s).0
  }

  /** The stamps at which a password of `id` was compared. */
  function Compared(w: World, run: seq<Request>, id: int, s: Settings): seq<int> {
    if run == [] then []
    else
      var front, r := run[..|run| - 1], run[|run| - 1];
      if Target(WorldAfter(w, front, s), r) == Some(id) then Compared(w, front, id, s) + [r.at]
      else Compared(w, front, id, s)
  }

  ghost predicate NoPasswordOf(run: seq<Request>, id: int) {
    forall r | r in run && r.found == Some(id) :: !r.matches
  }

  /**
   Main result across both handlers: whoever asks, from wherever, in whatever
   order, at most 2 * limit passwords of one account are compared until someone
   knows its password or an admin unlocks it.
   */
  lemma {:induction false} GuessesPerAccountAreBounded(w: World, run: seq<Request>, id: int, s: Settings)
    requires s.Legal() && id in w.users && NoPasswordOf(run, id)
    requires w.users[id].failed == 0 && w.users[id].lockouts == 0 && !w.users[id].isLocked
    ensures id in WorldAfter(w, run, s).users
    ensures |Compared(w, run, id, s)| <= 2 * s.limit
    ensures |Compared(w, run, id, s)| == 2 * s.limit <==> WorldAfter(w, run, s).users[id].isLocked
  {
    RowCountsComparisons(w, run, id, s);
    var row := WorldAfter(w, run, s).users[id];
    Lockout.LocksAtTwiceTheLimit(row.lockouts, row.failed, s.limit);
    if row.lockouts == 2 {
      assert row.lockouts * s.limit == 2 * s.limit;
    }
  }

  /** Over any run: without the password of an account no request that names it is ever granted. */
  lemma NobodyGuessesIn(w: World, run: seq<Request>, id: int, s: Settings, i: nat)
    requires NoPasswordOf(run, id) && i < |run| && run[i].found == Some(id)
    ensures Handle(WorldAfter(w, run[..i], s), run[i], s).1 !in {Granted, TooShort}
  {
    hide WorldAfter;
    assert run[i] in run;
    GrantedIff(WorldAfter(w, run[..i], s), run[i], s);
    hide Handle;
  }

  /** Where the row of an account stands after `n` failed comparisons. */
  ghost predicate RowStandsAt(row: Lockout.Account, n: nat, limit: nat) {
    && row.lockouts * limit + row.failed == n
    && row.failed < limit && row.lockouts <= 2
    && (row.lockouts == 2 ==> row.failed == 0)
    && (row.isLocked <==> row.lockouts == 2)
  }

  lemma RowStandsNext(row: Lockout.Account, n: nat, at: int, limit: nat)
    requires 1 <= limit && RowStandsAt(row, n, limit) && !row.isLocked
    ensures RowStandsAt(Lockout.CountFailure(row, at, limit), n + 1, limit)
  {
    assert (row.lockouts + 1) * limit == row.lockouts * limit + limit;
  }

  lemma RunStep(w: World, front: seq<Request>, r: Request, id: int, s: Settings)
    ensures WorldAfter(w, front + [r], s) == Handle(WorldAfter(w, front, s), r, s).0
    ensures Compared(w, front + [r], id, s)
         == Compared(w, front, id, s) + if Target(WorldAfter(w, front, s), r) == Some(id) then [r.at] else []
  {
    assert (front + [r])[..|front|] == front;
  }

  lemma {:induction false} RowCountsComparisons(w: World, run: seq<Request>, id: int, s: Settings)
    requires s.Legal() && id in w.users && NoPasswordOf(run, id)
    requires w.users[id].failed == 0 && w.users[id].lockouts == 0 && !w.users[id].isLocked
    ensures id in WorldAfter(w, run, s).users
    ensures RowStandsAt(WorldAfter(w, run, s).users[id], |Compared(w, run, id, s)|, s.limit)
  {
    if run != [] {
      hide RowStandsAt, WorldAfter, Compared, Handle, Target;
      hide Lockout.CountFailure;
      var front, r := run[..|run| - 1], run[|run| - 1];
      assert run == front + [r] && forall q | q in front :: q in run;
      assert r in run;
      RowCountsComparisons(w, front, id, s);
      RunStep(w, front, r, id, s);
      var b := WorldAfter(w, front, s);
      OnlyComparisonsTouchARow(b, r, id, s);
      if Target(b, r) == Some(id) {
        RowStandsNext(b.users[id], |Compared(w, front, id, s)|, r.at, s.limit);
      }
    }
  }

  /** What one request does to one row: nothing unless it compares that row's password. */
  lemma OnlyComparisonsTouchARow(w: World, r: Request, id: int, s: Settings)
    requires id in w.users && (r.found == Some(id) ==> !r.matches)
    ensures id in Handle(w, r, s).0.users
    ensures Handle(w, r, s).0.users[id]
         == if Target(w, r) == Some(id) then Lockout.CountFailure(w.users[id], r.at, s.limit) else w.users[id]
    ensures Target(w, r) == Some(id) ==> !w.users[id].isLocked
  {}

  // ---- The throttle as the handlers drive it ------------------------------------------

  /** The request reaches a credential check and fails it. */
  predicate FailsCheck(w: World, r: Request) {
    && Throttle.Remaining(w.tables, r.address, r.at).None?
    && (if Target(w, r).Some? then !w.users[r.found.value].hasPassword || !r.matches
        else r.Login? && (r.found.None? || r.found.value !in w.users || !w.users[r.found.value].active))
  }

  /** The stamps of the failed checks of one address. */
  function FailedFrom(w: World, run: seq<Request>, address: string, s: Settings): seq<int> {
    if run == [] then []
    else
      var front, r := run[..|run| - 1], run[|run| - 1];
      if r.address == address && FailsCheck(WorldAfter(w, front, s), r)
      then FailedFrom(w, front, address, s) + [r.at]
      else FailedFrom(w, front, address, s)
  }

  /** All failed checks, as the throttle is told of them. */
  function Reported(w: World, run: seq<Request>, s: Settings): seq<Throttle.Attempt> {
    if run == [] then []
    else
      var front, r := run[..|run| - 1], run[|run| - 1];
      if FailsCheck(WorldAfter(w, front, s), r)
      then Reported(w, front, s) + [Throttle.Attempt(r.address, r.at)]
      else Reported(w, front, s)
  }

  ghost predicate InOrder(run: seq<Request>) {
    forall i, j | 0 <= i < j < |run| :: run[i].at <= run[j].at
  }

  /** The handlers write the throttle's tables by a guarded failure, exactly when a check fails. */
  lemma HandleReportsFailedChecks(w: World, r: Request, s: Settings)
    ensures Handle(w, r, s).0.tables
         == if FailsCheck(w, r) then Throttle.Guarded(w.tables, Throttle.Attempt(r.address, r.at), s.policy)
            else w.tables
  {}

  lemma {:induction false} ThrottleSeesEveryFailedCheck(users: Users, run: seq<Request>, address: string, s: Settings)
    requires InOrder(run)
    ensures var w := World(Throttle.EMPTY, users);
            && WorldAfter(w, run, s).tables == Throttle.TablesAfter(Reported(w, run, s), s.policy)
            && Throttle.Counted(Reported(w, run, s), address, s.policy) == FailedFrom(w, run, address, s)
            && Throttle.Chronological(Reported(w, run, s))
            && forall a | a in Reported(w, run, s) :: run != [] && a.at <= run[|run| - 1].at
  {
    hide Throttle.Record, Lockout.CountFailure;
    var w := World(Throttle.EMPTY, users);
    if run != [] {
      var front, r := run[..|run| - 1], run[|run| - 1];
      ThrottleSeesEveryFailedCheck(users, front, address, s);
      HandleReportsFailedChecks(WorldAfter(w, front, s), r, s);
      var before, a := Reported(w, front, s), Throttle.Attempt(r.address, r.at);
      assert (before + [a])[..|before|] == before;
      if front != [] {
        assert front[|front| - 1] == run[|run| - 2];
      }
    }
  }

  lemma LegalPolicy(s: Settings)
    ensures s.Legal() ==> s.policy.Legal()
  {}

  /**
   Main result: over any run of requests to both handlers, whatever names they
   try, at most limit * ceil(window / block) credential checks of one address
   fail in any half-open interval of the window's length.
   */
  lemma FailedChecksPerWindowAreBounded(users: Users, run: seq<Request>, address: string, s: Settings, lo: int)
    requires s.Legal() && InOrder(run)
    ensures CountIn(FailedFrom(World(Throttle.EMPTY, users), run, address, s), lo, lo + s.policy.Window())
         <= s.policy.Allowance()
  {
    hide *;
    LegalPolicy(s);
    var w := World(Throttle.EMPTY, users);
    ThrottleSeesEveryFailedCheck(users, run, address, s);
    var reported := Reported(w, run, s);
    Throttle.FailuresPerWindowAreBounded(reported, address, s.policy, lo);
    assert Throttle.Counted(reported, address, s.policy) == FailedFrom(w, run, address, s);
  }
}
