/**
 Failed-login lockout of one account (app/auth/lockout.py): consecutive failures
 count up to a limit, the first time the limit is reached the account is locked
 for half an hour, the second time until an admin unlocks it.
 */
module Lockout {
  import opened Wrappers

  const LOCK_SECONDS := 30 * 60

  /**
   What a settings row can hold: nothing, something int() refuses, JSON's Infinity,
   or what int() makes a number of.
   */
  datatype Setting = Missing | Unreadable | Infinite | Number(n: int)

  /** None where int() raises an OverflowError, which int_setting does not catch. */
  function IntSetting(s: Setting, default: nat, ceiling: nat): (v: Option<nat>)
    requires 1 <= default <= ceiling
    ensures v.None? <==> s.Infinite?
    ensures v.Some? ==> 1 <= v.value <= ceiling && (v.value == default || s == Number(v.value))
    ensures s.Number? && 1 <= s.n <= ceiling ==> v == Some(s.n)
  {
    if s.Infinite? then None
    else Some(if s.Number? && 1 <= s.n <= ceiling then s.n else default)
  }

  datatype Account = Account(
    active: bool,
    hasPassword: bool,
    failed: nat,
    lockouts: nat,
    isLocked: bool,
    lockedUntil: Option<int>)

  datatype LockState = LockState(locked: bool, permanent: bool, until: Option<int>)

  function Describe(r: Account, now: int): LockState {
    var temporary := r.lockedUntil.Some? && r.lockedUntil.value > now && !r.isLocked;
    LockState(r.isLocked || temporary, r.isLocked, if temporary then r.lockedUntil else None)
  }

  predicate IsLockedAt(r: Account, now: int) { Describe(r, now).locked }

  /** The one UPDATE of record_failure. */
  function CountFailure(r: Account, now: int, limit: nat): Account {
    var reached := r.failed + 1 >= limit;
    r.(failed := if reached then 0 else r.failed + 1,
       lockouts := if reached then r.lockouts + 1 else r.lockouts,
       isLocked := r.isLocked || (reached && r.lockouts + 1 >= 2),
       lockedUntil := if reached && r.lockouts + 1 < 2 then Some(now + LOCK_SECONDS) else r.lockedUntil)
  }

  /** The UPDATE of record_success: note that is_locked is not touched. */
  function CountSuccess(r: Account): Account {
    r.(failed := 0, lockouts := 0, lockedUntil := None)
  }

  function Unlocked(r: Account): Account {
    CountSuccess(r).(isLocked := false)
  }

  /** The lock columns of the users table. */
  class Accounts {
    var users: map<int, Account>

    method RecordFailure(id: int, now: int, limit: nat) returns (state: LockState)
      requires id in users && limit >= 1
      modifies this
      ensures users == old(users)[id := CountFailure(old(users[id]), now, limit)]
      ensures state == Describe(users[id], now)
    {
      var r := users[id];
      var failed, lockouts, isLocked, lockedUntil := r.failed + 1, r.lockouts, r.isLocked, r.lockedUntil;
      if r.failed + 1 >= limit {
        failed := 0;
        lockouts := r.lockouts + 1;
        if r.lockouts + 1 >= 2 {
          isLocked := true;
        } else {
          lockedUntil := Some(now + LOCK_SECONDS);
        }
      }
      users := users[id := r.(failed := failed, lockouts := lockouts,
                              isLocked := isLocked, lockedUntil := lockedUntil)];
      state := Describe(users[id], now);
    }

    method RecordSuccess(id: int)
      modifies this
      ensures users == if id in old(users) then old(users)[id := CountSuccess(old(users[id]))] else old(users)
    {
      if id in users {
        users := users[id := users[id].(failed := 0, lockouts := 0, lockedUntil := None)];
      }
    }

    method Unlock(id: int) returns (found: bool)
      modifies this
      ensures found <==> id in old(users)
      ensures users == if found then old(users)[id := Unlocked(old(users[id]))] else old(users)
      ensures found ==> forall now :: !IsLockedAt(users[id], now)
    {
      found := id in users;
      if found {
        users := users[id := users[id].(failed := 0, lockouts := 0, lockedUntil := None, isLocked := false)];
      }
    }
  }

  /**
   A success clears everything but a permanent lock, an unlock that too: the account
   is again one nobody has failed on, and all the bounds below start over.
   */
  lemma SuccessAndUnlockStartOver(r: Account)
    ensures Fresh(Machine(Unlocked(r), {}, 0, 0))
    ensures !r.isLocked ==> Fresh(Machine(CountSuccess(r), {}, 0, 0))
    ensures CountSuccess(r).isLocked == r.isLocked
    ensures forall now :: !IsLockedAt(Unlocked(r), now) && (IsLockedAt(CountSuccess(r), now) <==> r.isLocked)
    ensures Unlocked(r).(failed := r.failed, lockouts := r.lockouts, isLocked := r.isLocked,
              lockedUntil := r.lockedUntil) == r
    ensures CountSuccess(r).(failed := r.failed, lockouts := r.lockouts, lockedUntil := r.lockedUntil) == r
  {}

  // ---- Overlapping attempts ---------------------------------------------------

  /**
   One account with its attempts in flight. An attempt first reads the lock state
   (and, if not locked, compares the password); recording the result is a later,
   separate step, so any number of other attempts may come in between.
   */
  datatype Machine = Machine(row: Account, inFlight: set<nat>, compared: nat, recorded: nat)

  datatype Event =
    | Check(id: nat, at: int)
    | Fail(id: nat, at: int)
    | Succeed(id: nat)
    | AdminUnlock

  predicate Enabled(m: Machine, e: Event) {
    match e
    case Check(id, _) => id !in m.inFlight
    case Fail(id, _) => id in m.inFlight
    case Succeed(id) => id in m.inFlight
    case AdminUnlock => true
  }

  function Apply(m: Machine, e: Event, limit: nat): Machine {
    match e
    case Check(id, at) =>
      if IsLockedAt(m.row, at) then m
      else m.(inFlight := m.inFlight + {id}, compared := m.compared + 1)
    case Fail(id, at) =>
      m.(row := CountFailure(m.row, at, limit), inFlight := m.inFlight - {id}, recorded := m.recorded + 1)
    case Succeed(id) =>
      m.(row := CountSuccess(m.row), inFlight := m.inFlight - {id})
    case AdminUnlock =>
      m.(row := Unlocked(m.row))
  }

  function After(m: Machine, events: seq<Event>, limit: nat): Machine {
    if events == [] then m
    else Apply(After(m, events[..|events| - 1], limit), events[|events| - 1], limit)
  }

  /** Every event is possible when it happens, and never more than `overlap` attempts are in flight. */
  ghost predicate Possible(m: Machine, events: seq<Event>, limit: nat, overlap: nat) {
    events == [] ||
    (var front := events[..|events| - 1];
     && Possible(m, front, limit, overlap)
     && Enabled(After(m, front, limit), events[|events| - 1])
     && |After(m, events, limit).inFlight| <= overlap)
  }

  ghost predicate OnlyGuesses(events: seq<Event>) {
    forall e | e in events :: e.Check? || e.Fail?
  }

  /** An account nobody has failed on since its last success or unlock. */
  ghost predicate Fresh(m: Machine) {
    m.row.failed == 0 && m.row.lockouts == 0 && !m.row.isLocked
    && m.inFlight == {} && m.compared == 0 && m.recorded == 0
  }

  ghost predicate Accounted(n: Machine, limit: nat) {
    && n.row.lockouts * limit + n.row.failed == n.recorded
    && n.row.failed < limit
    && n.compared == n.recorded + |n.inFlight|
    && (n.row.isLocked <==> n.row.lockouts >= 2)
  }

  lemma AccountedStep(b: Machine, e: Event, limit: nat)
    requires limit >= 1 && Accounted(b, limit) && Enabled(b, e) && (e.Check? || e.Fail?)
    ensures Accounted(Apply(b, e, limit), limit)
  {}

  /**
   Under every interleaving the row accounts for exactly the failures recorded,
   and the permanent lock is on exactly from the 2 * limit-th of them.
   */
  lemma {:induction false} RowAccountsForFailures(m: Machine, events: seq<Event>, limit: nat, overlap: nat)
    requires limit >= 1 && Fresh(m) && Possible(m, events, limit, overlap) && OnlyGuesses(events)
    ensures var n := After(m, events, limit);
            && n.row.lockouts * limit + n.row.failed == n.recorded
            && n.row.failed < limit
            && n.compared == n.recorded + |n.inFlight|
            && (n.row.isLocked <==> n.row.lockouts >= 2)
            && (n.row.isLocked <==> n.recorded >= 2 * limit)
  {
    AlwaysAccounted(m, events, limit, overlap);
    var n := After(m, events, limit);
    LocksAtTwiceTheLimit(n.row.lockouts, n.row.failed, limit);
  }

  lemma {:induction false} AlwaysAccounted(m: Machine, events: seq<Event>, limit: nat, overlap: nat)
    requires limit >= 1 && Fresh(m) && Possible(m, events, limit, overlap) && OnlyGuesses(events)
    ensures Accounted(After(m, events, limit), limit)
  {
    if events != [] {
      var front := events[..|events| - 1];
      assert forall e | e in front :: e in events;
      AlwaysAccounted(m, front, limit, overlap);
      AccountedStep(After(m, front, limit), events[|events| - 1], limit);
    }
  }

  lemma LocksAtTwiceTheLimit(lockouts: nat, failed: nat, limit: nat)
    requires failed < limit
    ensures lockouts * limit + failed >= 2 * limit <==> lockouts >= 2
  {}

  /**
   Main result: with at most `overlap` attempts in flight at a time, no more than
   2 * limit + overlap - 1 passwords are ever compared.
   */
  lemma {:induction false} ComparisonsAreBounded(m: Machine, events: seq<Event>, limit: nat, overlap: nat)
    requires limit >= 1 && overlap >= 1 && Fresh(m) && Possible(m, events, limit, overlap) && OnlyGuesses(events)
    ensures After(m, events, limit).compared <= 2 * limit + overlap - 1
  {
    if events != [] {
      var front := events[..|events| - 1];
      assert forall e | e in front :: e in events;
      ComparisonsAreBounded(m, front, limit, overlap);
      RowAccountsForFailures(m, front, limit, overlap);
      RowAccountsForFailures(m, events, limit, overlap);
    }
  }

  /** Attempts one after the other: at most twice the limit. */
  lemma SequentialComparisonsAreBounded(m: Machine, events: seq<Event>, limit: nat)
    requires limit >= 1 && Fresh(m) && Possible(m, events, limit, 1) && OnlyGuesses(events)
    ensures After(m, events, limit).compared <= 2 * limit
  {
    ComparisonsAreBounded(m, events, limit, 1);
  }

  /**
   A permanent lock outlasts everything but an admin: whatever attempts end, even
   successfully, it stays and no further password is compared.
   */
  lemma {:induction false} PermanentUntilUnlock(m: Machine, events: seq<Event>, limit: nat)
    requires m.row.isLocked && AdminUnlock !in events
    ensures After(m, events, limit).row.isLocked
    ensures After(m, events, limit).compared == m.compared
  {
    if events != [] {
      var front := events[..|events| - 1];
      assert AdminUnlock !in front;
      PermanentUntilUnlock(m, front, limit);
      assert events[|events| - 1] in events;
    }
  }

  /** The first lock lasts its half hour: failures still in flight neither shorten nor move it. */
  lemma {:induction false} FirstLockHolds(m: Machine, events: seq<Event>, limit: nat, until: int, now: int)
    requires m.row.lockouts >= 1 && m.row.lockedUntil == Some(until) && now < until && OnlyGuesses(events)
    ensures After(m, events, limit).row.lockedUntil == Some(until)
    ensures Apply(After(m, events, limit), Check(0, now), limit) == After(m, events, limit)
  {
    FirstLockUnmoved(m, events, limit);
  }

  lemma {:induction false} FirstLockUnmoved(m: Machine, events: seq<Event>, limit: nat)
    requires m.row.lockouts >= 1 && OnlyGuesses(events)
    ensures After(m, events, limit).row.lockedUntil == m.row.lockedUntil
    ensures After(m, events, limit).row.lockouts >= 1
  {
    if events != [] {
      var front := events[..|events| - 1];
      assert forall e | e in front :: e in events;
      FirstLockUnmoved(m, front, limit);
      assert events[|events| - 1] in events;
    }
  }

  /** One attempt after the other: `limit` of them fail at once, the others after the half hour. */
  function OneByOne(n: nat, limit: nat): seq<Event> {
    if n == 0 then []
    else
      var at := if n <= limit then 0 else LOCK_SECONDS;
      OneByOne(n - 1, limit) + [Check(0, at)] + [Fail(0, at)]
  }

  /** After them `k` attempts are checked before any of these is recorded. */
  function ThenTogether(n: nat, k: nat, limit: nat): seq<Event> {
    if k == 0 then OneByOne(n, limit) else ThenTogether(n, k - 1, limit) + [Check(k - 1, LOCK_SECONDS)]
  }

  function Below(k: nat): (ids: set<nat>)
    ensures |ids| == k && forall id: nat :: id in ids <==> id < k
  {
    if k == 0 then {} else Below(k - 1) + {k - 1}
  }

  ghost predicate AtOne(n: Machine, compared: nat, limit: nat) {
    && n.compared == compared && n.recorded == compared && n.inFlight == {} && !n.row.isLocked
    && (if compared < limit then n.row.failed == compared && n.row.lockouts == 0 && n.row.lockedUntil == None
        else n.row.failed == compared - limit && n.row.lockouts == 1 && n.row.lockedUntil == Some(LOCK_SECONDS))
  }

  ghost predicate AtTogether(n: Machine, compared: nat, k: nat) {
    && n.compared == compared + k && n.inFlight == Below(k) && !n.row.isLocked
    && (n.row.lockedUntil.Some? ==> n.row.lockedUntil.value <= LOCK_SECONDS)
  }

  lemma OneByOneStep(n: Machine, compared: nat, limit: nat)
    requires limit >= 1 && AtOne(n, compared, limit) && compared + 1 < 2 * limit
    ensures var at := if compared < limit then 0 else LOCK_SECONDS;
            var n' := Apply(n, Check(0, at), limit);
            && Enabled(n, Check(0, at)) && n'.inFlight == {0} && Enabled(n', Fail(0, at))
            && AtOne(Apply(n', Fail(0, at), limit), compared + 1, limit)
  {
    assert {0} - {0} == {};
  }

  lemma GuessesMore(front: seq<Event>, e: Event)
    ensures OnlyGuesses([])
    ensures OnlyGuesses(front) && (e.Check? || e.Fail?) ==> OnlyGuesses(front + [e])
  {}

  /** One more attempt that fails before the next begins. */
  lemma OneByOneMore(m: Machine, before: seq<Event>, compared: nat, limit: nat, overlap: nat)
    requires overlap >= 1 && limit >= 1 && compared + 1 < 2 * limit
    ensures var at := if compared < limit then 0 else LOCK_SECONDS;
            var events := before + [Check(0, at)] + [Fail(0, at)];
            && (OnlyGuesses(before) ==> OnlyGuesses(events))
            && (AtOne(After(m, before, limit), compared, limit) && Possible(m, before, limit, overlap) ==>
                  AtOne(After(m, events, limit), compared + 1, limit) && Possible(m, events, limit, overlap))
  {
    hide After, Possible, AtOne, Apply, Enabled, OnlyGuesses;
    var at := if compared < limit then 0 else LOCK_SECONDS;
    GuessesMore(before, Check(0, at));
    GuessesMore(before + [Check(0, at)], Fail(0, at));
    OneMore(m, before, Check(0, at), limit, overlap);
    OneMore(m, before + [Check(0, at)], Fail(0, at), limit, overlap);
    if AtOne(After(m, before, limit), compared, limit) {
      OneByOneStep(After(m, before, limit), compared, limit);
      EmptyHanded(Apply(Apply(After(m, before, limit), Check(0, at), limit), Fail(0, at), limit), compared + 1, limit);
    }
  }

  lemma {:induction false} OneByOneGoes(m: Machine, n: nat, limit: nat, overlap: nat)
    requires limit >= 1 && overlap >= 1 && Fresh(m) && m.row.lockedUntil == None && n < 2 * limit
    ensures AtOne(After(m, OneByOne(n, limit), limit), n, limit)
    ensures Possible(m, OneByOne(n, limit), limit, overlap) && OnlyGuesses(OneByOne(n, limit))
  {
    hide After, Possible, AtOne, OnlyGuesses;
    if n > 0 {
      OneByOneGoes(m, n - 1, limit, overlap);
      OneByOneMore(m, OneByOne(n - 1, limit), n - 1, limit, overlap);
    } else {
      NothingYet(m, limit, overlap);
      GuessesMore([], AdminUnlock);
    }
  }

  lemma EmptyHanded(n: Machine, compared: nat, limit: nat)
    ensures AtOne(n, compared, limit) ==> n.inFlight == {}
  {}

  lemma NothingYet(m: Machine, limit: nat, overlap: nat)
    requires limit >= 1 && Fresh(m) && m.row.lockedUntil == None
    ensures Possible(m, [], limit, overlap) && AtOne(After(m, [], limit), 0, limit)
  {}

  lemma TogetherStep(n: Machine, compared: nat, k: nat, limit: nat)
    ensures AtOne(n, compared, limit) ==> AtTogether(n, compared, 0)
    ensures var e := Check(k, LOCK_SECONDS);
            AtTogether(n, compared, k) ==>
              Enabled(n, e) && AtTogether(Apply(n, e, limit), compared, k + 1) && |Apply(n, e, limit).inFlight| == k + 1
  {}

  lemma {:induction false} TogetherGoes(m: Machine, n: nat, k: nat, limit: nat, overlap: nat)
    requires limit >= 1 && overlap >= 1 && Fresh(m) && m.row.lockedUntil == None && n < 2 * limit && k <= overlap
    ensures var events := ThenTogether(n, k, limit);
            && Possible(m, events, limit, overlap) && OnlyGuesses(events)
            && AtTogether(After(m, events, limit), n, k)
  {
    hide After, Possible, AtOne, AtTogether, Apply, Enabled, OneByOne, OnlyGuesses;
    if k == 0 {
      OneByOneGoes(m, n, limit, overlap);
      TogetherStep(After(m, OneByOne(n, limit), limit), n, 0, limit);
    } else {
      TogetherGoes(m, n, k - 1, limit, overlap);
      var before := ThenTogether(n, k - 1, limit);
      TogetherStep(After(m, before, limit), n, k - 1, limit);
      OneMore(m, before, Check(k - 1, LOCK_SECONDS), limit, overlap);
      GuessesMore(before, Check(k - 1, LOCK_SECONDS));
    }
  }

  /**
   The bound is reached, whatever the limit and the overlap: one comparison short of the lock, all
   the others come at once.
   */
  lemma OverlapReachesTheBound(m: Machine, limit: nat, overlap: nat)
    requires limit >= 1 && overlap >= 1 && Fresh(m) && m.row.lockedUntil == None
    ensures var events := ThenTogether(2 * limit - 1, overlap, limit);
            && Possible(m, events, limit, overlap) && OnlyGuesses(events)
            && After(m, events, limit).compared == 2 * limit + overlap - 1
  {
    TogetherGoes(m, 2 * limit - 1, overlap, limit, overlap);
    hide After, Possible, ThenTogether, OnlyGuesses;
  }

  /** Fewer failures than the limit lock nothing. */
  lemma NoLockBeforeTheLimit(m: Machine, n: nat, limit: nat)
    requires limit >= 1 && Fresh(m) && m.row.lockedUntil == None && n < limit
    ensures forall now :: !IsLockedAt(After(m, OneByOne(n, limit), limit).row, now)
  {
    OneByOneGoes(m, n, limit, 1);
    hide After, OneByOne, Possible, OnlyGuesses;
  }

  /** The limit-th failure locks the account for half an hour to the second, the 2 * limit-th for good. */
  lemma LocksAtTheLimit(m: Machine, limit: nat, now: int)
    requires limit >= 1 && Fresh(m) && m.row.lockedUntil == None
    ensures IsLockedAt(After(m, OneByOne(limit, limit), limit).row, now) <==> now < 30 * 60
    ensures IsLockedAt(CountFailure(After(m, OneByOne(2 * limit - 1, limit), limit).row, 30 * 60, limit), now)
  {
    OneByOneGoes(m, limit, limit, 1);
    OneByOneGoes(m, 2 * limit - 1, limit, 1);
    hide After, OneByOne, Possible, OnlyGuesses;
  }

  lemma OneMore(m: Machine, front: seq<Event>, e: Event, limit: nat, overlap: nat)
    ensures After(m, front + [e], limit) == Apply(After(m, front, limit), e, limit)
    ensures Possible(m, front + [e], limit, overlap) <==>
              && Possible(m, front, limit, overlap)
              && Enabled(After(m, front, limit), e)
              && |Apply(After(m, front, limit), e, limit).inFlight| <= overlap
  {
    assert (front + [e])[..|front|] == front;
  }
}
