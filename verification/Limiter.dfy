/**
 Rate limiter and circuit breaker of the Resonance embed client
 (app/integrations/resonance/limiter.py) and the route that drives them
 (resonance_code in app/api/resonance.py).

 Clock readings are in milliseconds: datetime('now') drops the fraction of a
 second, julianday('now') keeps it, and `state` uses both.
 */
module Limiter {
  import opened Wrappers

  const USER_LIMIT := 20
  const USER_WINDOW := 600
  const GLOBAL_LIMIT := 600
  const GLOBAL_WINDOW := 600

  const CONFIG_THRESHOLD := 2
  const CONFIG_COOLDOWN := 300
  const TRANSIENT_THRESHOLD := 6
  const TRANSIENT_COOLDOWN := 30

  /** datetime('now') at a clock reading of `ms`. */
  function Sec(ms: int): int { ms / 1000 }

  // ---- The tables ------------------------------------------------------------

  /** A row of resonance_rate. */
  datatype Window = Window(start: int, count: nat)

  /** The row of resonance_breaker, created by the migration. */
  datatype Breaker = Breaker(failures: nat, openUntil: Option<int>)

  type Rate = map<string, Window>

  /** The row of one bucket after its upsert at second `now`. */
  function Bump(row: Option<Window>, window: nat, now: int): Window {
    if row.None? || row.value.start <= now - window then Window(now, 1)
    else Window(row.value.start, row.value.count + 1)
  }

  function RowOf(rate: Rate, bucket: string): Option<Window> {
    if bucket in rate then Some(rate[bucket]) else None
  }

  /** Seconds `state` says are left, truncated as CAST(... AS INTEGER) does. */
  function RetryIn(b: Breaker, ms: int): (left: nat)
    ensures left > 0 <==> b.openUntil.Some? && b.openUntil.value * 1000 - ms >= 1000
  {
    if b.openUntil.Some? && b.openUntil.value > Sec(ms) then (b.openUntil.value * 1000 - ms) / 1000 else 0
  }

  predicate IsOpen(b: Breaker, ms: int) { RetryIn(b, ms) > 0 }

  datatype Failure = NotConfigured | ConfigError | TransientError

  function Threshold(e: Failure): nat { if e.TransientError? then TRANSIENT_THRESHOLD else CONFIG_THRESHOLD }
  function Cooldown(e: Failure): nat { if e.TransientError? then TRANSIENT_COOLDOWN else CONFIG_COOLDOWN }

  function Trip(b: Breaker, e: Failure, ms: int): Breaker {
    Breaker(b.failures + 1,
            if b.failures + 1 >= Threshold(e) then Some(Sec(ms) + Cooldown(e)) else b.openUntil)
  }

  // ---- The operations ----------------------------------------------------------

  /** What the body of one call to /api/resonance/code met: the client's answer and when it came. */
  datatype Reply = Granted | Refused(error: Failure)

  datatype Answer = TooMany | Paused | Failed | Code   // 429, 503, 502, 200

  class Guard {
    var rate: Rate
    var breaker: Breaker

    constructor ()
      ensures rate == map[] && breaker == Breaker(0, None)
    {
      rate, breaker := map[], Breaker(0, None);
    }

    method Consume(bucket: string, limit: nat, window: nat, ms: int) returns (admitted: bool)
      modifies this`rate
      ensures rate == old(rate)[bucket := Bump(RowOf(old(rate), bucket), window, Sec(ms))]
      ensures admitted <==> rate[bucket].count <= limit
    {
      if bucket !in rate || rate[bucket].start <= Sec(ms) - window {
        rate := rate[bucket := Window(Sec(ms), 1)];
      } else {
        rate := rate[bucket := Window(rate[bucket].start, rate[bucket].count + 1)];
      }
      var count := rate[bucket].count;
      admitted := !(count > limit);
    }

    /** The user's own limit first: a user over it spends nothing of the install's. */
    method ConsumeForUser(username: string, ms: int) returns (admitted: bool)
      modifies this`rate
      ensures (rate, admitted) == Charge(old(rate), username, ms)
    {
      admitted := Consume("u:" + username, USER_LIMIT, USER_WINDOW, ms);
      if admitted {
        admitted := Consume("global", GLOBAL_LIMIT, GLOBAL_WINDOW, ms);
      }
    }

    method RecordSuccess()
      modifies this`breaker
      ensures breaker == Breaker(0, None)
    {
      breaker := Breaker(0, None);
    }

    method RecordFailure(e: Failure, ms: int)
      modifies this`breaker
      ensures breaker == Trip(old(breaker), e, ms)
    {
      var failures := breaker.failures + 1;
      if failures >= Threshold(e) {
        breaker := Breaker(failures, Some(Sec(ms) + Cooldown(e)));
      } else {
        breaker := breaker.(failures := failures);
      }
    }

    /** resonance_code from the limiter on; `reply` came at `answered` if the call was made. */
    method ResonanceCode(c: Call) returns (answer: Answer)
      modifies this
      ensures (State(rate, breaker), answer) == Serve(old(State(rate, breaker)), c)
    {
      var admitted := ConsumeForUser(c.username, c.asked);
      if !admitted {
        return TooMany;
      }
      if IsOpen(breaker, c.asked) {
        return Paused;
      }
      if c.reply.Refused? {
        RecordFailure(c.reply.error, c.answered);
        return Failed;
      }
      RecordSuccess();
      return Code;
    }
  }

  datatype State = State(rate: Rate, breaker: Breaker)
  datatype Call = Call(username: string, asked: int, answered: int, reply: Reply)

  function Charge(rate: Rate, username: string, ms: int): (Rate, bool) {
    var own := Bump(RowOf(rate, "u:" + username), USER_WINDOW, Sec(ms));
    var rate' := rate["u:" + username := own];
    if own.count > USER_LIMIT then (rate', false)
    else
      var all := Bump(RowOf(rate', "global"), GLOBAL_WINDOW, Sec(ms));
      (rate'["global" := all], all.count <= GLOBAL_LIMIT)
  }

  function Serve(s: State, c: Call): (State, Answer) {
    var (rate, admitted) := Charge(s.rate, c.username, c.asked);
    if !admitted then (State(rate, s.breaker), TooMany)
    else if IsOpen(s.breaker, c.asked) then (State(rate, s.breaker), Paused)
    else if c.reply.Refused? then (State(rate, Trip(s.breaker, c.reply.error, c.answered)), Failed)
    else (State(rate, Breaker(0, None)), Code)
  }

  /** What serving one call does to the row of a user: nothing unless it is that user's call. */
  lemma ServeChargesOneUser(s: State, c: Call, username: string)
    ensures var row := RowOf(s.rate, "u:" + username);
            var row' := RowOf(Serve(s, c).0.rate, "u:" + username);
            && row' == (if c.username == username then Some(Bump(row, USER_WINDOW, Sec(c.asked))) else row)
            && (c.username == username && (Serve(s, c).1.Failed? || Serve(s, c).1.Code?) ==>
               row'.value.count <= USER_LIMIT)
  {
    assert ("u:" + username)[0] == 'u' && "global"[0] == 'g';
    if c.username != username {
      assert ("u:" + c.username)[2..] == c.username && ("u:" + username)[2..] == username;
    }
  }

  /** The caller's own row after a call, which decides whether the install's is charged. */
  function OwnRow(s: State, c: Call): Window {
    Bump(RowOf(s.rate, "u:" + c.username), USER_WINDOW, Sec(c.asked))
  }

  /** What serving one call does to the row all users share: nothing unless the caller is within their own limit. */
  lemma ServeChargesTheShared(s: State, c: Call)
    ensures var row, row' := RowOf(s.rate, "global"), RowOf(Serve(s, c).0.rate, "global");
            && row' == (if OwnRow(s, c).count <= USER_LIMIT then Some(Bump(row, GLOBAL_WINDOW, Sec(c.asked))) else row)
            && (Serve(s, c).1.Failed? || Serve(s, c).1.Code? ==>
                  OwnRow(s, c).count <= USER_LIMIT && row'.value.count <= GLOBAL_LIMIT)
  {
    assert ("u:" + c.username)[0] == 'u' && "global"[0] == 'g';
  }

  /** A user over their own limit leaves the install's allowance alone. */
  lemma OverLimitSpendsNothingGlobal(s: State, c: Call)
    requires OwnRow(s, c).count > USER_LIMIT
    ensures RowOf(Serve(s, c).0.rate, "global") == RowOf(s.rate, "global")
    ensures Serve(s, c).0.breaker == s.breaker && Serve(s, c).1 == TooMany
  {
    assert ("u:" + c.username)[0] == 'u' && "global"[0] == 'g';
  }

  /**
   The answer, read off the rows after the call and the breaker before it. A call that
   gets a code was made with the breaker closed and leaves it as new; one that is not
   made leaves it alone.
   */
  lemma ServeAnswers(s: State, c: Call)
    ensures var (s', answer) := Serve(s, c);
            var own, open := "u:" + c.username, s.breaker.openUntil;
            && own in s'.rate
            && (s'.rate[own].count <= 20 ==> "global" in s'.rate)
            && (answer == TooMany <==> s'.rate[own].count > 20 || s'.rate["global"].count > 600)
            && (answer == Paused <==> answer != TooMany && open.Some? && 1000 * open.value - c.asked >= 1000)
            && (answer == Failed <==> answer !in {TooMany, Paused} && c.reply.Refused?)
            && (answer == Code <==> answer !in {TooMany, Paused} && c.reply.Granted?)
            && (answer == Code ==> s'.breaker.failures == 0 && s'.breaker.openUntil == None)
            && (answer == Failed ==> s'.breaker.failures == s.breaker.failures + 1)
            && (answer in {TooMany, Paused} ==> s'.breaker == s.breaker)
  {
    assert ("u:" + c.username)[0] == 'u' && "global"[0] == 'g';
  }

  /** What serving one call does to the breaker. */
  lemma ServeTripsOnlyWhenClosed(s: State, c: Call)
    ensures var (s', answer) := Serve(s, c);
            && (answer.Failed? ==> c.reply.Refused? && !IsOpen(s.breaker, c.asked)
                                   && s'.breaker == Trip(s.breaker, c.reply.error, c.answered))
            && (answer.Code? ==> c.reply.Granted?)
            && (answer.TooMany? || answer.Paused? ==> s'.breaker == s.breaker)
  {}

  function StateAfter(s: State, run: seq<Call>): State {
    if run == [] then s
    else Serve(StateAfter(s, run[..|run| - 1]), run[|run| - 1]).0
  }

  const IDLE := State(map[], Breaker(0, None))
}
