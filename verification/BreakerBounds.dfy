/**
 How many calls the breaker of Limiter lets out to a failing Resonance.
 */
module BreakerBounds {
  import opened Wrappers
  import opened Limiter

  /** Sequential use of the route: each call is answered before the next one is made. */
  ghost predicate OneAtATime(run: seq<Call>) {
    && (forall i | 0 <= i < |run| :: run[i].asked <= run[i].answered)
    && (forall i, j | 0 <= i < j < |run| :: run[i].answered <= run[j].asked)
  }

  /** Whether serving a call sends a request: without a key and an address nothing is sent. */
  function Sent(s: State, c: Call): nat {
    var answer := Serve(s, c).1;
    if (answer.Failed? && c.reply.error != NotConfigured) || answer.Code? then 1 else 0
  }

  /** Requests that went out to Resonance. */
  function Outbound(s: State, run: seq<Call>): nat {
    if run == [] then 0
    else Outbound(s, run[..|run| - 1]) + Sent(StateAfter(s, run[..|run| - 1]), run[|run| - 1])
  }

  ghost predicate AllFail(run: seq<Call>) {
    forall c | c in run :: c.reply.Refused?
  }

  /** The last second of a cooldown, in which the breaker already reads closed. */
  predicate InLastSecond(b: Breaker, ms: int) {
    b.openUntil.Some? && 1000 * (b.openUntil.value - 1) < ms < 1000 * b.openUntil.value
  }

  /** No request comes in the last second of a cooldown. */
  ghost predicate Patient(s: State, run: seq<Call>) {
    run == [] ||
    (var front := run[..|run| - 1];
     Patient(s, front) && !InLastSecond(StateAfter(s, front).breaker, run[|run| - 1].asked))
  }

  /** Requests that come on whole seconds never do. */
  lemma {:induction false} WholeSecondsArePatient(s: State, run: seq<Call>)
    requires forall c | c in run :: c.asked % 1000 == 0
    ensures Patient(s, run)
  {
    if run != [] {
      hide StateAfter;
      assert run[|run| - 1] in run && forall c | c in run[..|run| - 1] :: c in run;
      WholeSecondsArePatient(s, run[..|run| - 1]);
    }
  }

  /** Milliseconds between the first and the last request of a run. */
  function Elapsed(run: seq<Call>): int
    requires run != []
  {
    run[|run| - 1].asked - run[0].asked
  }

  /** A threshold, the cooldown behind it, and the milliseconds each further call is shown to cost. */
  datatype Pace = Pace(threshold: nat, cooldown: nat, gap: nat)

  /**
   Every failure of the run opens the breaker for at least the cooldown once the
   threshold is on record.
   */
  ghost predicate Trips(run: seq<Call>, p: Pace) {
    forall c | c in run && c.reply.Refused? ::
      Threshold(c.reply.error) <= p.threshold && p.cooldown <= Cooldown(c.reply.error)
  }

  /** The gap is a second less than the cooldown: the breaker reads closed in its last second. */
  predicate Early(p: Pace) { p.gap == 1000 * (p.cooldown - 1) }

  /** What `n` failures past the threshold have cost, at `gap` milliseconds each. */
  function Cost(n: nat, gap: nat): nat {
    if n == 0 then 0 else Cost(n - 1, gap) + gap
  }

  lemma {:induction false} CostIsProduct(n: nat, gap: nat)
    ensures Cost(n, gap) == n * gap
  {
    if n > 0 {
      CostIsProduct(n - 1, gap);
    }
  }

  /**
   The potential: since the first call, in second `begin`, each failure past the
   threshold has cost `gap` milliseconds, and the breaker stays open for `cooldown` more.
   A breaker that reads closed early does so a millisecond into the second.
   */
  ghost predicate Paid(b: Breaker, outbound: nat, begin: int, lastAsked: int, p: Pace) {
    && outbound <= b.failures
    && begin <= Sec(lastAsked)
    && (b.failures >= p.threshold ==>
          && b.openUntil.Some?
          && 1000 * begin + Cost(b.failures - p.threshold, p.gap) + 1000 * p.cooldown <= 1000 * b.openUntil.value
          && 1000 * begin + Cost(b.failures - p.threshold, p.gap) <= lastAsked)
    && (b.failures > p.threshold && Early(p) ==> 1000 * begin + Cost(b.failures - p.threshold, p.gap) < lastAsked)
  }

  /** A breaker that reads closed again has more than cooldown - 1 seconds behind it, or all of them. */
  lemma ClosedMeansOver(b: Breaker, ms: int)
    requires b.openUntil.Some? && !IsOpen(b, ms)
    ensures ms > 1000 * (b.openUntil.value - 1)
    ensures !InLastSecond(b, ms) ==> ms >= 1000 * b.openUntil.value
  {}

  lemma PaidStep(b: Breaker, outbound: nat, begin: int, lastAsked: int, c: Call, p: Pace)
    requires p.threshold > 0 && Paid(b, outbound, begin, lastAsked, p)
    requires lastAsked <= c.asked && c.asked <= c.answered && !IsOpen(b, c.asked)
    requires c.reply.Refused? && Threshold(c.reply.error) <= p.threshold && p.cooldown <= Cooldown(c.reply.error)
    requires Early(p) || (p.gap == 1000 * p.cooldown && !InLastSecond(b, c.asked))
    ensures Paid(Trip(b, c.reply.error, c.answered), outbound + 1, begin, c.asked, p)
  {
    if b.failures >= p.threshold {
      ClosedMeansOver(b, c.asked);
    }
  }

  lemma NothingPaid(b: Breaker, first: int, p: Pace)
    requires b.failures == 0 && p.threshold > 0
    ensures Paid(b, 0, Sec(first), first, p)
  {}

  /** What a call of a failing run has to satisfy. */
  ghost predicate Fits(c: Call, p: Pace) {
    && c.asked <= c.answered
    && c.reply.Refused?
    && Threshold(c.reply.error) <= p.threshold && p.cooldown <= Cooldown(c.reply.error)
  }

  lemma PaidCall(s: State, outbound: nat, begin: int, lastAsked: int, c: Call, p: Pace)
    requires p.threshold > 0 && Fits(c, p) && lastAsked <= c.asked
    requires Early(p) || (p.gap == 1000 * p.cooldown && !InLastSecond(s.breaker, c.asked))
    requires Paid(s.breaker, outbound, begin, lastAsked, p)
    ensures Paid(Serve(s, c).0.breaker, outbound + Sent(s, c), begin, c.asked, p)
  {
    ServeTripsOnlyWhenClosed(s, c);
    hide IsOpen, Cost;
    if Serve(s, c).1.Failed? {
      PaidStep(s.breaker, outbound, begin, lastAsked, c, p);
    }
  }

  lemma {:induction false} AlwaysPaid(s: State, run: seq<Call>, p: Pace)
    requires s.breaker == Breaker(0, None) && p.threshold > 0 && run != []
    requires Early(p) || (p.gap == 1000 * p.cooldown && Patient(s, run))
    requires forall i | 0 <= i < |run| :: Fits(run[i], p)
    requires forall i, j | 0 <= i < j < |run| :: run[i].answered <= run[j].asked
    ensures Paid(StateAfter(s, run).breaker, Outbound(s, run), Sec(run[0].asked), run[|run| - 1].asked, p)
  {
    hide Serve, Sent, Fits, Paid, Sec;
    var front, c := run[..|run| - 1], run[|run| - 1];
    if front == [] {
      NothingPaid(s.breaker, c.asked, p);
      PaidCall(s, 0, Sec(c.asked), c.asked, c, p);
    } else {
      AlwaysPaid(s, front, p);
      var d := front[|front| - 1];
      assert front[0] == run[0] && d == run[|run| - 2];
      assert d.asked <= d.answered by { FitsInOrder(d, p); }
      PaidCall(StateAfter(s, front), Outbound(s, front), Sec(run[0].asked), d.asked, c, p);
    }
  }

  lemma FitsInOrder(c: Call, p: Pace)
    requires Fits(c, p)
    ensures c.asked <= c.answered
  {}

  lemma ProductMonotone(a: nat, b: nat, step: nat)
    ensures a <= b ==> a * step <= b * step
  {}

  lemma QuotientAtLeast(a: nat, gap: nat, span: nat)
    requires gap > 0
    ensures 0 <= span / gap
    ensures Cost(a, gap) <= span ==> a <= span / gap
  {
    CostIsProduct(a, gap);
    ProductMonotone(span / gap + 1, a, gap);
    assert (span / gap + 1) * gap == span / gap * gap + gap;
  }

  lemma PaidIsBounded(b: Breaker, outbound: nat, first: int, last: int, p: Pace)
    requires p.gap > 0 && first <= last && Paid(b, outbound, Sec(first), last, p)
    ensures Early(p) ==> outbound <= p.threshold + (last - first + 998) / p.gap
    ensures outbound <= p.threshold + (last - first + first % 1000) / p.gap
  {
    hide Cost;
    if b.failures > p.threshold {
      var n := b.failures - p.threshold;
      QuotientAtLeast(n, p.gap, last - first + 998);
      QuotientAtLeast(n, p.gap, last - first + first % 1000);
    } else {
      QuotientAtLeast(0, p.gap, last - first + 998);
      QuotientAtLeast(0, p.gap, last - first + first % 1000);
    }
  }

  lemma OutboundBound(s: State, run: seq<Call>, p: Pace)
    requires s.breaker == Breaker(0, None) && p.threshold > 0 && p.gap > 0 && run != []
    requires OneAtATime(run) && AllFail(run) && Trips(run, p)
    requires Early(p) || (p.gap == 1000 * p.cooldown && Patient(s, run))
    ensures Early(p) ==> Outbound(s, run) <= p.threshold + (Elapsed(run) + 998) / p.gap
    ensures Outbound(s, run) <= p.threshold + (Elapsed(run) + run[0].asked % 1000) / p.gap
  {
    hide Paid, StateAfter, Outbound, Sec;
    forall i | 0 <= i < |run|
      ensures Fits(run[i], p)
    {
      assert run[i] in run;
    }
    AlwaysPaid(s, run, p);
    var last := |run| - 1;
    assert run[0].asked <= run[0].answered && (last > 0 ==> run[0].answered <= run[last].asked);
    PaidIsBounded(StateAfter(s, run).breaker, Outbound(s, run), run[0].asked, run[last].asked, p);
  }

  /**
   Main result on the breaker, any mix of errors: 6 calls, then one per 29 seconds
   (the first of them 998 ms early), or one per 30 seconds, counted from the whole
   second before the first, when no request comes in the last second of a cooldown.
   */
  lemma OutboundCallsAreBounded(run: seq<Call>)
    requires run != [] && OneAtATime(run) && AllFail(run)
    ensures Outbound(IDLE, run) <= 6 + (Elapsed(run) + 998) / 29_000
    ensures Patient(IDLE, run) ==> Outbound(IDLE, run) <= 6 + (Elapsed(run) + run[0].asked % 1000) / 30_000
  {
    OutboundBound(IDLE, run, Pace(6, 30, 29_000));
    if Patient(IDLE, run) {
      OutboundBound(IDLE, run, Pace(6, 30, 30_000));
    }
  }

  /** When nothing but configuration errors come back: 2 calls, then one per 299 (or 300) seconds. */
  lemma ConfigErrorsAreBoundedHarder(run: seq<Call>)
    requires run != [] && OneAtATime(run) && AllFail(run)
    requires forall c | c in run :: !c.reply.error.TransientError?
    ensures Outbound(IDLE, run) <= 2 + (Elapsed(run) + 998) / 299_000
    ensures Patient(IDLE, run) ==> Outbound(IDLE, run) <= 2 + (Elapsed(run) + run[0].asked % 1000) / 300_000
  {
    OutboundBound(IDLE, run, Pace(2, 300, 299_000));
    if Patient(IDLE, run) {
      OutboundBound(IDLE, run, Pace(2, 300, 300_000));
    }
  }

  // ---- After a success ----------------------------------------------------------------------

  /**
   The bounds start over with every success: whatever came before it, a failing run
   after it sends no more than one from rest.
   */
  lemma BoundsStartOver(before: State, c: Call, run: seq<Call>)
    requires Serve(before, c).1 == Code && run != [] && OneAtATime(run) && AllFail(run)
    ensures var s := Serve(before, c).0;
            && Outbound(s, run) <= 6 + (Elapsed(run) + 998) / 29_000
            && ((forall d | d in run :: d.reply.Refused? && !d.reply.error.TransientError?) ==>
                  Outbound(s, run) <= 2 + (Elapsed(run) + 998) / 299_000)
  {
    ServeAnswers(before, c);
    hide Serve, Outbound, OneAtATime, AllFail;
    var s := Serve(before, c).0;
    AnyErrorTrips(run);
    OutboundBound(s, run, Pace(6, 30, 29_000));
    if forall d | d in run :: d.reply.Refused? && !d.reply.error.TransientError? {
      ConfigErrorsTrip(run);
      OutboundBound(s, run, Pace(2, 300, 299_000));
    }
  }

  lemma AnyErrorTrips(run: seq<Call>)
    ensures Trips(run, Pace(6, 30, 29_000))
  {}

  lemma ConfigErrorsTrip(run: seq<Call>)
    requires forall d | d in run && d.reply.Refused? :: !d.reply.error.TransientError?
    ensures Trips(run, Pace(2, 300, 299_000))
  {}

  /** Failures since the last success. */
  function Streak(s: State, run: seq<Call>): nat {
    if run == [] then 0
    else
      var front := run[..|run| - 1];
      match Serve(StateAfter(s, front), run[|run| - 1]).1
      case Code => 0
      case Failed => Streak(s, front) + 1
      case _ => Streak(s, front)
  }

  /** No failure brings the streak to the threshold of its kind. */
  ghost predicate Calm(s: State, run: seq<Call>) {
    run == [] ||
    (var front, c := run[..|run| - 1], run[|run| - 1];
     && Calm(s, front)
     && (Serve(StateAfter(s, front), c).1 == Failed ==>
           Streak(s, front) + 1 < if c.reply.error.TransientError? then 6 else 2))
  }

  lemma {:induction false} CalmStaysClosed(run: seq<Call>)
    ensures StateAfter(IDLE, run).breaker.failures == Streak(IDLE, run)
    ensures Calm(IDLE, run) ==> StateAfter(IDLE, run).breaker.openUntil == None
  {
    hide Charge;
    if run != [] {
      CalmStaysClosed(run[..|run| - 1]);
      ServeAnswers(StateAfter(IDLE, run[..|run| - 1]), run[|run| - 1]);
    }
  }

  /** While failures in a row stay below their threshold no call is ever paused, however many fail in all. */
  lemma CalmRunsAreNeverPaused(run: seq<Call>, i: nat)
    requires i < |run| && Calm(IDLE, run[..i])
    ensures Serve(StateAfter(IDLE, run[..i]), run[i]).1 != Paused
  {
    CalmStaysClosed(run[..i]);
    ServeAnswers(StateAfter(IDLE, run[..i]), run[i]);
    hide Serve, StateAfter;
  }

  /** The failure that reaches the threshold of its kind opens the breaker for its cooldown, less the last second. */
  lemma OpensAtTheThreshold(run: seq<Call>, c: Call, d: Call)
    requires Serve(StateAfter(IDLE, run), c).1 == Failed
    requires var transient := c.reply.error.TransientError?;
             && Streak(IDLE, run) + 1 >= (if transient then 6 else 2)
             && d.asked <= 1000 * (c.answered / 1000 + (if transient then 30 else 300) - 1)
    ensures Serve(Serve(StateAfter(IDLE, run), c).0, d).1 in {Paused, TooMany}
  {
    CalmStaysClosed(run);
    ServeTripsOnlyWhenClosed(StateAfter(IDLE, run), c);
    ServeAnswers(Serve(StateAfter(IDLE, run), c).0, d);
    hide Serve, StateAfter, Streak;
  }

  // ---- The bounds are reached ---------------------------------------------------------------

  /**
   The k-th of a run of calls that all fail with `e`: up to the threshold in the last
   millisecond of second 0, then each a millisecond into the last second of the
   cooldown, when the breaker already reads closed.
   */
  function Moment(e: Failure, k: nat): int {
    if k < Threshold(e) then 999 else 1000 * Cost(k + 1 - Threshold(e), Cooldown(e) - 1) + 1
  }

  function Name(k: nat): string { seq(k, _ => 'a') }

  function Eager(e: Failure, k: nat): Call { Call(Name(k), Moment(e, k), Moment(e, k), Refused(e)) }

  function EagerRun(e: Failure, n: nat): seq<Call> {
    if n == 0 then [] else EagerRun(e, n - 1) + [Eager(e, n - 1)]
  }

  function Least(a: nat, b: nat): nat { if a <= b then a else b }

  /** After `n` of them: the next users have not called yet, and the install's window is far from full. */
  ghost predicate Roomy(rate: Rate, e: Failure, n: nat) {
    && (forall k: nat :: n <= k ==> "u:" + Name(k) !in rate)
    && ("global" in rate ==>
          n > 0 && 29 * rate["global"].count
              <= 29 * Least(n, Threshold(e)) + Sec(Moment(e, n - 1)) - rate["global"].start)
  }

  lemma MomentsApart(e: Failure, n: nat)
    requires n > 0
    ensures 0 < Moment(e, n - 1) <= Moment(e, n)
    ensures Sec(Moment(e, n)) >= Sec(Moment(e, n - 1)) + if n < Threshold(e) then 0 else 29
  {}

  lemma NamesDiffer(j: nat, k: nat)
    ensures "u:" + Name(k) != "global"
    ensures "u:" + Name(j) == "u:" + Name(k) ==> j == k
  {
    assert ("u:" + Name(k))[0] == 'u' && "global"[0] == 'g';
    assert |"u:" + Name(j)| == 2 + j && |"u:" + Name(k)| == 2 + k;
  }

  lemma RoomForOneMore(rate: Rate, e: Failure, n: nat)
    requires Roomy(rate, e, n)
    ensures Charge(rate, Name(n), Moment(e, n)).1
    ensures Roomy(Charge(rate, Name(n), Moment(e, n)).0, e, n + 1)
  {
    hide Moment, Name;
    if n > 0 {
      MomentsApart(e, n);
    }
    forall k: nat
      ensures "u:" + Name(k) != "global"
      ensures "u:" + Name(k) == "u:" + Name(n) ==> k == n
    {
      NamesDiffer(k, n);
      NamesDiffer(n, k);
    }
  }

  /** After `n` failing calls with `e`, each made at its moment. */
  ghost predicate Tripped(b: Breaker, e: Failure, n: nat) {
    && b.failures == n
    && b.openUntil == if n < Threshold(e) then None else Some(Sec(Moment(e, n - 1)) + Cooldown(e))
  }

  lemma AgainClosed(b: Breaker, e: Failure, n: nat)
    requires Tripped(b, e, n)
    ensures !IsOpen(b, Moment(e, n)) && Tripped(Trip(b, e, Moment(e, n)), e, n + 1)
  {}

  lemma OneMoreGoesOut(s: State, e: Failure, n: nat)
    requires e != NotConfigured && Roomy(s.rate, e, n) && Tripped(s.breaker, e, n)
    ensures Sent(s, Eager(e, n)) == 1
    ensures var s' := Serve(s, Eager(e, n)).0; Roomy(s'.rate, e, n + 1) && Tripped(s'.breaker, e, n + 1)
  {
    RoomForOneMore(s.rate, e, n);
    AgainClosed(s.breaker, e, n);
    hide Roomy, Tripped, Charge, IsOpen, Moment;
  }

  lemma OneMoreCall(s: State, front: seq<Call>, c: Call)
    ensures StateAfter(s, front + [c]) == Serve(StateAfter(s, front), c).0
    ensures Outbound(s, front + [c]) == Outbound(s, front) + Sent(StateAfter(s, front), c)
  {
    hide Serve, Sent;
    assert (front + [c])[..|front|] == front;
  }

  lemma AtRest(e: Failure)
    ensures Roomy(IDLE.rate, e, 0) && Tripped(IDLE.breaker, e, 0)
    ensures StateAfter(IDLE, []) == IDLE && Outbound(IDLE, []) == 0
  {}

  lemma {:induction false} AllGoOut(e: Failure, n: nat)
    requires e != NotConfigured
    ensures var s := StateAfter(IDLE, EagerRun(e, n));
            Outbound(IDLE, EagerRun(e, n)) == n && Roomy(s.rate, e, n) && Tripped(s.breaker, e, n)
  {
    hide Roomy, Tripped, Eager, Serve, Sent, StateAfter, Outbound;
    if n == 0 {
      AtRest(e);
    } else {
      AllGoOut(e, n - 1);
      OneMoreGoesOut(StateAfter(IDLE, EagerRun(e, n - 1)), e, n - 1);
      OneMoreCall(IDLE, EagerRun(e, n - 1), Eager(e, n - 1));
    }
  }

  lemma {:induction false} EagerRunIs(e: Failure, n: nat)
    ensures |EagerRun(e, n)| == n && forall k | 0 <= k < n :: EagerRun(e, n)[k] == Eager(e, k)
  {
    if n > 0 {
      EagerRunIs(e, n - 1);
    }
  }

  lemma {:induction false} MomentsInOrder(e: Failure, j: nat, k: nat)
    requires j <= k
    ensures Moment(e, j) <= Moment(e, k)
  {
    if j < k {
      MomentsInOrder(e, j, k - 1);
      MomentsApart(e, k);
    }
  }

  lemma NeverEarlier(e: Failure, n: nat)
    requires n > Threshold(e)
    ensures n == Threshold(e) + (Moment(e, n - 1) - Moment(e, 0) + 998) / (1000 * (Cooldown(e) - 1))
  {
    CostIsProduct(n - Threshold(e), Cooldown(e) - 1);
    hide Cost;
  }

  /**
   Every call of such a run goes out, however long the run, and the bounds on calls
   hold with equality from the first call past the threshold on.
   */
  lemma {:induction false} TheBoundsAreReached(e: Failure, n: nat)
    requires e != NotConfigured && n > 0
    ensures var run := EagerRun(e, n);
            && run != [] && OneAtATime(run) && AllFail(run) && (forall c | c in run :: c.reply.error == e)
            && Outbound(IDLE, run) == n
            && (n > Threshold(e) ==> n == Threshold(e) + (Elapsed(run) + 998) / (1000 * (Cooldown(e) - 1)))
  {
    hide Moment, Outbound, StateAfter, EagerRun, Roomy, Tripped, Threshold, Cooldown;
    AllGoOut(e, n);
    EagerRunIs(e, n);
    forall i, j | 0 <= i < j < n
      ensures Moment(e, i) <= Moment(e, j)
    {
      MomentsInOrder(e, i, j);
    }
    if n > Threshold(e) {
      NeverEarlier(e, n);
    }
  }
}
