/**
 What the fixed-window limiter of Limiter guarantees over whole runs: which
 requests a bucket admits, and how many fall into any span of its window.
 Stamps are whole seconds, as the window comparison sees them.
 */
module RateWindows {
  import opened Wrappers
  import opened TimeSpans
  import opened Limiter

  // ---- Fixed windows: runs of requests against one bucket ---------------------------

  /** A fixed window with the stamps of every request counted in it, refused ones too. */
  datatype Episode = Episode(start: int, asked: seq<int>) {
    /** The requests let through: exactly the first `limit`. */
    function Admitted(limit: nat): seq<int> {
      if |asked| <= limit then asked else asked[..limit]
    }
  }

  ghost predicate Sorted(times: seq<int>) {
    forall i, j | 0 <= i < j < |times| :: times[i] <= times[j]
  }

  function RowAfter(times: seq<int>, window: nat): Option<Window> {
    if times == [] then None
    else Some(Bump(RowAfter(times[..|times| - 1], window), window, times[|times| - 1]))
  }

  /** The stamps of the requests `consume` lets through. */
  function AdmittedBy(times: seq<int>, window: nat, limit: nat): seq<int> {
    if times == [] then []
    else
      var last := |times| - 1;
      if RowAfter(times, window).value.count <= limit
      then AdmittedBy(times[..last], window, limit) + [times[last]]
      else AdmittedBy(times[..last], window, limit)
  }

  /** The windows the run falls into: a new one starts when the last is `window` seconds old. */
  function Episodes(times: seq<int>, window: nat): seq<Episode> {
    if times == [] then []
    else
      var front, t := Episodes(times[..|times| - 1], window), times[|times| - 1];
      if front == [] || front[|front| - 1].start + window <= t then front + [Episode(t, [t])]
      else front[..|front| - 1] + [Episode(front[|front| - 1].start, front[|front| - 1].asked + [t])]
  }

  function Flatten(episodes: seq<Episode>, limit: nat): seq<int> {
    if episodes == [] then []
    else Flatten(episodes[..|episodes| - 1], limit) + episodes[|episodes| - 1].Admitted(limit)
  }

  /** A request opens a window or joins the last one. */
  function Continued(e: seq<Episode>, window: nat, t: int): seq<Episode> {
    if e == [] || e[|e| - 1].start + window <= t then e + [Episode(t, [t])]
    else e[..|e| - 1] + [Episode(e[|e| - 1].start, e[|e| - 1].asked + [t])]
  }

  lemma EpisodesStep(front: seq<int>, t: int, window: nat, limit: nat)
    ensures Episodes(front + [t], window) == Continued(Episodes(front, window), window, t)
    ensures RowAfter(front + [t], window) == Some(Bump(RowAfter(front, window), window, t))
    ensures AdmittedBy(front + [t], window, limit)
         == AdmittedBy(front, window, limit)
            + if Bump(RowAfter(front, window), window, t).count <= limit then [t] else []
  {
    assert (front + [t])[..|front|] == front;
  }

  lemma FlattenStep(front: seq<Episode>, e: Episode, limit: nat)
    ensures Flatten(front + [e], limit) == Flatten(front, limit) + e.Admitted(limit)
  {
    assert (front + [e])[..|front|] == front;
  }

  lemma AdmittedStep(start: int, asked: seq<int>, t: int, limit: nat)
    ensures Episode(start, asked + [t]).Admitted(limit)
         == Episode(start, asked).Admitted(limit) + if |asked| + 1 <= limit then [t] else []
  {}

  lemma NoneAdmitted(start: int, limit: nat)
    ensures Episode(start, []).Admitted(limit) == []
  {}

  /** The row of the bucket counts the requests of the last window. */
  predicate Tracks(row: Option<Window>, e: seq<Episode>) {
    row == if e == [] then None else Some(Window(e[|e| - 1].start, |e[|e| - 1].asked|))
  }

  lemma ContinuedAdmits(row: Option<Window>, e: seq<Episode>, window: nat, t: int, limit: nat)
    requires Tracks(row, e)
    ensures Tracks(Some(Bump(row, window, t)), Continued(e, window, t))
    ensures Flatten(Continued(e, window, t), limit) == Flatten(e, limit) + if Bump(row, window, t).count <= limit
              then [t] else []
  {
    hide Flatten, Episode.Admitted;
    if e == [] || e[|e| - 1].start + window <= t {
      FlattenStep(e, Episode(t, [t]), limit);
      AdmittedStep(t, [], t, limit);
      NoneAdmitted(t, limit);
      assert [] + [t] == [t];
    } else {
      var n := |e| - 1;
      assert e == e[..n] + [e[n]];
      FlattenStep(e[..n], e[n], limit);
      FlattenStep(e[..n], Episode(e[n].start, e[n].asked + [t]), limit);
      AdmittedStep(e[n].start, e[n].asked, t, limit);
    }
  }

  /** A run so far: the row is that of the last window, and what was let through is what the windows let through. */
  ghost predicate InStep(times: seq<int>, window: nat, limit: nat) {
    && Tracks(RowAfter(times, window), Episodes(times, window))
    && AdmittedBy(times, window, limit) == Flatten(Episodes(times, window), limit)
  }

  lemma InStepNext(front: seq<int>, t: int, window: nat, limit: nat)
    ensures InStep([], window, limit)
    ensures InStep(front, window, limit) ==> InStep(front + [t], window, limit)
  {
    EpisodesStep(front, t, window, limit);
    if InStep(front, window, limit) {
      ContinuedAdmits(RowAfter(front, window), Episodes(front, window), window, t, limit);
    }
    hide Continued, Bump, Tracks;
  }

  /** Each fixed window admits exactly its first `limit` requests. */
  lemma {:induction false} WindowsAdmitTheirFirst(times: seq<int>, window: nat, limit: nat)
    ensures InStep(times, window, limit)
  {
    hide *;
    if times != [] {
      var front, t := times[..|times| - 1], times[|times| - 1];
      assert times == front + [t];
      WindowsAdmitTheirFirst(front, window, limit);
      InStepNext(front, t, window, limit);
    } else {
      InStepNext([], 0, window, limit);
    }
  }

  /** Windows open with the request that starts them, at least `window` after the one before. */
  ghost predicate Apart(episodes: seq<Episode>, window: nat) {
    && (forall k | 0 <= k < |episodes| :: episodes[k].asked != [] && episodes[k].asked[0] == episodes[k].start)
    && (forall k, i | 0 <= k < |episodes| && 0 <= i < |episodes[k].asked| ::
          episodes[k].start <= episodes[k].asked[i] < episodes[k].start + window)
    && (forall k, m | 0 <= k < |episodes| && m == k + 1 < |episodes| ::
          episodes[k].start + window <= episodes[m].start)
  }

  lemma ApartNone(window: nat)
    ensures Apart([], window)
  {}

  lemma ApartOpen(front: seq<Episode>, t: int, window: nat)
    requires window > 0 && Apart(front, window)
    requires front != [] ==> front[|front| - 1].start + window <= t
    ensures Apart(front + [Episode(t, [t])], window)
  {}

  lemma ApartGrow(front: seq<Episode>, e: Episode, t: int, window: nat)
    requires Apart(front + [e], window) && e.start <= t < e.start + window
    ensures Apart(front + [Episode(e.start, e.asked + [t])], window)
  {
    var all, all' := front + [e], front + [Episode(e.start, e.asked + [t])];
    assert forall k | 0 <= k < |front| :: all'[k] == all[k];
    assert all[|front|] == e;
    assert all'[|front|] == Episode(e.start, e.asked + [t]);
    assert forall i | 0 <= i < |e.asked| :: (e.asked + [t])[i] == e.asked[i];
  }

  lemma {:induction false} EpisodesApart(times: seq<int>, window: nat)
    requires window > 0 && Sorted(times)
    ensures Apart(Episodes(times, window), window)
    ensures times != [] ==> var e := Episodes(times, window); e != [] && e[|e| - 1].start <= times[|times| - 1]
  {
    if times == [] {
      ApartNone(window);
    } else {
      hide Apart, Episodes;
      var front, t := times[..|times| - 1], times[|times| - 1];
      EpisodesApart(front, window);
      assert times == front + [t];
      EpisodesStep(front, t, window, 0);
      var before := Episodes(front, window);
      if before == [] || before[|before| - 1].start + window <= t {
        ApartOpen(before, t, window);
      } else {
        assert front[|front| - 1] == times[|times| - 2] <= t;
        var n := |before| - 1;
        assert before == before[..n] + [before[n]];
        ApartGrow(before[..n], before[n], t, window);
      }
    }
  }

  lemma {:induction false} CountConcat(a: seq<int>, b: seq<int>, lo: int, hi: int)
    ensures CountIn(a + b, lo, hi) == CountIn(a, lo, hi) + CountIn(b, lo, hi)
  {
    if b == [] {
      assert a + b == a;
    } else {
      var last := |b| - 1;
      CountConcat(a, b[..last], lo, hi);
      CountAppend(a + b[..last], b[last], lo, hi);
      assert a + b == a + b[..last] + [b[last]];
    }
  }

  lemma {:induction false} CountAtMostLength(times: seq<int>, lo: int, hi: int)
    ensures CountIn(times, lo, hi) <= |times|
    ensures times != [] && !(lo <= times[0] < hi) ==> CountIn(times, lo, hi) <= |times| - 1
  {
    if times != [] {
      CountAtMostLength(times[..|times| - 1], lo, hi);
    }
  }

  lemma ApartLast(episodes: seq<Episode>, window: nat)
    requires Apart(episodes, window) && episodes != []
    ensures var front, e := episodes[..|episodes| - 1], episodes[|episodes| - 1];
            && Apart(front, window)
            && e.asked != [] && e.asked[0] == e.start
            && (forall i | 0 <= i < |e.asked| :: e.start <= e.asked[i] < e.start + window)
            && (front != [] ==> front[|front| - 1].start + window <= e.start)
  {}

  /**
   Counting what a series of windows admits in an interval no longer than one of
   them. A window that opened before the interval has spent its first admission.
   */
  lemma {:induction false} WindowsReaching(episodes: seq<Episode>, window: nat, limit: nat, lo: int, hi: int)
    requires window > 0 && limit > 0 && Apart(episodes, window) && hi <= lo + window
    ensures CountIn(Flatten(episodes, limit), lo, hi) <= 2 * limit - 1
    ensures episodes != [] && episodes[|episodes| - 1].start < lo ==>
              CountIn(Flatten(episodes, limit), lo, hi) <= limit - 1
    ensures episodes != [] && episodes[|episodes| - 1].start + window <= lo ==>
              CountIn(Flatten(episodes, limit), lo, hi) == 0
  {
    if episodes != [] {
      hide Apart, Flatten, CountIn, Episode.Admitted;
      var front, e := episodes[..|episodes| - 1], episodes[|episodes| - 1];
      assert episodes == front + [e];
      ApartLast(episodes, window);
      WindowsReaching(front, window, limit, lo, hi);
      FlattenStep(front, e, limit);
      CountConcat(Flatten(front, limit), e.Admitted(limit), lo, hi);
      EpisodeReaching(e, window, limit, lo, hi);
    } else {
      NothingAdmitted(limit, lo, hi);
    }
  }

  /** What one window admits in an interval. */
  lemma EpisodeReaching(e: Episode, window: nat, limit: nat, lo: int, hi: int)
    requires limit > 0 && e.asked != [] && e.asked[0] == e.start
    requires forall i | 0 <= i < |e.asked| :: e.start <= e.asked[i] < e.start + window
    ensures CountIn(e.Admitted(limit), lo, hi) <= limit
    ensures e.start < lo ==> CountIn(e.Admitted(limit), lo, hi) <= limit - 1
    ensures e.start >= hi || e.start + window <= lo ==> CountIn(e.Admitted(limit), lo, hi) == 0
  {
    hide CountIn;
    CountAtMostLength(e.Admitted(limit), lo, hi);
    if e.start >= hi || e.start + window <= lo {
      CountNone(e.Admitted(limit), lo, hi);
    }
  }

  lemma NothingAdmitted(limit: nat, lo: int, hi: int)
    ensures CountIn(Flatten([], limit), lo, hi) == 0
  {}

  /**
   Main result on the limiter: in any run of requests against one bucket, any
   half-open interval as long as the window admits fewer than twice the limit.
   */
  lemma FewerThanTwiceTheLimit(times: seq<int>, window: nat, limit: nat, lo: int)
    requires window > 0 && limit > 0 && Sorted(times)
    ensures CountIn(AdmittedBy(times, window, limit), lo, lo + window) <= 2 * limit - 1
  {
    hide CountIn, Apart, Episodes, RowAfter, Flatten, AdmittedBy;
    WindowsAdmitTheirFirst(times, window, limit);
    EpisodesApart(times, window);
    WindowsReaching(Episodes(times, window), window, limit, lo, lo + window);
  }

  /** One request opens a window, others come at its end, and more right after it. */
  function Burst(before: nat, after: nat, window: nat): seq<int> {
    if after > 0 then Burst(before, after - 1, window) + [window]
    else if before > 0 then Burst(before - 1, 0, window) + [window - 1]
    else [0]
  }

  /** All requests of the burst have been let through, and all but the first count in the window that starts at 1. */
  ghost predicate AllLetThrough(before: nat, after: nat, window: nat, limit: nat) {
    var times := Burst(before, after, window);
    && RowAfter(times, window) == Some(if after > 0 then Window(window, after) else Window(0, before + 1))
    && AdmittedBy(times, window, limit) == times
    && CountIn(times, 1, window + 1) == before + after
  }

  lemma BurstOpens(window: nat, limit: nat)
    requires limit >= 1
    ensures AllLetThrough(0, 0, window, limit)
  {
    var times := [0];
    assert times[..0] == [];
    assert RowAfter([], window) == None && AdmittedBy([], window, limit) == [] && CountIn([], 1, window + 1) == 0;
    assert RowAfter(times, window) == Some(Window(0, 1));
    assert AdmittedBy(times, window, limit) == [] + [0];
  }

  lemma BurstGoesOn(before: nat, after: nat, window: nat, limit: nat)
    requires 1 <= limit && 2 <= window && AllLetThrough(before, after, window, limit)
    ensures after < limit ==> AllLetThrough(before, after + 1, window, limit)
    ensures after == 0 && before + 1 < limit ==> AllLetThrough(before + 1, 0, window, limit)
  {
    hide RowAfter, AdmittedBy, CountIn, Episodes;
    var times := Burst(before, after, window);
    EpisodesStep(times, window, window, limit);
    EpisodesStep(times, window - 1, window, limit);
    CountAppend(times, window, 1, window + 1);
    CountAppend(times, window - 1, 1, window + 1);
  }

  lemma {:induction false} BurstIsLetThrough(before: nat, after: nat, window: nat, limit: nat)
    requires before < limit && after <= limit && 2 <= window
    ensures AllLetThrough(before, after, window, limit)
  {
    hide AllLetThrough;
    if after > 0 {
      BurstIsLetThrough(before, after - 1, window, limit);
      BurstGoesOn(before, after - 1, window, limit);
    } else if before > 0 {
      BurstIsLetThrough(before - 1, 0, window, limit);
      BurstGoesOn(before - 1, 0, window, limit);
    } else {
      BurstOpens(window, limit);
    }
  }

  lemma {:induction false} BurstIsSorted(before: nat, after: nat, window: nat)
    requires window >= 1
    ensures var times := Burst(before, after, window);
            Sorted(times) && times != [] && times[|times| - 1] <= if after > 0 then window else window - 1
  {
    if after > 0 {
      BurstIsSorted(before, after - 1, window);
    } else if before > 0 {
      BurstIsSorted(before - 1, 0, window);
    }
  }

  /** In windows of one second, whole-second stamps leave no room for a second window: the limit itself is the bound. */
  lemma OneSecondWindows(times: seq<int>, limit: nat, lo: int)
    requires limit > 0 && Sorted(times)
    ensures CountIn(AdmittedBy(times, 1, limit), lo, lo + 1) <= limit
  {
    hide CountIn, Apart, Episodes, RowAfter, Flatten, AdmittedBy;
    WindowsAdmitTheirFirst(times, 1, limit);
    EpisodesApart(times, 1);
    OneWindowReaches(Episodes(times, 1), limit, lo);
  }

  lemma {:induction false} OneWindowReaches(episodes: seq<Episode>, limit: nat, lo: int)
    requires limit > 0 && Apart(episodes, 1)
    ensures CountIn(Flatten(episodes, limit), lo, lo + 1) <= limit
  {
    hide Apart, Flatten, CountIn, Episode.Admitted;
    if episodes == [] {
      NothingAdmitted(limit, lo, lo + 1);
    } else {
      var front, e := episodes[..|episodes| - 1], episodes[|episodes| - 1];
      assert episodes == front + [e];
      ApartLast(episodes, 1);
      OneWindowReaches(front, limit, lo);
      if front == [] {
        NothingAdmitted(limit, lo, lo + 1);
      } else {
        WindowsReaching(front, 1, limit, lo, lo + 1);
      }
      FlattenStep(front, e, limit);
      CountConcat(Flatten(front, limit), e.Admitted(limit), lo, lo + 1);
      EpisodeReaching(e, 1, limit, lo, lo + 1);
    }
  }

  /** The bound is reached, whatever the limit, in every longer window. */
  lemma TheBoundIsReached(window: nat, limit: nat)
    requires 2 <= window && 1 <= limit
    ensures var times := Burst(limit - 1, limit, window);
            Sorted(times) && CountIn(AdmittedBy(times, window, limit), 1, 1 + window) == 2 * limit - 1
  {
    hide Sorted, CountIn, AdmittedBy, Burst;
    BurstIsSorted(limit - 1, limit, window);
    BurstIsLetThrough(limit - 1, limit, window, limit);
  }

  // ---- The same for every bucket of the route --------------------------------------------

  ghost predicate AskedInOrder(run: seq<Call>) {
    forall i, j | 0 <= i < j < |run| :: run[i].asked <= run[j].asked
  }

  /** The seconds at which requests of one user were made. */
  function AskedBy(run: seq<Call>, username: string): seq<int> {
    if run == [] then []
    else
      var front, c := AskedBy(run[..|run| - 1], username), run[|run| - 1];
      if c.username == username then front + [Sec(c.asked)] else front
  }

  /** The seconds at which the client was used for one user: past limiter and breaker. */
  function ReachedFor(s: State, run: seq<Call>, username: string): seq<int> {
    if run == [] then []
    else
      var front, c := run[..|run| - 1], run[|run| - 1];
      var answer := Serve(StateAfter(s, front), c).1;
      if c.username == username && (answer.Failed? || answer.Code?)
      then ReachedFor(s, front, username) + [Sec(c.asked)]
      else ReachedFor(s, front, username)
  }

  /** Buckets do not interfere: a user's row is the one their own requests alone produce. */
  lemma {:induction false} BucketsAreIndependent(run: seq<Call>, username: string)
    ensures RowOf(StateAfter(IDLE, run).rate, "u:" + username) == RowAfter(AskedBy(run, username), USER_WINDOW)
  {
    hide Serve, Bump;
    if run != [] {
      var front, c := run[..|run| - 1], run[|run| - 1];
      BucketsAreIndependent(front, username);
      ServeChargesOneUser(StateAfter(IDLE, front), c, username);
      EpisodesStep(AskedBy(front, username), Sec(c.asked), USER_WINDOW, USER_LIMIT);
    }
  }

  lemma {:induction false} AskedByIsSorted(run: seq<Call>, username: string)
    requires AskedInOrder(run)
    ensures Sorted(AskedBy(run, username))
    ensures AskedBy(run, username) != [] ==>
              run != [] && AskedBy(run, username)[|AskedBy(run, username)| - 1] <= Sec(run[|run| - 1].asked)
  {
    if run != [] {
      AskedByIsSorted(run[..|run| - 1], username);
      if |run| > 1 {
        assert run[|run| - 2].asked <= run[|run| - 1].asked;
      }
    }
  }

  lemma {:induction false} ReachedIsAdmitted(run: seq<Call>, username: string, lo: int, hi: int)
    ensures CountIn(ReachedFor(IDLE, run, username), lo, hi)
         <= CountIn(AdmittedBy(AskedBy(run, username), USER_WINDOW, USER_LIMIT), lo, hi)
  {
    hide Serve, Bump, CountIn, RowAfter;
    if run != [] {
      var front, c := run[..|run| - 1], run[|run| - 1];
      ReachedIsAdmitted(front, username, lo, hi);
      BucketsAreIndependent(front, username);
      ServeChargesOneUser(StateAfter(IDLE, front), c, username);
      if c.username == username {
        var asked, t := AskedBy(front, username), Sec(c.asked);
        EpisodesStep(asked, t, USER_WINDOW, USER_LIMIT);
        CountAppend(AdmittedBy(asked, USER_WINDOW, USER_LIMIT), t, lo, hi);
        CountAppend(ReachedFor(IDLE, front, username), t, lo, hi);
      }
    }
  }

  /** Whatever other users do, one user reaches Resonance at most 39 times in any ten minutes. */
  lemma UserReachesAtMost(run: seq<Call>, username: string, lo: int)
    requires AskedInOrder(run)
    ensures CountIn(ReachedFor(IDLE, run, username), lo, lo + 600) <= 39
  {
    AskedByIsSorted(run, username);
    ReachedIsAdmitted(run, username, lo, lo + USER_WINDOW);
    FewerThanTwiceTheLimit(AskedBy(run, username), USER_WINDOW, USER_LIMIT, lo);
  }

  // ---- The bucket all users share --------------------------------------------------------

  /** The seconds at which a call was counted in the "global" bucket: its user was within their own limit. */
  function ChargedToAll(run: seq<Call>): seq<int> {
    if run == [] then []
    else
      var front, c := run[..|run| - 1], run[|run| - 1];
      if OwnRow(StateAfter(IDLE, front), c).count <= USER_LIMIT then ChargedToAll(front) + [Sec(c.asked)]
      else ChargedToAll(front)
  }

  /** The seconds at which the client was used at all. */
  function Reached(s: State, run: seq<Call>): seq<int> {
    if run == [] then []
    else
      var front, c := run[..|run| - 1], run[|run| - 1];
      var answer := Serve(StateAfter(s, front), c).1;
      if answer.Failed? || answer.Code? then Reached(s, front) + [Sec(c.asked)] else Reached(s, front)
  }

  lemma {:induction false} ChargedToAllIsSorted(run: seq<Call>)
    requires AskedInOrder(run)
    ensures Sorted(ChargedToAll(run))
    ensures ChargedToAll(run) != [] ==>
              run != [] && ChargedToAll(run)[|ChargedToAll(run)| - 1] <= Sec(run[|run| - 1].asked)
  {
    if run != [] {
      hide OwnRow;
      ChargedToAllIsSorted(run[..|run| - 1]);
      if |run| > 1 {
        assert run[|run| - 2].asked <= run[|run| - 1].asked;
      }
    }
  }

  /** The shared row is the one the charged calls produce, and what reaches Resonance is among what it admits. */
  ghost predicate SharedInStep(run: seq<Call>, lo: int, hi: int) {
    && RowOf(StateAfter(IDLE, run).rate, "global") == RowAfter(ChargedToAll(run), GLOBAL_WINDOW)
    && CountIn(Reached(IDLE, run), lo, hi)
       <= CountIn(AdmittedBy(ChargedToAll(run), GLOBAL_WINDOW, GLOBAL_LIMIT), lo, hi)
  }

  lemma SharedNext(front: seq<Call>, c: Call)
    ensures var s := StateAfter(IDLE, front);
            var counted := OwnRow(s, c).count <= USER_LIMIT;
            var answer := Serve(s, c).1;
            && StateAfter(IDLE, front + [c]) == Serve(s, c).0
            && ChargedToAll(front + [c]) == ChargedToAll(front) + (if counted then [Sec(c.asked)] else [])
            && Reached(IDLE, front + [c]) == Reached(IDLE, front) + if answer.Failed? || answer.Code?
               then [Sec(c.asked)] else []
  {
    hide Serve, OwnRow;
    assert (front + [c])[..|front|] == front;
  }

  lemma SharedStart(lo: int, hi: int)
    ensures SharedInStep([], lo, hi)
  {}

  lemma SharedStep(front: seq<Call>, c: Call, lo: int, hi: int)
    ensures SharedInStep(front, lo, hi) ==> SharedInStep(front + [c], lo, hi)
  {
    hide Serve, OwnRow, Bump, CountIn, Episodes, StateAfter, Reached, ChargedToAll, AdmittedBy, RowAfter, RowOf;
    var s, charged, t := StateAfter(IDLE, front), ChargedToAll(front), Sec(c.asked);
    SharedNext(front, c);
    ServeChargesTheShared(s, c);
    EpisodesStep(charged, t, GLOBAL_WINDOW, GLOBAL_LIMIT);
    var admitted, reached := AdmittedBy(charged, GLOBAL_WINDOW, GLOBAL_LIMIT), Reached(IDLE, front);
    CountAppend(admitted, t, lo, hi);
    CountAppend(reached, t, lo, hi);
    assert charged + [] == charged && admitted + [] == admitted && reached + [] == reached;
  }

  lemma {:induction false} SharedAlwaysInStep(run: seq<Call>, lo: int, hi: int)
    ensures SharedInStep(run, lo, hi)
  {
    hide SharedInStep;
    if run == [] {
      SharedStart(lo, hi);
    } else {
      var front := run[..|run| - 1];
      SharedAlwaysInStep(front, lo, hi);
      SharedStep(front, run[|run| - 1], lo, hi);
      assert run == front + [run[|run| - 1]];
    }
  }

  /** All users together reach Resonance at most 1,199 times in any ten minutes. */
  lemma AllUsersReachAtMost(run: seq<Call>, lo: int)
    requires AskedInOrder(run)
    ensures CountIn(Reached(IDLE, run), lo, lo + 600) <= 1_199
  {
    hide Reached, CountIn, AdmittedBy, ChargedToAll, Sorted;
    ChargedToAllIsSorted(run);
    SharedAlwaysInStep(run, lo, lo + GLOBAL_WINDOW);
    FewerThanTwiceTheLimit(ChargedToAll(run), GLOBAL_WINDOW, GLOBAL_LIMIT, lo);
  }
}
