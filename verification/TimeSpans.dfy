/**
 Counting time stamps that fall into half-open intervals. Time is in whole
 seconds, the resolution of SQLite's datetime('now').
 */
module TimeSpans {

  /** How many of `times` lie in [lo, hi). */
  function CountIn(times: seq<int>, lo: int, hi: int): nat {
    if times == [] then 0
    else
      var last := |times| - 1;
      CountIn(times[..last], lo, hi) + if lo <= times[last] < hi then 1 else 0
  }

  /** How many stamps of all the segments together lie in [lo, hi). */
  function CountAll(segments: seq<seq<int>>, lo: int, hi: int): nat {
    if segments == [] then 0
    else
      var last := |segments| - 1;
      CountAll(segments[..last], lo, hi) + CountIn(segments[last], lo, hi)
  }

  ghost predicate AllBelow(times: seq<int>, bound: int) {
    forall i | 0 <= i < |times| :: times[i] < bound
  }

  /** How many steps of length `by` cover a span of length `x`: the quotient rounded up. */
  function CeilDiv(x: int, step: int): (n: nat)
    requires step > 0
    decreases x
  {
    if x <= 0 then 0 else 1 + CeilDiv(x - step, step)
  }

  lemma {:induction false} CeilDivIsQuotientRoundedUp(x: int, step: int)
    requires step > 0 && x > 0
    ensures (CeilDiv(x, step) - 1) * step < x <= CeilDiv(x, step) * step
    decreases x
  {
    if x > step {
      CeilDivIsQuotientRoundedUp(x - step, step);
    }
  }

  lemma CountAppend(times: seq<int>, t: int, lo: int, hi: int)
    ensures CountIn(times + [t], lo, hi) == CountIn(times, lo, hi) + if lo <= t < hi then 1 else 0
  {
    assert (times + [t])[..|times|] == times;
  }

  lemma CountAllAppend(segments: seq<seq<int>>, s: seq<int>, lo: int, hi: int)
    ensures CountAll(segments + [s], lo, hi) == CountAll(segments, lo, hi) + CountIn(s, lo, hi)
  {
    assert (segments + [s])[..|segments|] == segments;
  }

  /** Widening an interval cannot lose stamps. */
  lemma {:induction false} CountMonotone(times: seq<int>, lo: int, hi: int, lo': int, hi': int)
    requires forall i | 0 <= i < |times| :: lo <= times[i] < hi ==> lo' <= times[i] < hi'
    ensures CountIn(times, lo, hi) <= CountIn(times, lo', hi')
  {
    if times != [] {
      CountMonotone(times[..|times| - 1], lo, hi, lo', hi');
    }
  }

  lemma CountNone(times: seq<int>, lo: int, hi: int)
    requires forall i | 0 <= i < |times| :: !(lo <= times[i] < hi)
    ensures CountIn(times, lo, hi) == 0
  {}

  lemma {:induction false} CountPositive(times: seq<int>, lo: int, hi: int) returns (i: nat)
    requires CountIn(times, lo, hi) > 0
    ensures i < |times| && lo <= times[i] < hi
  {
    var last := |times| - 1;
    if lo <= times[last] < hi {
      i := last;
    } else {
      i := CountPositive(times[..last], lo, hi);
    }
  }

  lemma {:induction false} CountAllMonotone(segments: seq<seq<int>>, lo: int, hi: int, lo': int, hi': int)
    requires forall k, i | 0 <= k < |segments| && 0 <= i < |segments[k]| ::
               lo <= segments[k][i] < hi ==> lo' <= segments[k][i] < hi'
    ensures CountAll(segments, lo, hi) <= CountAll(segments, lo', hi')
  {
    if segments != [] {
      var last := |segments| - 1;
      assert forall k | 0 <= k < last :: segments[..last][k] == segments[k];
      CountAllMonotone(segments[..last], lo, hi, lo', hi');
      CountMonotone(segments[last], lo, hi, lo', hi');
    }
  }
}
