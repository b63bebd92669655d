/**
 Per-address throttle on failed sign-ins (app/auth/throttle.py): a sliding
 window of failures, a block once the window holds too many, and a purge of
 rows older than a day. Times are whole seconds.
 */
module Throttle {
  import opened Wrappers
  import opened TimeSpans

  const DAY := 86_400

  /** The three settings, the two spans in minutes as they are configured. */
  datatype Policy = Policy(limit: nat, windowMinutes: nat, blockMinutes: nat) {
    /** What int_setting can return: every setting lies between 1 and its ceiling. */
    predicate Legal() {
      1 <= limit <= 10_000 && 1 <= windowMinutes <= 1440 && 1 <= blockMinutes <= 1440
    }
    function Window(): nat { 60 * windowMinutes }
    function Block(): nat { 60 * blockMinutes }
    /** The failures one address can have counted within one window. */
    function Allowance(): nat
      requires Legal()
    {
      limit * CeilDiv(Window(), Block())
    }
  }

  datatype Failure = Failure(address: string, ts: int)

  /** The rows of address_failures in insertion order, and address_blocks. */
  datatype Tables = Tables(failures: seq<Failure>, blocks: map<string, int>)

  const EMPTY := Tables([], map[])

  // ---- SQL fragments -------------------------------------------------------

  /** DELETE FROM address_failures WHERE ts < cutoff. */
  function Since(failures: seq<Failure>, cutoff: int): seq<Failure> {
    if failures == [] then []
    else
      var last := |failures| - 1;
      var kept := Since(failures[..last], cutoff);
      if failures[last].ts < cutoff then kept else kept + [failures[last]]
  }

  /** DELETE FROM address_failures WHERE address = the given one. */
  function Without(failures: seq<Failure>, address: string): seq<Failure> {
    if failures == [] then []
    else
      var last := |failures| - 1;
      var kept := Without(failures[..last], address);
      if failures[last].address == address then kept else kept + [failures[last]]
  }

  /** The stamps of one address, oldest row first. */
  function TimesOf(failures: seq<Failure>, address: string): seq<int> {
    if failures == [] then []
    else
      var last := |failures| - 1;
      var times := TimesOf(failures[..last], address);
      if failures[last].address == address then times + [failures[last].ts] else times
  }

  function Unexpired(blocks: map<string, int>, now: int): map<string, int> {
    map a | a in blocks && blocks[a] > now :: blocks[a]
  }

  /** How many stamps are later than `cutoff`: the COUNT(*) of record_failure. */
  function CountAfter(times: seq<int>, cutoff: int): nat {
    if times == [] then 0
    else
      var last := |times| - 1;
      CountAfter(times[..last], cutoff) + if times[last] > cutoff then 1 else 0
  }

  // ---- What the two operations do to the tables -----------------------------

  /** The block row of `address` if it is still in force. */
  function Remaining(t: Tables, address: string, now: int): (left: Option<int>)
    ensures left.Some? <==> address in t.blocks && t.blocks[address] > now
    ensures left.Some? ==> left.value == t.blocks[address] - now >= 1
  {
    if address in t.blocks && t.blocks[address] > now then Some(t.blocks[address] - now) else None
  }

  /** The tables after one counted failure, and whether it reached the limit. */
  function Record(t: Tables, address: string, now: int, p: Policy): (Tables, bool) {
    var failures := Since(t.failures, now - DAY) + [Failure(address, now)];
    var blocks := Unexpired(t.blocks, now);
    if CountAfter(TimesOf(failures, address), now - p.Window()) < p.limit then
      (Tables(failures, blocks), false)
    else
      (Tables(Without(failures, address), blocks[address := now + p.Block()]), true)
  }

  /** The two tables as the module updates them. */
  class Store {
    var failures: seq<Failure>
    var blocks: map<string, int>

    ghost function Rows(): Tables
      reads this
    {
      Tables(failures, blocks)
    }

    constructor ()
      ensures Rows() == EMPTY
    {
      failures, blocks := [], map[];
    }

    method BlockedSeconds(address: string, now: int) returns (left: Option<int>)
      ensures left == Remaining(Rows(), address, now)
    {
      if address in blocks && blocks[address] > now {
        var seconds := blocks[address] - now;
        left := Some(if seconds > 1 then seconds else 1);
      } else {
        left := None;
      }
    }

    method RecordFailure(address: string, now: int, p: Policy) returns (left: Option<int>)
      requires p.Legal()
      modifies this
      ensures Rows() == Record(old(Rows()), address, now, p).0
      ensures left == if Record(old(Rows()), address, now, p).1 then Some(p.Block()) else None
    {
      hide Since, Without, TimesOf, CountAfter, Unexpired;
      failures := Since(failures, now - DAY);
      blocks := Unexpired(blocks, now);
      failures := failures + [Failure(address, now)];
      var count := CountAfter(TimesOf(failures, address), now - p.Window());
      if count < p.limit {
        return None;
      }
      failures := Without(failures, address);
      blocks := blocks[address := now + p.Block()];
      left := BlockedSeconds(address, now);
    }
  }

  // ---- Runs -----------------------------------------------------------------

  /** A credential check that fails, asked for from `address` at `at`. */
  datatype Attempt = Attempt(address: string, at: int)

  ghost predicate Chronological(run: seq<Attempt>) {
    forall i, j | 0 <= i < j < |run| :: run[i].at <= run[j].at
  }

  /** Every handler asks for the block before it counts a failure. */
  function Guarded(t: Tables, a: Attempt, p: Policy): Tables {
    if Remaining(t, a.address, a.at).Some? then t else Record(t, a.address, a.at, p).0
  }

  /** The tables after a run of attempts handled one after the other. */
  function TablesAfter(run: seq<Attempt>, p: Policy): Tables {
    if run == [] then EMPTY
    else Guarded(TablesAfter(run[..|run| - 1], p), run[|run| - 1], p)
  }

  /** The stamps of the failures of `address` that were counted, in order. */
  function Counted(run: seq<Attempt>, address: string, p: Policy): seq<int> {
    if run == [] then []
    else
      var before, a := run[..|run| - 1], run[|run| - 1];
      if a.address == address && Remaining(TablesAfter(before, p), address, a.at).None?
      then Counted(before, address, p) + [a.at] else Counted(before, address, p)
  }

  /**
   The same decisions taken from the address's complete history: `closed` holds
   one segment of counted stamps per block, `current` the stamps since the last.
   Nothing is ever purged and no other address appears.
   */
  datatype Ledger = Ledger(closed: seq<seq<int>>, current: seq<int>) {
    /** The end of the last block, if there was one. */
    function BlockEnd(p: Policy): Option<int> {
      if closed == [] || closed[|closed| - 1] == [] then None
      else
        var ended := closed[|closed| - 1];
        Some(ended[|ended| - 1] + p.Block())
    }

    predicate Refuses(at: int, p: Policy) {
      BlockEnd(p).Some? && BlockEnd(p).value > at
    }

    function Enter(at: int, p: Policy): Ledger {
      if Refuses(at, p) then this
      else if CountIn(current + [at], at - p.Window() + 1, at + 1) < p.limit
      then Ledger(closed, current + [at])
      else Ledger(closed + [current + [at]], [])
    }

    function Segments(): seq<seq<int>> { closed + [current] }
  }

  function LedgerAfter(run: seq<Attempt>, address: string, p: Policy): Ledger {
    if run == [] then Ledger([], [])
    else
      var before, a := LedgerAfter(run[..|run| - 1], address, p), run[|run| - 1];
      if a.address == address then before.Enter(a.at, p) else before
  }

  // ---- The tables agree with the ledger --------------------------------------

  lemma {:induction false} SinceKeepsRecentCounts(failures: seq<Failure>, address: string, cutoff: int, lo: int,
                                                  hi: int)
    requires cutoff <= lo
    ensures CountIn(TimesOf(Since(failures, cutoff), address), lo, hi) == CountIn(TimesOf(failures, address), lo, hi)
  {
    if failures != [] {
      var last := |failures| - 1;
      SinceKeepsRecentCounts(failures[..last], address, cutoff, lo, hi);
      var kept := Since(failures[..last], cutoff);
      assert (kept + [failures[last]])[..|kept|] == kept;
      CountAppend(TimesOf(kept, address), failures[last].ts, lo, hi);
      CountAppend(TimesOf(failures[..last], address), failures[last].ts, lo, hi);
    }
  }

  lemma TimesOfAppend(failures: seq<Failure>, f: Failure, address: string)
    ensures TimesOf(failures + [f], address)
         == if f.address == address then TimesOf(failures, address) + [f.ts] else TimesOf(failures, address)
  {
    assert (failures + [f])[..|failures|] == failures;
  }

  lemma {:induction false} WithoutForgetsOneAddress(failures: seq<Failure>, gone: string, address: string)
    ensures TimesOf(Without(failures, gone), address) == if address == gone then [] else TimesOf(failures, address)
  {
    if failures != [] {
      var last := |failures| - 1;
      WithoutForgetsOneAddress(failures[..last], gone, address);
      TimesOfAppend(Without(failures[..last], gone), failures[last], address);
    }
  }

  lemma {:induction false} CountAfterIsCountIn(times: seq<int>, cutoff: int, now: int)
    requires AllBelow(times, now + 1)
    ensures CountAfter(times, cutoff) == CountIn(times, cutoff + 1, now + 1)
  {
    if times != [] {
      CountAfterIsCountIn(times[..|times| - 1], cutoff, now);
    }
  }

  /** The rows of one address count the same as `times` over the day before `now`. */
  ghost predicate SameCounts(failures: seq<Failure>, address: string, times: seq<int>, now: int) {
    && AllBelow(TimesOf(failures, address), now + 1)
    && AllBelow(times, now + 1)
    && forall lo, hi | now - DAY <= lo ::
         CountIn(TimesOf(failures, address), lo, hi) == CountIn(times, lo, hi)
  }

  /**
   What links the tables to the ledger of one address at time `now`: counts over
   the last day agree, and a block row is there exactly as long as it matters.
   */
  ghost predicate Agrees(t: Tables, l: Ledger, address: string, now: int, p: Policy) {
    && SameCounts(t.failures, address, l.current, now)
    && (address in t.blocks ==> l.BlockEnd(p) == Some(t.blocks[address]))
    && (address !in t.blocks && l.BlockEnd(p).Some? ==> l.BlockEnd(p).value <= now)
  }

  lemma AgreesLater(t: Tables, l: Ledger, address: string, now: int, later: int, p: Policy)
    requires Agrees(t, l, address, now, p) && now <= later
    ensures Agrees(t, l, address, later, p)
    ensures Remaining(t, address, later).Some? <==> l.Refuses(later, p)
  {}

  lemma SinceIsOlder(failures: seq<Failure>, address: string, cutoff: int, bound: int)
    requires AllBelow(TimesOf(failures, address), bound)
    ensures AllBelow(TimesOf(Since(failures, cutoff), address), bound)
  {
    if failures != [] {
      var last := |failures| - 1;
      var times := TimesOf(failures[..last], address);
      assert forall i | 0 <= i < |times| :: times[i] == TimesOf(failures, address)[i];
      SinceIsOlder(failures[..last], address, cutoff, bound);
      TimesOfAppend(Since(failures[..last], cutoff), failures[last], address);
      if failures[last].address == address {
        assert TimesOf(failures, address)[|times|] == failures[last].ts;
      }
    }
  }

  /** Purging and inserting, as record_failure does them, on the counts of one address. */
  lemma SameCountsAfterInsert(failures: seq<Failure>, f: Failure, address: string, times: seq<int>)
    requires SameCounts(failures, address, times, f.ts)
    ensures SameCounts(Since(failures, f.ts - DAY) + [f], address,
                       if f.address == address then times + [f.ts] else times, f.ts)
  {
    var kept := Since(failures, f.ts - DAY);
    SinceIsOlder(failures, address, f.ts - DAY, f.ts + 1);
    TimesOfAppend(kept, f, address);
    forall lo, hi | f.ts - DAY <= lo
      ensures CountIn(TimesOf(kept + [f], address), lo, hi)
           == CountIn(if f.address == address then times + [f.ts] else times, lo, hi)
    {
      SinceKeepsRecentCounts(failures, address, f.ts - DAY, lo, hi);
      CountAppend(TimesOf(kept, address), f.ts, lo, hi);
      CountAppend(times, f.ts, lo, hi);
    }
  }

  lemma NothingLeft(failures: seq<Failure>, address: string, now: int)
    requires TimesOf(failures, address) == []
    ensures SameCounts(failures, address, [], now)
  {}

  lemma SameCountsAreBelow(failures: seq<Failure>, address: string, times: seq<int>, now: int)
    requires SameCounts(failures, address, times, now)
    ensures AllBelow(TimesOf(failures, address), now + 1)
    ensures forall lo, hi | now - DAY <= lo :: CountIn(TimesOf(failures, address), lo, hi) == CountIn(times, lo, hi)
  {}

  lemma SameCountsWithout(failures: seq<Failure>, gone: string, address: string, times: seq<int>, now: int)
    requires SameCounts(failures, address, times, now) && gone != address
    ensures SameCounts(Without(failures, gone), address, times, now)
  {
    WithoutForgetsOneAddress(failures, gone, address);
  }

  /** One guarded attempt keeps the tables and the ledger in step. */
  lemma AgreesStep(t: Tables, l: Ledger, address: string, a: Attempt, p: Policy)
    requires p.Legal() && Agrees(t, l, address, a.at, p)
    ensures Agrees(Guarded(t, a, p), if a.address == address then l.Enter(a.at, p) else l, address, a.at, p)
  {
    hide Since, Without, TimesOf, CountIn, CountAfter, SameCounts;
    if Remaining(t, a.address, a.at).None? {
      var f := Failure(a.address, a.at);
      var failures := Since(t.failures, a.at - DAY) + [f];
      SameCountsAfterInsert(t.failures, f, address, l.current);
      WithoutForgetsOneAddress(failures, a.address, address);
      if a.address == address {
        SameCountsAreBelow(failures, address, l.current + [a.at], a.at);
        CountAfterIsCountIn(TimesOf(failures, address), a.at - p.Window(), a.at);
        NothingLeft(Without(failures, address), address, a.at);
      } else {
        SameCountsWithout(failures, a.address, address, l.current, a.at);
      }
    }
  }

  lemma {:induction false} TablesAgreeWithLedger(run: seq<Attempt>, address: string, p: Policy, now: int)
    requires p.Legal() && Chronological(run)
    requires run != [] ==> run[|run| - 1].at <= now
    ensures Agrees(TablesAfter(run, p), LedgerAfter(run, address, p), address, now, p)
  {
    if run != [] {
      var before, a := run[..|run| - 1], run[|run| - 1];
      TablesAgreeWithLedger(before, address, p, a.at);
      AgreesStep(TablesAfter(before, p), LedgerAfter(before, address, p), address, a, p);
      AgreesLater(TablesAfter(run, p), LedgerAfter(run, address, p), address, a.at, now, p);
    }
  }

  /**
   The purge never matters: at any moment after any run over any addresses, an
   address is refused exactly when its complete, never purged history says so.
   */
  lemma PurgeNeverChangesADecision(run: seq<Attempt>, address: string, p: Policy, now: int)
    requires p.Legal() && Chronological(run)
    requires run != [] ==> run[|run| - 1].at <= now
    ensures Remaining(TablesAfter(run, p), address, now).Some? <==> LedgerAfter(run, address, p).Refuses(now, p)
  {
    TablesAgreeWithLedger(run, address, p, now);
    AgreesLater(TablesAfter(run, p), LedgerAfter(run, address, p), address, now, now, p);
  }

  // ---- When the block comes ---------------------------------------------------

  function Stamps(run: seq<Attempt>): seq<int> {
    if run == [] then [] else Stamps(run[..|run| - 1]) + [run[|run| - 1].at]
  }

  /** Attempts of one address within one window, which opens at `lo`. */
  ghost predicate WithinAWindow(run: seq<Attempt>, address: string, p: Policy, lo: int) {
    forall a | a in run :: a.address == address && lo <= a.at < lo + 60 * p.windowMinutes
  }

  lemma ChronologicalFront(run: seq<Attempt>, a: Attempt)
    requires Chronological(run + [a])
    ensures Chronological(run) && forall x | x in run :: x.at <= a.at
  {
    var all := run + [a];
    assert all[|run|] == a && forall i | 0 <= i < |run| :: all[i] == run[i];
  }

  lemma {:induction false} AllInTheWindow(run: seq<Attempt>, address: string, p: Policy, lo: int, hi: int)
    requires forall a | a in run :: lo <= a.at < hi
    ensures CountIn(Stamps(run), lo, hi) == |run|
  {
    if run != [] {
      assert run[|run| - 1] in run && forall a | a in run[..|run| - 1] :: a in run;
      AllInTheWindow(run[..|run| - 1], address, p, lo, hi);
    }
  }

  lemma FrontWithinAWindow(before: seq<Attempt>, a: Attempt, address: string, p: Policy, lo: int)
    requires Chronological(before + [a]) && WithinAWindow(before + [a], address, p, lo)
    ensures Chronological(before) && WithinAWindow(before, address, p, lo) && a.address == address
    ensures CountIn(Stamps(before) + [a.at], a.at - p.Window() + 1, a.at + 1) == |before| + 1
  {
    hide CountIn, Stamps, Chronological;
    var run := before + [a];
    ChronologicalFront(before, a);
    assert a in run && forall x | x in before :: x in run;
    AllInTheWindow(run, address, p, a.at - p.Window() + 1, a.at + 1);
    StampsMore(before, a);
  }

  lemma StampsMore(before: seq<Attempt>, a: Attempt)
    ensures Stamps(before + [a]) == Stamps(before) + [a.at]
  {
    assert (before + [a])[..|before|] == before;
  }

  lemma {:induction false} LedgerBelowTheLimit(run: seq<Attempt>, address: string, p: Policy, lo: int)
    requires p.Legal() && Chronological(run) && WithinAWindow(run, address, p, lo) && |run| < p.limit
    ensures LedgerAfter(run, address, p) == Ledger([], Stamps(run))
  {
    hide WithinAWindow, CountIn, Chronological;
    if run != [] {
      var before, a := run[..|run| - 1], run[|run| - 1];
      assert run == before + [a];
      FrontWithinAWindow(before, a, address, p, lo);
      LedgerBelowTheLimit(before, address, p, lo);
    }
  }

  lemma LedgerAtTheLimit(run: seq<Attempt>, address: string, p: Policy, lo: int)
    requires p.Legal() && run != [] && Chronological(run) && WithinAWindow(run, address, p, lo) && |run| == p.limit
    ensures LedgerAfter(run, address, p) == Ledger([Stamps(run)], [])
    ensures Stamps(run) != [] && Stamps(run)[|Stamps(run)| - 1] == run[|run| - 1].at
  {
    hide WithinAWindow, CountIn, Chronological;
    var before, a := run[..|run| - 1], run[|run| - 1];
    assert run == before + [a];
    FrontWithinAWindow(before, a, address, p, lo);
    LedgerBelowTheLimit(before, address, p, lo);
  }

  lemma BlockRowIsTheEnd(t: Tables, l: Ledger, address: string, now: int, p: Policy)
    requires Agrees(t, l, address, now, p) && Remaining(t, address, now).Some?
    ensures l.BlockEnd(p).Some? && Remaining(t, address, now).value == l.BlockEnd(p).value - now
  {}

  /**
   Within one window fewer failures than the limit never block an address, and the
   limit-th blocks it for the whole of the configured minutes.
   */
  lemma BlocksExactlyAtTheLimit(run: seq<Attempt>, address: string, p: Policy, lo: int, now: int)
    requires p.Legal() && Chronological(run) && WithinAWindow(run, address, p, lo)
    requires run != [] && run[|run| - 1].at <= now
    ensures |run| < p.limit ==> Remaining(TablesAfter(run, p), address, now).None?
    ensures |run| == p.limit && now < run[|run| - 1].at + 60 * p.blockMinutes ==>
              Remaining(TablesAfter(run, p), address, now) == Some(run[|run| - 1].at + 60 * p.blockMinutes - now)
  {
    hide WithinAWindow, TablesAfter, LedgerAfter, Stamps, SameCounts, Chronological, Agrees;
    TablesAgreeWithLedger(run, address, p, now);
    PurgeNeverChangesADecision(run, address, p, now);
    if Remaining(TablesAfter(run, p), address, now).Some? {
      BlockRowIsTheEnd(TablesAfter(run, p), LedgerAfter(run, address, p), address, now, p);
    }
    if |run| < p.limit {
      LedgerBelowTheLimit(run, address, p, lo);
    } else if |run| == p.limit {
      LedgerAtTheLimit(run, address, p, lo);
    }
  }

  // ---- Bounds on the ledger ---------------------------------------------------

  /** No half-open interval as long as the window holds more than `cap` stamps. */
  ghost predicate Sparse(times: seq<int>, window: int, cap: int) {
    forall lo, hi | hi == lo + window :: CountIn(times, lo, hi) <= cap
  }

  /**
   Segments of one ledger: no window holds more than `limit` stamps of a segment,
   every segment but the last ends with the failure that brought the block, and
   the next begins only when that block is over.
   */
  ghost predicate Spaced(segments: seq<seq<int>>, p: Policy) {
    && (forall k | 0 <= k < |segments| :: Sparse(segments[k], p.Window(), p.limit))
    && (forall k, i | 0 <= k < |segments| - 1 && 0 <= i < |segments[k]| ::
          segments[k][i] <= segments[k][|segments[k]| - 1])
    && (forall k | 0 <= k < |segments| - 1 :: segments[k] != [])
    && (forall k, i, j | 0 <= k < i < |segments| && 0 <= j < |segments[i]| && segments[k] != [] ::
          segments[k][|segments[k]| - 1] + p.Block() <= segments[i][j])
  }

  /** Adding a stamp not earlier than the others: only windows ending at it gain. */
  lemma SparseAppend(times: seq<int>, at: int, window: nat, cap: int)
    requires AllBelow(times, at + 1) && Sparse(times, window, cap)
    ensures Sparse(times + [at], window, cap + 1)
    ensures CountIn(times + [at], at - window + 1, at + 1) <= cap ==> Sparse(times + [at], window, cap)
  {
    forall lo, hi | hi == lo + window
      ensures CountIn(times + [at], lo, hi) <= CountIn(times, lo, hi) + 1
      ensures CountIn(times + [at], lo, hi) <= cap
                || CountIn(times + [at], lo, hi) <= CountIn(times + [at], at - window + 1, at + 1)
    {
      CountAppend(times, at, lo, hi);
      if lo <= at < hi {
        CountMonotone(times + [at], lo, hi, at - window + 1, at + 1);
      }
    }
  }

  lemma SparseEmpty(window: int, cap: nat)
    ensures Sparse([], window, cap)
  {}

  /** A ledger with its last stamp no later than `now`, ready for the next attempt. */
  ghost predicate LedgerValid(l: Ledger, now: int, p: Policy) {
    && Spaced(l.Segments(), p)
    && Sparse(l.current, p.Window(), p.limit - 1)
    && AllBelow(l.current, now + 1)
    && (forall k | 0 <= k < |l.closed| :: l.closed[k] != [])
    && (forall k | 0 <= k < |l.closed| :: l.closed[k][|l.closed[k]| - 1] + p.Block() <= l.BlockEnd(p).value)
  }

  /** Appending a stamp to the last segment, once every earlier block is over. */
  lemma SpacedExtend(closed: seq<seq<int>>, current: seq<int>, at: int, p: Policy)
    requires Spaced(closed + [current], p) && Sparse(current + [at], p.Window(), p.limit)
    requires forall k | 0 <= k < |closed| :: closed[k] != [] && closed[k][|closed[k]| - 1] + p.Block() <= at
    ensures Spaced(closed + [current + [at]], p)
  {
    hide Sparse;
    var old', new' := closed + [current], closed + [current + [at]];
    forall k | 0 <= k < |closed|
      ensures old'[k] == new'[k] == closed[k]
    {}
    assert old'[|closed|] == current && new'[|closed|] == current + [at];
  }

  /** Starting a new, still empty segment. */
  lemma SpacedClose(closed: seq<seq<int>>, ended: seq<int>, p: Policy)
    requires Spaced(closed + [ended], p) && ended != [] && p.Legal()
    requires AllBelow(ended, ended[|ended| - 1] + 1)
    ensures Spaced(closed + [ended] + [[]], p)
  {
    hide Sparse;
    SparseEmpty(p.Window(), p.limit);
    var old', new' := closed + [ended], closed + [ended] + [[]];
    forall k | 0 <= k < |old'|
      ensures old'[k] == new'[k]
    {}
    assert new'[|old'|] == [];
  }

  lemma LedgerStep(l: Ledger, at: int, p: Policy)
    requires p.Legal() && LedgerValid(l, at, p)
    ensures LedgerValid(l.Enter(at, p), at, p)
  {
    hide Sparse, Spaced, CountIn;
    if !l.Refuses(at, p) {
      SparseAppend(l.current, at, p.Window(), p.limit - 1);
      SpacedExtend(l.closed, l.current, at, p);
      SparseEmpty(p.Window(), p.limit - 1);
      if l.Enter(at, p).current == [] {
        SpacedClose(l.closed, l.current + [at], p);
      }
    }
  }

  lemma {:induction false} LedgerAlwaysValid(run: seq<Attempt>, address: string, p: Policy, now: int)
    requires p.Legal() && Chronological(run)
    requires run != [] ==> run[|run| - 1].at <= now
    ensures LedgerValid(LedgerAfter(run, address, p), now, p)
  {
    if run == [] {
      SparseEmpty(p.Window(), p.limit - 1);
      SparseEmpty(p.Window(), p.limit);
    } else {
      var before, a := run[..|run| - 1], run[|run| - 1];
      LedgerAlwaysValid(before, address, p, a.at);
      if a.address == address {
        LedgerStep(LedgerAfter(before, address, p), a.at, p);
      }
    }
  }

  /** Everything before a segment that reaches into [lo, hi) is over a block before `hi`. */
  lemma EarlierSegmentsEndSooner(segments: seq<seq<int>>, i: nat, lo: int, hi: int, p: Policy)
    requires segments != [] && Spaced(segments, p) && i < |segments[|segments| - 1]|
    requires segments[|segments| - 1][i] < hi
    ensures CountAll(segments[..|segments| - 1], lo, hi) <= CountAll(segments[..|segments| - 1], lo, hi - p.Block())
  {
    hide Sparse, CountAll;
    var last := |segments| - 1;
    var front := segments[..last];
    forall k, j | 0 <= k < |front| && 0 <= j < |front[k]|
      ensures front[k][j] < hi - p.Block()
    {
      assert front[k] == segments[k];
      assert segments[k][j] <= segments[k][|segments[k]| - 1];
      assert segments[k][|segments[k]| - 1] + p.Block() <= segments[last][i];
    }
    CountAllMonotone(front, lo, hi, lo, hi - p.Block());
  }

  lemma SpacedFront(segments: seq<seq<int>>, p: Policy)
    requires segments != [] && Spaced(segments, p)
    ensures Spaced(segments[..|segments| - 1], p)
  {}

  /** Segments reach at most once per block length into an interval within one window. */
  lemma {:induction false} SegmentsBound(segments: seq<seq<int>>, lo: int, hi: int, p: Policy)
    requires p.Legal() && Spaced(segments, p) && hi - lo <= p.Window()
    ensures CountAll(segments, lo, hi) <= p.limit * CeilDiv(hi - lo, p.Block())
  {
    hide Spaced, CountIn;
    if segments != [] {
      var last := |segments| - 1;
      var front := segments[..last];
      SpacedFront(segments, p);
      if CountIn(segments[last], lo, hi) == 0 {
        SegmentsBound(front, lo, hi, p);
      } else {
        var i := CountPositive(segments[last], lo, hi);
        EarlierSegmentsEndSooner(segments, i, lo, hi, p);
        SegmentsBound(front, lo, hi - p.Block(), p);
        CountMonotone(segments[last], lo, hi, lo, lo + p.Window());
        SegmentIsSparse(segments, lo, p);
        assert hi - p.Block() - lo == (hi - lo) - p.Block();
        OneMoreTime(p.limit, CeilDiv(hi - lo - p.Block(), p.Block()));
      }
    }
  }

  lemma SegmentIsSparse(segments: seq<seq<int>>, lo: int, p: Policy)
    requires segments != [] && Spaced(segments, p)
    ensures CountIn(segments[|segments| - 1], lo, lo + p.Window()) <= p.limit
  {
    assert Sparse(segments[|segments| - 1], p.Window(), p.limit);
  }

  lemma OneMoreTime(a: int, b: int)
    ensures a * (1 + b) == a + a * b
  {}

  lemma EnterCounts(l: Ledger, at: int, p: Policy, lo: int, hi: int)
    ensures CountAll(l.Enter(at, p).Segments(), lo, hi)
         == CountAll(l.Segments(), lo, hi) + if !l.Refuses(at, p) && lo <= at < hi then 1 else 0
  {
    hide CountAll, CountIn, Ledger.Refuses;
    CountAppend(l.current, at, lo, hi);
    CountAllAppend(l.closed, l.current, lo, hi);
    CountAllAppend(l.closed, l.current + [at], lo, hi);
    CountAllAppend(l.closed + [l.current + [at]], [], lo, hi);
    NothingCounted(lo, hi);
  }

  lemma NothingCounted(lo: int, hi: int)
    ensures CountIn([], lo, hi) == 0
  {}

  lemma RunStep(before: seq<Attempt>, a: Attempt, address: string, p: Policy)
    ensures Counted(before + [a], address, p)
         == if a.address == address && Remaining(TablesAfter(before, p), address, a.at).None?
            then Counted(before, address, p) + [a.at] else Counted(before, address, p)
    ensures LedgerAfter(before + [a], address, p)
         == if a.address == address then LedgerAfter(before, address, p).Enter(a.at, p)
             else LedgerAfter(before, address, p)
  {
    assert (before + [a])[..|before|] == before;
  }

  /** What was counted is what the ledger holds, segment after segment. */
  lemma {:induction false} CountedIsLedger(run: seq<Attempt>, address: string, p: Policy, lo: int, hi: int)
    requires p.Legal() && Chronological(run)
    ensures CountIn(Counted(run, address, p), lo, hi) == CountAll(LedgerAfter(run, address, p).Segments(), lo, hi)
  {
    if run != [] {
      var before, a := run[..|run| - 1], run[|run| - 1];
      assert run == before + [a];
      assert Chronological(before) && (before != [] ==> before[|before| - 1].at <= a.at);
      CountedIsLedger(before, address, p, lo, hi);
      PurgeNeverChangesADecision(before, address, p, a.at);
      RunStep(before, a, address, p);
      hide *;
      EnterCounts(LedgerAfter(before, address, p), a.at, p, lo, hi);
      CountAppend(Counted(before, address, p), a.at, lo, hi);
    }
  }

  /**
   Main result: whatever the addresses and times of a run, at most
   limit * ceil(window / block) failures of one address are counted in any
   half-open interval of the window's length.
   */
  lemma FailuresPerWindowAreBounded(run: seq<Attempt>, address: string, p: Policy, lo: int)
    requires p.Legal() && Chronological(run)
    ensures CountIn(Counted(run, address, p), lo, lo + p.Window()) <= p.Allowance()
  {
    hide CountIn, CountAll, CeilDiv, Counted, LedgerAfter, Spaced, Sparse, Chronological;
    CountedIsLedger(run, address, p, lo, lo + p.Window());
    LedgerAlwaysValid(run, address, p, if run == [] then 0 else run[|run| - 1].at);
    SegmentsBound(LedgerAfter(run, address, p).Segments(), lo, lo + p.Window(), p);
  }

  /** With a block no shorter than the window, the limit itself is the bound. */
  lemma LongBlockBoundsByLimit(run: seq<Attempt>, address: string, p: Policy, lo: int)
    requires p.Legal() && Chronological(run) && p.blockMinutes >= p.windowMinutes
    ensures CountIn(Counted(run, address, p), lo, lo + p.Window()) <= p.limit
  {
    hide *;
    AllowanceIsTheLimit(p);
    FailuresPerWindowAreBounded(run, address, p, lo);
  }

  lemma AllowanceIsTheLimit(p: Policy)
    requires p.Legal() && p.blockMinutes >= p.windowMinutes
    ensures p.Allowance() == p.limit
  {
    assert CeilDiv(p.Window(), p.Block()) == 1;
  }
}
