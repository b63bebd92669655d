/**
 Alert rules, group overrides and the reconciling evaluation
 (app/alerts/engine.py), with the handlers that feed them: groups and overrides
 (app/api/groups.py), node updates (app/api/nodes.py) and the two clean-ups of
 alert_events. Times are whole seconds; percentages are exact.
 */
module AlertEngine {
  import opened Collections
  import opened Wrappers

  datatype Kind = NodeOffline | DiskLow | CpuHigh | MemHigh

  /** A row of alert_rules; `threshold` is conditions.threshold_pct, when it is there. */
  datatype Rule = Rule(id: int, enabled: bool, kind: Kind, threshold: Option<real>, windowMinutes: int)

  datatype Node = Node(
    id: int,
    active: bool,
    lastCheckin: Option<int>,
    downOverride: Option<bool>,
    diskTotal: Option<real>,
    diskFree: Option<real>,
    tags: seq<string>)

  /** A row of group_alert_overrides. */
  datatype Override = Override(id: int, group: string, rule: int, enabled: Option<bool>, threshold: Option<real>)

  /** A row of node_metrics_history. */
  datatype Sample = Sample(node: int, at: int, cpu: Option<real>, mem: Option<real>)

  /** A row of alert_events. */
  datatype Event = Event(id: int, rule: int, node: int, firedAt: int, resolvedAt: Option<int>)

  // ---- Open events ---------------------------------------------------------------

  type Pair = (int, int)

  function OpenPairs(events: seq<Event>): set<Pair> {
    set i | 0 <= i < |events| && events[i].resolvedAt.None? :: (events[i].rule, events[i].node)
  }

  /** No rule has two open events for one node. */
  ghost predicate AtMostOneOpen(events: seq<Event>) {
    forall i, j | 0 <= i < j < |events| && events[i].resolvedAt.None? && events[j].resolvedAt.None? ::
      (events[i].rule, events[i].node) != (events[j].rule, events[j].node)
  }

  ghost predicate RisingEventIds(events: seq<Event>) {
    forall i, j | 0 <= i < j < |events| :: events[i].id < events[j].id
  }

  // ---- Overrides -------------------------------------------------------------------

  ghost predicate RisingOverrideIds(overrides: seq<Override>) {
    forall i, j | 0 <= i < j < |overrides| :: overrides[i].id < overrides[j].id
  }

  /** The override rows of one rule, in id order. */
  function OverridesOf(overrides: seq<Override>, rule: int): seq<Override> {
    if overrides == [] then []
    else
      var last := |overrides| - 1;
      var front := OverridesOf(overrides[..last], rule);
      if overrides[last].rule == rule then front + [overrides[last]] else front
  }

  /** The value of the last row that names one of the groups and sets `enabled`. */
  function LastEnabled(groups: set<string>, overrides: seq<Override>): Option<bool> {
    if overrides == [] then None
    else
      var o := overrides[|overrides| - 1];
      if o.group in groups && o.enabled.Some? then o.enabled
      else LastEnabled(groups, overrides[..|overrides| - 1])
  }

  function LastThreshold(groups: set<string>, overrides: seq<Override>): Option<real> {
    if overrides == [] then None
    else
      var o := overrides[|overrides| - 1];
      if o.group in groups && o.threshold.Some? then o.threshold
      else LastThreshold(groups, overrides[..|overrides| - 1])
  }

  function TagSet(tags: seq<string>): set<string> { set t | t in tags }

  /** The loop of _resolve_group_override: later rows win, each field for itself. */
  method ResolveGroupOverride(tags: seq<string>, overrides: seq<Override>)
    returns (enabled: Option<bool>, threshold: Option<real>)
    ensures enabled == LastEnabled(TagSet(tags), overrides)
    ensures threshold == LastThreshold(TagSet(tags), overrides)
  {
    enabled, threshold := None, None;
    var tagset := TagSet(tags);
    for i := 0 to |overrides|
      invariant enabled == LastEnabled(tagset, overrides[..i])
      invariant threshold == LastThreshold(tagset, overrides[..i])
    {
      var o := overrides[i];
      assert overrides[..i + 1][..i] == overrides[..i];
      if o.group in tagset {
        if o.enabled.Some? {
          enabled := o.enabled;
        }
        if o.threshold.Some? {
          threshold := o.threshold;
        }
      }
    }
    assert overrides[..|overrides|] == overrides;
  }

  /**
   The non-null value with the highest row id among the groups' rows; nothing only
   if no row has one.
   */
  ghost predicate IsHighestEnabled(v: Option<bool>, groups: set<string>, overrides: seq<Override>) {
    && (v.None? <==> forall o | o in overrides && o.group in groups :: o.enabled.None?)
    && (v.Some? ==> exists o | o in overrides && o.group in groups ::
          o.enabled == v && forall other | other in overrides && other.group in groups && other.enabled.Some? ::
              other.id <= o.id)
  }

  ghost predicate IsHighestThreshold(v: Option<real>, groups: set<string>, overrides: seq<Override>) {
    && (v.None? <==> forall o | o in overrides && o.group in groups :: o.threshold.None?)
    && (v.Some? ==> exists o | o in overrides && o.group in groups ::
          o.threshold == v && forall other | other in overrides && other.group in groups && other.threshold.Some? ::
              other.id <= o.id)
  }

  /** What the loop means, whatever the order of the tags. */
  lemma {:induction false} HighestIdWins(groups: set<string>, overrides: seq<Override>)
    requires RisingOverrideIds(overrides)
    ensures IsHighestEnabled(LastEnabled(groups, overrides), groups, overrides)
  {
    if overrides != [] {
      var front, last := overrides[..|overrides| - 1], overrides[|overrides| - 1];
      assert overrides == front + [last];
      RisingFront(front, last);
      hide *;
      HighestIdWins(groups, front);
      LastEnabledNext(groups, front, last);
      EnabledStep(LastEnabled(groups, front), groups, front, last);
    }
  }

  lemma EnabledStep(v: Option<bool>, groups: set<string>, front: seq<Override>, last: Override)
    requires IsHighestEnabled(v, groups, front) && forall o | o in front :: o.id < last.id
    ensures IsHighestEnabled(if last.group in groups && last.enabled.Some? then last.enabled else v,
                         groups, front + [last])
  {
    var all := front + [last];
    assert forall o | o in front :: o in all;
    assert last in all;
  }

  lemma LastEnabledNext(groups: set<string>, front: seq<Override>, o: Override)
    ensures LastEnabled(groups, front + [o])
         == if o.group in groups && o.enabled.Some? then o.enabled else LastEnabled(groups, front)
  {
    assert (front + [o])[..|front|] == front;
  }

  lemma {:induction false} HighestIdWinsThreshold(groups: set<string>, overrides: seq<Override>)
    requires RisingOverrideIds(overrides)
    ensures IsHighestThreshold(LastThreshold(groups, overrides), groups, overrides)
  {
    if overrides != [] {
      var front, last := overrides[..|overrides| - 1], overrides[|overrides| - 1];
      assert overrides == front + [last];
      RisingFront(front, last);
      hide *;
      HighestIdWinsThreshold(groups, front);
      LastThresholdNext(groups, front, last);
      ThresholdStep(LastThreshold(groups, front), groups, front, last);
    }
  }

  lemma ThresholdStep(v: Option<real>, groups: set<string>, front: seq<Override>, last: Override)
    requires IsHighestThreshold(v, groups, front) && forall o | o in front :: o.id < last.id
    ensures IsHighestThreshold(if last.group in groups && last.threshold.Some? then last.threshold else v,
                         groups, front + [last])
  {
    var all := front + [last];
    assert forall o | o in front :: o in all;
    assert last in all;
  }

  lemma LastThresholdNext(groups: set<string>, front: seq<Override>, o: Override)
    ensures LastThreshold(groups, front + [o])
         == if o.group in groups && o.threshold.Some? then o.threshold else LastThreshold(groups, front)
  {
    assert (front + [o])[..|front|] == front;
  }

  lemma RisingFront(front: seq<Override>, last: Override)
    requires RisingOverrideIds(front + [last])
    ensures RisingOverrideIds(front) && forall o | o in front :: o.id < last.id
  {
    var all := front + [last];
    assert all[|front|] == last && all[..|front|] == front;
    forall o | o in front
      ensures o.id < last.id
    {
      var i :| 0 <= i < |front| && front[i] == o;
      assert all[i] == o;
    }
    forall i, j | 0 <= i < j < |front|
      ensures front[i].id < front[j].id
    {
      assert all[i] == front[i] && all[j] == front[j];
    }
  }

  lemma {:induction false} OverridesOfRise(overrides: seq<Override>, rule: int)
    requires RisingOverrideIds(overrides)
    ensures RisingOverrideIds(OverridesOf(overrides, rule))
    ensures forall o :: o in OverridesOf(overrides, rule) <==> o in overrides && o.rule == rule
  {
    if overrides != [] {
      var front, last := overrides[..|overrides| - 1], overrides[|overrides| - 1];
      assert overrides == front + [last];
      RisingFront(front, last);
      OverridesOfRise(front, rule);
    }
  }

  /** The rows that speak to a node about a rule. */
  predicate Speaks(o: Override, rule: int, groups: set<string>) {
    o.rule == rule && o.group in groups
  }

  /**
   What the engine resolves for a node, said of the whole table: the non-null value
   in the row with the highest id among those of the rule and of the node's groups.
   */
  lemma HighestRowDecides(d: Inputs, rule: int, tags: seq<string>)
    requires RisingOverrideIds(d.overrides)
    ensures var groups, v := TagSet(tags), LastEnabled(TagSet(tags), OverridesOf(d.overrides, rule));
            && (v.None? <==> forall o | o in d.overrides && Speaks(o, rule, groups) :: o.enabled.None?)
            && (v.Some? ==> exists o | o in d.overrides && Speaks(o, rule, groups) ::
                  o.enabled == v && forall p | p in d.overrides && Speaks(p, rule, groups) && p.enabled.Some? ::
                      p.id <= o.id)
    ensures var groups, v := TagSet(tags), LastThreshold(TagSet(tags), OverridesOf(d.overrides, rule));
            && (v.None? <==> forall o | o in d.overrides && Speaks(o, rule, groups) :: o.threshold.None?)
            && (v.Some? ==> exists o | o in d.overrides && Speaks(o, rule, groups) ::
                  o.threshold == v && forall p | p in d.overrides && Speaks(p, rule, groups) && p.threshold.Some? ::
                      p.id <= o.id)
  {
    var groups, rows := TagSet(tags), OverridesOf(d.overrides, rule);
    OverridesOfRise(d.overrides, rule);
    HighestIdWins(groups, rows);
    HighestIdWinsThreshold(groups, rows);
    hide OverridesOf, LastEnabled, LastThreshold, TagSet, RisingOverrideIds;
  }

  // ---- What should be open -------------------------------------------------------------

  /** The tables an evaluation reads. */
  datatype Inputs = Inputs(
    nodes: seq<Node>,
    overrides: seq<Override>,
    samples: seq<Sample>,
    downEnabled: bool,      // settings.alert_host_down_enabled
    offlineAfter: int)      // settings.offline_after_sec

  /** Node override, then group override, then the global setting. */
  predicate HostDownEnabled(d: Inputs, rule: int, n: Node) {
    if n.downOverride.Some? then n.downOverride.value
    else
      var group := LastEnabled(TagSet(n.tags), OverridesOf(d.overrides, rule));
      if group.Some? then group.value else d.downEnabled
  }

  predicate IsOffline(d: Inputs, n: Node, now: int) {
    n.active && n.lastCheckin.Some? && n.lastCheckin.value < now - d.offlineAfter
  }

  predicate DisabledByGroup(d: Inputs, rule: int, n: Node) {
    LastEnabled(TagSet(n.tags), OverridesOf(d.overrides, rule)) == Some(false)
  }

  function EffectiveThreshold(d: Inputs, rule: Rule, n: Node, default: real): real {
    var group := LastThreshold(TagSet(n.tags), OverridesOf(d.overrides, rule.id));
    if group.Some? then group.value
    else if rule.threshold.Some? then rule.threshold.value else default
  }

  predicate HasDisk(n: Node) {
    n.active && n.diskTotal.Some? && n.diskTotal.value > 0.0
  }

  function FreePercent(n: Node): real
    requires HasDisk(n)
  {
    (if n.diskFree.Some? then n.diskFree.value else 0.0) / n.diskTotal.value * 100.0
  }

  function Reading(s: Sample, kind: Kind): Option<real> {
    if kind.CpuHigh? then s.cpu else s.mem
  }

  /** Sum and number of the non-null readings of one node since `from`: what AVG works on. */
  function Tally(samples: seq<Sample>, node: int, from: int, kind: Kind): (real, nat) {
    if samples == [] then (0.0, 0)
    else
      var last := |samples| - 1;
      var (sum, n) := Tally(samples[..last], node, from, kind);
      var s := samples[last];
      if s.node == node && s.at >= from && Reading(s, kind).Some?
      then (sum + Reading(s, kind).value, n + 1) else (sum, n)
  }

  function WindowMinutes(r: Rule): int { if r.windowMinutes == 0 then 5 else r.windowMinutes }

  /** Nodes that GROUP BY ... HAVING avg_val IS NOT NULL returns. */
  predicate HasReadings(d: Inputs, r: Rule, n: Node, now: int) {
    n.active && Tally(d.samples, n.id, now - 60 * WindowMinutes(r), r.kind).1 > 0
  }

  function Average(d: Inputs, r: Rule, n: Node, now: int): real
    requires HasReadings(d, r, n, now)
  {
    var (sum, count) := Tally(d.samples, n.id, now - 60 * WindowMinutes(r), r.kind);
    sum / (count as real)
  }

  /** Whether an evaluation of the rule decides anything about the node. */
  predicate Judged(d: Inputs, r: Rule, n: Node, now: int) {
    match r.kind
    case NodeOffline => true
    case DiskLow => HasDisk(n)
    case CpuHigh => HasReadings(d, r, n, now)
    case MemHigh => HasReadings(d, r, n, now)
  }

  /** Whether the rule should have an open event for the node. */
  predicate ShouldBeOpen(d: Inputs, r: Rule, n: Node, now: int)
    requires Judged(d, r, n, now)
  {
    match r.kind
    case NodeOffline => IsOffline(d, n, now) && HostDownEnabled(d, r.id, n)
    case DiskLow => !DisabledByGroup(d, r.id, n) && FreePercent(n) < EffectiveThreshold(d, r, n, 10.0)
    case CpuHigh => !DisabledByGroup(d, r.id, n) && Average(d, r, n, now) > EffectiveThreshold(d, r, n, 90.0)
    case MemHigh => !DisabledByGroup(d, r.id, n) && Average(d, r, n, now) > EffectiveThreshold(d, r, n, 90.0)
  }

  /** The declarative meaning of one evaluated rule. */
  ghost predicate Reconciled(d: Inputs, r: Rule, open: set<Pair>, now: int) {
    forall n | n in d.nodes && Judged(d, r, n, now) ::
      (r.id, n.id) in open <==> ShouldBeOpen(d, r, n, now)
  }

  /** What evaluating a rule turns `open` into: judged nodes as they should be, the rest untouched. */
  ghost predicate EvaluatedTo(d: Inputs, r: Rule, open: set<Pair>, open': set<Pair>, now: int) {
    && Reconciled(d, r, open', now)
    && (forall p: Pair ::
          (p in open' <==> p in open)
          || (p.0 == r.id && exists n | n in d.nodes :: n.id == p.1 && Judged(d, r, n, now)))
  }

  // ---- The same on the tables alone -----------------------------------------------------

  /** The row that decides whether the rule is on for the node: the one with the highest id that says so. */
  ghost predicate DecidesEnabled(o: Override, d: Inputs, r: Rule, n: Node) {
    && o in d.overrides && o.rule == r.id && o.group in n.tags && o.enabled.Some?
    && forall p | p in d.overrides && p.rule == r.id && p.group in n.tags && p.enabled.Some? :: p.id <= o.id
  }

  ghost predicate DecidesThreshold(o: Override, d: Inputs, r: Rule, n: Node) {
    && o in d.overrides && o.rule == r.id && o.group in n.tags && o.threshold.Some?
    && forall p | p in d.overrides && p.rule == r.id && p.group in n.tags && p.threshold.Some? :: p.id <= o.id
  }

  /**
   An open event for a node that is offline: only if it is active and its last
   check-in too long ago, and then as its own override says, else as the group row
   that decides, else as the global setting.
   */
  ghost predicate OfflineAsConfigured(d: Inputs, r: Rule, n: Node, open: bool, now: int) {
    var late := n.active && n.lastCheckin.Some? && n.lastCheckin.value < now - d.offlineAfter;
    && (!late ==> !open)
    && (late && n.downOverride.Some? ==> open == n.downOverride.value)
    && (late && n.downOverride.None? ==>
          && (forall o | DecidesEnabled(o, d, r, n) :: open == o.enabled.value)
          && ((forall o | o in d.overrides && o.rule == r.id && o.group in n.tags :: o.enabled.None?) ==>
                open == d.downEnabled))
  }

  /** An open event for a figure against its limit: the group row that decides, else the rule's, else the default. */
  ghost predicate AgainstLimit(d: Inputs, r: Rule, n: Node, open: bool, default: real, crossed: real -> bool) {
    if exists o :: DecidesEnabled(o, d, r, n) && o.enabled == Some(false) then !open
    else
      && (forall o | DecidesThreshold(o, d, r, n) :: open == crossed(o.threshold.value))
      && ((forall o | o in d.overrides && o.rule == r.id && o.group in n.tags :: o.threshold.None?) ==>
            open == crossed(if r.threshold.Some? then r.threshold.value else default))
  }

  ghost predicate DiskAsConfigured(d: Inputs, r: Rule, n: Node, open: bool) {
    n.active && n.diskTotal.Some? && n.diskTotal.value > 0.0 ==>
      var free := if n.diskFree.Some? then n.diskFree.value else 0.0;
      AgainstLimit(d, r, n, open, 10.0, (limit: real) => free / n.diskTotal.value * 100.0 < limit)
  }

  function IsReading(node: int, from: int, kind: Kind): Sample -> bool {
    (s: Sample) => s.node == node && s.at >= from && (if kind.CpuHigh? then s.cpu.Some? else s.mem.Some?)
  }

  /** The node's readings within the rule's window. */
  function Readings(d: Inputs, r: Rule, n: Node, now: int): seq<Sample> {
    Where(d.samples, IsReading(n.id, now - 60 * (if r.windowMinutes == 0 then 5 else r.windowMinutes), r.kind))
  }

  function SumOf(samples: seq<Sample>, kind: Kind): real {
    if samples == [] then 0.0
    else
      var s := samples[|samples| - 1];
      var value := if kind.CpuHigh? then s.cpu else s.mem;
      SumOf(samples[..|samples| - 1], kind) + if value.Some? then value.value else 0.0
  }

  ghost predicate MetricAsConfigured(d: Inputs, r: Rule, n: Node, open: bool, now: int) {
    var readings := Readings(d, r, n, now);
    n.active && readings != [] ==>
      var average := SumOf(readings, r.kind) / (|readings| as real);
      AgainstLimit(d, r, n, open, 90.0, (limit: real) => average > limit)
  }

  /** What a reconciled rule means, kind by kind. */
  ghost predicate AsConfigured(d: Inputs, r: Rule, n: Node, open: bool, now: int) {
    match r.kind
    case NodeOffline => OfflineAsConfigured(d, r, n, open, now)
    case DiskLow => DiskAsConfigured(d, r, n, open)
    case CpuHigh => MetricAsConfigured(d, r, n, open, now)
    case MemHigh => MetricAsConfigured(d, r, n, open, now)
  }

  lemma {:induction false} TallyIsOfReadings(samples: seq<Sample>, node: int, from: int, kind: Kind)
    ensures var readings := Where(samples, IsReading(node, from, kind));
            Tally(samples, node, from, kind) == (SumOf(readings, kind), |readings|)
  {
    if samples != [] {
      var front, s := samples[..|samples| - 1], samples[|samples| - 1];
      TallyIsOfReadings(front, node, from, kind);
      var keep := IsReading(node, from, kind);
      assert samples == front + [s];
      WhereNext(front, s, keep);
      assert (Where(front, keep) + [s])[..|Where(front, keep)|] == Where(front, keep);
    }
  }

  /** Which override row decides, as the resolved values say. */
  lemma ResolvedMeans(d: Inputs, r: Rule, n: Node)
    requires RisingOverrideIds(d.overrides)
    ensures var v := LastEnabled(TagSet(n.tags), OverridesOf(d.overrides, r.id));
            && (forall o | DecidesEnabled(o, d, r, n) :: v == o.enabled)
            && (v.None? <==> forall o | o in d.overrides && o.rule == r.id && o.group in n.tags :: o.enabled.None?)
            && (v.Some? ==> exists o :: DecidesEnabled(o, d, r, n) && o.enabled == v)
    ensures var v := LastThreshold(TagSet(n.tags), OverridesOf(d.overrides, r.id));
            && (forall o | DecidesThreshold(o, d, r, n) :: v == o.threshold)
            && (v.None? <==> forall o | o in d.overrides && o.rule == r.id && o.group in n.tags :: o.threshold.None?)
  {
    var groups := TagSet(n.tags);
    assert forall g :: g in groups <==> g in n.tags;
    HighestRowDecides(d, r.id, n.tags);
    RisingIdsAreDistinct(d.overrides);
    hide OverridesOf, LastEnabled, LastThreshold, TagSet, RisingOverrideIds;
  }

  lemma RisingIdsAreDistinct(overrides: seq<Override>)
    requires RisingOverrideIds(overrides)
    ensures forall o, p | o in overrides && p in overrides && o.id == p.id :: o == p
  {}

  lemma OfflineMeans(d: Inputs, r: Rule, n: Node, now: int)
    requires RisingOverrideIds(d.overrides) && r.kind.NodeOffline?
    ensures OfflineAsConfigured(d, r, n, ShouldBeOpen(d, r, n, now), now)
  {
    ResolvedMeans(d, r, n);
    hide OverridesOf, LastEnabled, LastThreshold, TagSet, RisingOverrideIds, DecidesEnabled, DecidesThreshold;
  }

  /** A figure against its limit, once the two resolved values are known. */
  lemma LimitMeans(d: Inputs, r: Rule, n: Node, default: real, crossed: real -> bool)
    requires RisingOverrideIds(d.overrides)
    ensures AgainstLimit(d, r, n, !DisabledByGroup(d, r.id, n)
              && crossed(EffectiveThreshold(d, r, n, default)), default,
                         crossed)
  {
    ResolvedMeans(d, r, n);
    hide OverridesOf, LastEnabled, LastThreshold, TagSet, RisingOverrideIds, DecidesEnabled, DecidesThreshold;
  }

  lemma DiskMeans(d: Inputs, r: Rule, n: Node, now: int)
    requires RisingOverrideIds(d.overrides) && r.kind.DiskLow? && HasDisk(n)
    ensures DiskAsConfigured(d, r, n, ShouldBeOpen(d, r, n, now))
  {
    var free := if n.diskFree.Some? then n.diskFree.value else 0.0;
    LimitMeans(d, r, n, 10.0, (limit: real) => free / n.diskTotal.value * 100.0 < limit);
    hide AgainstLimit, DisabledByGroup, EffectiveThreshold;
  }

  lemma MetricMeans(d: Inputs, r: Rule, n: Node, now: int)
    requires RisingOverrideIds(d.overrides) && (r.kind.CpuHigh? || r.kind.MemHigh?)
    ensures HasReadings(d, r, n, now) <==> n.active && Readings(d, r, n, now) != []
    ensures HasReadings(d, r, n, now) ==> MetricAsConfigured(d, r, n, ShouldBeOpen(d, r, n, now), now)
  {
    TallyIsOfReadings(d.samples, n.id, now - 60 * WindowMinutes(r), r.kind);
    hide Tally, Where, SumOf, IsReading, AgainstLimit, DisabledByGroup, EffectiveThreshold;
    if HasReadings(d, r, n, now) {
      var readings := Readings(d, r, n, now);
      var average := SumOf(readings, r.kind) / (|readings| as real);
      LimitMeans(d, r, n, 90.0, (limit: real) => average > limit);
    }
  }

  /** So a reconciled rule has an open event for a node exactly when the tables say so. */
  lemma ReconciledAsConfigured(d: Inputs, r: Rule, open: set<Pair>, n: Node, now: int)
    requires RisingOverrideIds(d.overrides) && Reconciled(d, r, open, now) && n in d.nodes
    ensures AsConfigured(d, r, n, (r.id, n.id) in open, now)
  {
    hide RisingOverrideIds, OfflineAsConfigured, AgainstLimit, HasReadings, ShouldBeOpen, Readings, SumOf;
    match r.kind
    case NodeOffline => OfflineMeans(d, r, n, now);
    case DiskLow => if HasDisk(n) { DiskMeans(d, r, n, now); }
    case CpuHigh => MetricMeans(d, r, n, now);
    case MemHigh => MetricMeans(d, r, n, now);
  }

  lemma EvaluatedMeansConfigured(d: Inputs, r: Rule, open: set<Pair>, open': set<Pair>, now: int)
    ensures EvaluatedTo(d, r, open, open', now) ==> AllAsConfigured(d, r, open', now)
  {
    ReconciledMeansConfigured(d, r, open', now);
    hide AllAsConfigured, Reconciled;
  }

  /** After an evaluation of the rule, every node's alert is as the tables say. */
  ghost predicate AllAsConfigured(d: Inputs, r: Rule, open: set<Pair>, now: int) {
    RisingOverrideIds(d.overrides) ==> forall n | n in d.nodes :: AsConfigured(d, r, n, (r.id, n.id) in open, now)
  }

  lemma ReconciledMeansConfigured(d: Inputs, r: Rule, open: set<Pair>, now: int)
    ensures Reconciled(d, r, open, now) ==> AllAsConfigured(d, r, open, now)
  {
    hide Reconciled, AsConfigured;
    if Reconciled(d, r, open, now) && RisingOverrideIds(d.overrides) {
      forall n | n in d.nodes
        ensures AsConfigured(d, r, n, (r.id, n.id) in open, now)
      {
        ReconciledAsConfigured(d, r, open, n, now);
      }
    }
  }

  // ---- The statements on alert_events ---------------------------------------------------

  /** UPDATE ... SET resolved_at WHERE rule_id = ? AND node_id = ? AND resolved_at IS NULL. */
  function ResolveAll(events: seq<Event>, rule: int, node: int, now: int): (r: seq<Event>)
    ensures |r| == |events|
    ensures forall i | 0 <= i < |r| ::
              r[i] == if events[i].rule == rule && events[i].node == node && events[i].resolvedAt.None?
                      then events[i].(resolvedAt := Some(now)) else events[i]
  {
    seq(|events|, i requires 0 <= i < |events| =>
      if events[i].rule == rule && events[i].node == node && events[i].resolvedAt.None?
      then events[i].(resolvedAt := Some(now)) else events[i])
  }

  /**
   Nothing is deleted or reopened: rows stay in place, and open ones may get resolved
   at `now`. Rows are only added for pairs that had no open one, and stay open.
   */
  ghost predicate Follows(before: seq<Event>, after: seq<Event>, now: int) {
    && |before| <= |after|
    && (forall i | 0 <= i < |before| ::
          after[i] == before[i] || (before[i].resolvedAt.None? && after[i] == before[i].(resolvedAt := Some(now))))
    && (forall i | |before| <= i < |after| ::
          && after[i].resolvedAt.None? && after[i].firedAt == now
          && (after[i].rule, after[i].node) !in OpenPairs(before))
  }

  /** One after another: what the first opened the second leaves open, and it opens nothing that was open at first. */
  lemma FollowsChain(a: seq<Event>, b: seq<Event>, c: seq<Event>, now: int)
    requires Follows(a, b, now) && Follows(b, c, now) && AtMostOneOpen(b)
    requires OpenPairs(b) - OpenPairs(a) <= OpenPairs(c)
    requires (OpenPairs(c) - OpenPairs(b)) !! OpenPairs(a)
    ensures Follows(a, c, now)
  {
    forall i | |a| <= i < |c|
      ensures c[i].resolvedAt.None? && c[i].firedAt == now && (c[i].rule, c[i].node) !in OpenPairs(a)
    {
      var p := (c[i].rule, c[i].node);
      if i < |b| {
        assert p == (b[i].rule, b[i].node) && p in OpenPairs(b) - OpenPairs(a);
        var m :| 0 <= m < |c| && c[m].resolvedAt.None? && (c[m].rule, c[m].node) == p;
        assert m < |b| && c[m] == b[m];
        assert m == i;
      } else {
        assert p in OpenPairs(c);
      }
    }
  }

  lemma FollowsItself(events: seq<Event>, now: int)
    ensures Follows(events, events, now)
  {}

  /** The pairs of the rows after the first `n`. */
  function PairsFrom(events: seq<Event>, n: nat): set<Pair> {
    set i | n <= i < |events| :: (events[i].rule, events[i].node)
  }

  /** So every pair that has been opened got exactly one row, and nothing else was added. */
  lemma OneRowPerOpenedPair(before: seq<Event>, after: seq<Event>, now: int)
    requires Follows(before, after, now) && AtMostOneOpen(after)
    ensures PairsFrom(after, |before|) == OpenPairs(after) - OpenPairs(before)
    ensures |after| - |before| == |OpenPairs(after) - OpenPairs(before)|
  {
    forall p: Pair | p in OpenPairs(after) - OpenPairs(before)
      ensures p in PairsFrom(after, |before|)
    {
      var i :| 0 <= i < |after| && after[i].resolvedAt.None? && (after[i].rule, after[i].node) == p;
      assert i >= |before|;
    }
    PairsFromCounts(after, |before|);
  }

  lemma {:induction false} PairsFromCounts(events: seq<Event>, n: nat)
    requires n <= |events| && AtMostOneOpen(events)
    requires forall i | n <= i < |events| :: events[i].resolvedAt.None?
    ensures |PairsFrom(events, n)| == |events| - n
    decreases |events| - n
  {
    if n < |events| {
      PairsFromCounts(events, n + 1);
      assert PairsFrom(events, n) == PairsFrom(events, n + 1) + {(events[n].rule, events[n].node)};
    }
  }

  lemma ResolveAllClosesOnePair(events: seq<Event>, rule: int, node: int, now: int)
    ensures var r := ResolveAll(events, rule, node, now);
            && OpenPairs(r) == OpenPairs(events) - {(rule, node)}
            && ((rule, node) !in OpenPairs(events) ==> r == events)
            && Follows(events, r, now)
  {}

  lemma AppendOpensOnePair(events: seq<Event>, e: Event)
    requires e.resolvedAt.None?
    ensures OpenPairs(events + [e]) == OpenPairs(events) + {(e.rule, e.node)}
  {
    var r := events + [e];
    forall p: Pair
      ensures p in OpenPairs(r) <==> p in OpenPairs(events) || p == (e.rule, e.node)
    {
      if p in OpenPairs(events) {
        var i :| 0 <= i < |events| && events[i].resolvedAt.None? && (events[i].rule, events[i].node) == p;
        assert r[i] == events[i];
      }
      if p == (e.rule, e.node) {
        assert r[|events|] == e;
      }
    }
  }

  /** The pairs of one rule with the first `k` of some nodes that satisfy `which`. */
  function PairsOf(rule: int, nodes: seq<Node>, k: nat, which: Node -> bool): set<Pair>
    requires k <= |nodes|
  {
    set i | 0 <= i < k && which(nodes[i]) :: (rule, nodes[i].id)
  }

  lemma PairsOfNone(rule: int, nodes: seq<Node>, which: Node -> bool)
    ensures PairsOf(rule, nodes, 0, which) == {}
  {}

  lemma PairsOfNext(rule: int, nodes: seq<Node>, k: nat, which: Node -> bool)
    requires k < |nodes|
    ensures PairsOf(rule, nodes, k + 1, which)
         == PairsOf(rule, nodes, k, which) + if which(nodes[k]) then {(rule, nodes[k].id)} else {}
  {}

  ghost predicate UniqueIds(nodes: seq<Node>) {
    forall m, n | m in nodes && n in nodes && m.id == n.id :: m == n
  }

  /** Open events refer only to nodes that have checked in. */
  ghost predicate OnlyCheckedIn(nodes: seq<Node>, open: set<Pair>) {
    forall n, p: Pair | n in nodes && p in open && p.1 == n.id :: n.lastCheckin.Some?
  }

  /** Disk figures and metrics come from check-ins only. */
  ghost predicate DataFromCheckins(d: Inputs) {
    && (forall n | n in d.nodes && n.diskTotal.Some? :: n.lastCheckin.Some?)
    && (forall n, s | n in d.nodes && s in d.samples && s.node == n.id :: n.lastCheckin.Some?)
  }

  /** The table the engine writes; everything else it only reads. */
  class Engine {
    var events: seq<Event>
    var nextId: int

    ghost predicate Valid()
      reads this
    {
      && AtMostOneOpen(events)
      && RisingEventIds(events)
      && forall e | e in events :: e.id < nextId
    }

    constructor ()
      ensures Valid() && events == []
    {
      events, nextId := [], 1;
    }

    method Fire(rule: int, node: int, now: int)
      requires Valid()
      modifies this
      ensures Valid()
      ensures OpenPairs(events) == OpenPairs(old(events)) + {(rule, node)}
      ensures (rule, node) in OpenPairs(old(events)) ==> events == old(events)
      ensures Follows(old(events), events, now) && |events| <= |old(events)| + 1
    {
      if (rule, node) in OpenPairs(events) {
        return;
      }
      var e := Event(nextId, rule, node, now, None);
      AppendOpensOnePair(events, e);
      events := events + [e];
      nextId := nextId + 1;
    }

    method ResolveOpen(rule: int, node: int, now: int)
      requires Valid()
      modifies this
      ensures Valid()
      ensures events == ResolveAll(old(events), rule, node, now)
      ensures OpenPairs(events) == OpenPairs(old(events)) - {(rule, node)}
      ensures (rule, node) !in OpenPairs(old(events)) ==> events == old(events)
      ensures Follows(old(events), events, now)
    {
      ResolveAllClosesOnePair(events, rule, node, now);
      events := ResolveAll(events, rule, node, now);
    }

    /** One of the engine's loops: fire for each of the selected nodes that `which` picks. */
    method FireEach(rule: int, nodes: seq<Node>, which: Node -> bool, now: int)
      requires Valid()
      modifies this
      ensures Valid() && Follows(old(events), events, now)
      ensures OpenPairs(events) == OpenPairs(old(events)) + PairsOf(rule, nodes, |nodes|, which)
      ensures PairsOf(rule, nodes, |nodes|, which) <= OpenPairs(old(events)) ==> events == old(events)
    {
      hide OpenPairs, AtMostOneOpen, RisingEventIds, PairsOf, Follows;
      ghost var open := OpenPairs(events);
      PairsOfNone(rule, nodes, which);
      FollowsItself(events, now);
      for i := 0 to |nodes|
        invariant Valid() && Follows(old(events), events, now)
        invariant OpenPairs(events) == open + PairsOf(rule, nodes, i, which)
        invariant PairsOf(rule, nodes, i, which) <= open ==> events == old(events)
      {
        PairsOfNext(rule, nodes, i, which);
        if which(nodes[i]) {
          ghost var before := events;
          Fire(rule, nodes[i].id, now);
          FollowsChain(old(events), before, events, now);
        }
      }
    }

    method ResolveEach(rule: int, nodes: seq<Node>, which: Node -> bool, now: int)
      requires Valid()
      modifies this
      ensures Valid() && Follows(old(events), events, now)
      ensures OpenPairs(events) == OpenPairs(old(events)) - PairsOf(rule, nodes, |nodes|, which)
      ensures PairsOf(rule, nodes, |nodes|, which) !! OpenPairs(old(events)) ==> events == old(events)
    {
      hide OpenPairs, AtMostOneOpen, RisingEventIds, PairsOf, Follows;
      ghost var open := OpenPairs(events);
      PairsOfNone(rule, nodes, which);
      FollowsItself(events, now);
      for i := 0 to |nodes|
        invariant Valid() && Follows(old(events), events, now)
        invariant OpenPairs(events) == open - PairsOf(rule, nodes, i, which)
        invariant PairsOf(rule, nodes, i, which) !! open ==> events == old(events)
      {
        PairsOfNext(rule, nodes, i, which);
        if which(nodes[i]) {
          ghost var before := events;
          ResolveOpen(rule, nodes[i].id, now);
          FollowsChain(old(events), before, events, now);
        }
      }
    }

    method EvalNodeOffline(d: Inputs, r: Rule, now: int)
      requires Valid() && r.kind == NodeOffline && UniqueIds(d.nodes) && OnlyCheckedIn(d.nodes, OpenPairs(events))
      modifies this
      ensures Valid()
      ensures EvaluatedTo(d, r, OpenPairs(old(events)), OpenPairs(events), now)
      ensures AllAsConfigured(d, r, OpenPairs(events), now)
      ensures Reconciled(d, r, OpenPairs(old(events)), now) ==> events == old(events)
      ensures Follows(old(events), events, now)
    {
      hide OpenPairs, AtMostOneOpen, RisingEventIds, PairsOf;
      hide Reconciled, EvaluatedTo, AllAsConfigured, LastEnabled, OverridesOf, Follows;
      var enabled := (n: Node) => HostDownEnabled(d, r.id, n);
      var disabled := (n: Node) => !HostDownEnabled(d, r.id, n);
      var all := (n: Node) => true;

      ghost var open := OpenPairs(events);
      var offline := Where(d.nodes, (n: Node) => IsOffline(d, n, now));
      FireEach(r.id, offline, enabled, now);

      // Back within the threshold, or decommissioned.
      ghost var fired := events;
      var openNow := OpenPairs(events);
      var recovered := Where(d.nodes, (n: Node) => (r.id, n.id) in openNow
        && (!n.active || (n.lastCheckin.Some? && n.lastCheckin.value >= now - d.offlineAfter)));
      ResolveEach(r.id, recovered, all, now);

      // Still offline, but alerting is now off for the node.
      ghost var back := events;
      openNow := OpenPairs(events);
      var stillOpen := Where(d.nodes, (n: Node) => (r.id, n.id) in openNow);
      ResolveEach(r.id, stillOpen, disabled, now);

      OfflineOutcome(d, r, open, offline, recovered, stillOpen, enabled, disabled, all, now);
      FollowsChain(old(events), fired, back, now);
      FollowsChain(old(events), back, events, now);
      EvaluatedMeansConfigured(d, r, open, OpenPairs(events), now);
    }

    method EvalDiskLow(d: Inputs, r: Rule, now: int)
      requires Valid() && r.kind == DiskLow && UniqueIds(d.nodes)
      modifies this
      ensures Valid()
      ensures EvaluatedTo(d, r, OpenPairs(old(events)), OpenPairs(events), now)
      ensures AllAsConfigured(d, r, OpenPairs(events), now)
      ensures Reconciled(d, r, OpenPairs(old(events)), now) ==> events == old(events)
      ensures Follows(old(events), events, now)
    {
      hide OpenPairs, AtMostOneOpen, RisingEventIds, Follows, Reconciled, AllAsConfigured;
      hide JudgedSoFar, LastEnabled, LastThreshold, OverridesOf;
      FollowsItself(events, now);
      ghost var open := OpenPairs(events);
      ghost var settled := Reconciled(d, r, open, now);
      var base := if r.threshold.Some? then r.threshold.value else 10.0;
      var overrides := OverridesOf(d.overrides, r.id);
      var nodes := Where(d.nodes, (n: Node) => HasDisk(n));
      JudgedNone(d, r, nodes, open, now);
      for i := 0 to |nodes|
        invariant Valid() && Follows(old(events), events, now)
        invariant JudgedSoFar(d, r, nodes, i, open, OpenPairs(events), now)
        invariant settled ==> events == old(events)
      {
        var n := nodes[i];
        assert n in nodes;
        JudgedNext(d, r, nodes, i, open, OpenPairs(events), now);
        ghost var before := events;
        var enabled, threshold := ResolveGroupOverride(n.tags, overrides);
        if enabled == Some(false) {
          ResolveOpen(r.id, n.id, now);
          FollowsChain(old(events), before, events, now);
          continue;
        }
        var limit := if threshold.None? then base else threshold.value;
        if FreePercent(n) < limit {
          Fire(r.id, n.id, now);
        } else {
          ResolveOpen(r.id, n.id, now);
        }
        FollowsChain(old(events), before, events, now);
      }
      JudgedAll(d, r, nodes, open, OpenPairs(events), now);
      EvaluatedMeansConfigured(d, r, open, OpenPairs(events), now);
    }

    method EvalMetricHigh(d: Inputs, r: Rule, now: int)
      requires Valid() && (r.kind == CpuHigh || r.kind == MemHigh) && UniqueIds(d.nodes)
      modifies this
      ensures Valid()
      ensures EvaluatedTo(d, r, OpenPairs(old(events)), OpenPairs(events), now)
      ensures AllAsConfigured(d, r, OpenPairs(events), now)
      ensures Reconciled(d, r, OpenPairs(old(events)), now) ==> events == old(events)
      ensures Follows(old(events), events, now)
    {
      hide OpenPairs, AtMostOneOpen, RisingEventIds, Follows, Reconciled, AllAsConfigured;
      hide JudgedSoFar, LastEnabled, LastThreshold, OverridesOf, Tally;
      FollowsItself(events, now);
      ghost var open := OpenPairs(events);
      ghost var settled := Reconciled(d, r, open, now);
      var base := if r.threshold.Some? then r.threshold.value else 90.0;
      var overrides := OverridesOf(d.overrides, r.id);
      var nodes := Where(d.nodes, (n: Node) => HasReadings(d, r, n, now));
      JudgedNone(d, r, nodes, open, now);
      for i := 0 to |nodes|
        invariant Valid() && Follows(old(events), events, now)
        invariant JudgedSoFar(d, r, nodes, i, open, OpenPairs(events), now)
        invariant settled ==> events == old(events)
      {
        var n := nodes[i];
        assert n in nodes;
        JudgedNext(d, r, nodes, i, open, OpenPairs(events), now);
        ghost var before := events;
        var enabled, threshold := ResolveGroupOverride(n.tags, overrides);
        if enabled == Some(false) {
          ResolveOpen(r.id, n.id, now);
          FollowsChain(old(events), before, events, now);
          continue;
        }
        var limit := if threshold.None? then base else threshold.value;
        if Average(d, r, n, now) > limit {
          Fire(r.id, n.id, now);
        } else {
          ResolveOpen(r.id, n.id, now);
        }
        FollowsChain(old(events), before, events, now);
      }
      JudgedAll(d, r, nodes, open, OpenPairs(events), now);
      EvaluatedMeansConfigured(d, r, open, OpenPairs(events), now);
    }

    method EvalRule(d: Inputs, r: Rule, now: int)
      requires Valid() && UniqueIds(d.nodes) && OnlyCheckedIn(d.nodes, OpenPairs(events))
      modifies this
      ensures Valid()
      ensures EvaluatedTo(d, r, OpenPairs(old(events)), OpenPairs(events), now)
      ensures Reconciled(d, r, OpenPairs(old(events)), now) ==> events == old(events)
      ensures Follows(old(events), events, now)
    {
      hide *;
      match r.kind {
        case NodeOffline => EvalNodeOffline(d, r, now);
        case DiskLow => EvalDiskLow(d, r, now);
        case CpuHigh => EvalMetricHigh(d, r, now);
        case MemHigh => EvalMetricHigh(d, r, now);
      }
    }

    /** One pass over the enabled rules at one instant. */
    method EvaluateOnce(d: Inputs, rules: seq<Rule>, now: int)
      requires Valid() && UniqueIds(d.nodes) && UniqueRules(rules) && DataFromCheckins(d)
      requires OnlyCheckedIn(d.nodes, OpenPairs(events))
      modifies this
      ensures Valid() && OnlyCheckedIn(d.nodes, OpenPairs(events))
      ensures forall r | r in rules && r.enabled :: Reconciled(d, r, OpenPairs(events), now)
      ensures forall r | r in rules && r.enabled :: AllAsConfigured(d, r, OpenPairs(events), now)
      ensures forall p: Pair | !(p in OpenPairs(events) <==> p in OpenPairs(old(events))) ::
                exists r, n | r in rules && n in d.nodes :: r.enabled && (r.id, n.id) == p && Judged(d, r, n, now)
      ensures (forall r | r in rules && r.enabled :: Reconciled(d, r, OpenPairs(old(events)), now)) ==>
                events == old(events)
      ensures Follows(old(events), events, now)
    {
      hide OpenPairs, AtMostOneOpen, RisingEventIds, Follows;
      hide Reconciled, EvaluatedTo, AllAsConfigured, OnlyCheckedIn, Judged;
      FollowsItself(events, now);
      ghost var open := OpenPairs(events);
      ghost var settled := forall r | r in rules && r.enabled :: Reconciled(d, r, open, now);
      for i := 0 to |rules|
        invariant Valid() && OnlyCheckedIn(d.nodes, OpenPairs(events))
        invariant EvaluatedRules(d, rules, i, open, OpenPairs(events), now)
        invariant settled ==> events == old(events)
        invariant Follows(old(events), events, now)
      {
        var r := rules[i];
        ghost var was, before := events, OpenPairs(events);
        if r.enabled {
          EvalRule(d, r, now);
          OnlyCheckedInKept(d, r, before, OpenPairs(events), now);
        } else {
          FollowsItself(events, now);
        }
        EvaluatedRulesNext(d, rules, i, open, before, OpenPairs(events), now);
        FollowsChain(old(events), was, events, now);
      }
      forall r | r in rules && r.enabled
        ensures AllAsConfigured(d, r, OpenPairs(events), now)
      {
        ReconciledMeansConfigured(d, r, OpenPairs(events), now);
      }
    }

    /**
     A second pass over the same tables at the same instant finds nothing to do:
     `first` is what one pass leaves, every enabled rule reconciled, and it stays.
     */
    method EvaluateTwice(d: Inputs, rules: seq<Rule>, now: int) returns (first: seq<Event>)
      requires Valid() && UniqueIds(d.nodes) && UniqueRules(rules) && DataFromCheckins(d)
      requires OnlyCheckedIn(d.nodes, OpenPairs(events))
      modifies this
      ensures Valid() && OnlyCheckedIn(d.nodes, OpenPairs(events))
      ensures events == first
      ensures forall r | r in rules && r.enabled :: Reconciled(d, r, OpenPairs(first), now)
      ensures forall p: Pair | !(p in OpenPairs(first) <==> p in OpenPairs(old(events))) ::
                exists r, n | r in rules && n in d.nodes :: r.enabled && (r.id, n.id) == p && Judged(d, r, n, now)
      ensures Follows(old(events), first, now)
    {
      hide OpenPairs, AtMostOneOpen, RisingEventIds, Reconciled, AllAsConfigured, OnlyCheckedIn, Judged, Follows;
      EvaluateOnce(d, rules, now);
      first := events;
      EvaluateOnce(d, rules, now);
    }

    /** Deleting rows, whichever they are: retention, a deleted rule, the cascade of a deleted node. */
    method DeleteRows(keep: Event -> bool)
      requires Valid()
      modifies this
      ensures Valid()
      ensures forall e :: e in events <==> e in old(events) && keep(e)
      ensures OpenPairs(events) <= OpenPairs(old(events))
    {
      KeepingKeepsOrder(events, keep);
      events := Where(events, keep);
    }
  }

  lemma {:induction false} KeepingKeepsOrder(events: seq<Event>, keep: Event -> bool)
    requires AtMostOneOpen(events) && RisingEventIds(events)
    ensures AtMostOneOpen(Where(events, keep)) && RisingEventIds(Where(events, keep))
    ensures OpenPairs(Where(events, keep)) <= OpenPairs(events)
  {
    if events != [] {
      var front, last := events[..|events| - 1], events[|events| - 1];
      KeepingKeepsOrder(front, keep);
      LastEventComesAfter(front, last);
      hide Where, AtMostOneOpen, RisingEventIds, OpenPairs;
      assert events == front + [last];
      WhereNext(front, last, keep);
      OrderedWithLastEvent(Where(front, keep), last);
      OpenPairsOfMore(front, last);
      OpenPairsOfMore(Where(front, keep), last);
    }
  }

  lemma OpenPairsOfMore(events: seq<Event>, e: Event)
    ensures OpenPairs(events + [e]) == OpenPairs(events) + if e.resolvedAt.None? then {(e.rule, e.node)} else {}
  {
    var all := events + [e];
    assert all[|events|] == e;
    forall p | p in OpenPairs(events)
      ensures p in OpenPairs(all)
    {
      var i :| 0 <= i < |events| && events[i].resolvedAt.None? && (events[i].rule, events[i].node) == p;
      assert all[i] == events[i];
    }
  }

  /** A row that may follow the others. */
  ghost predicate FollowsAll(events: seq<Event>, e: Event) {
    forall o | o in events ::
      o.id < e.id && (o.resolvedAt.None? && e.resolvedAt.None? ==> (o.rule, o.node) != (e.rule, e.node))
  }

  lemma LastEventComesAfter(front: seq<Event>, last: Event)
    requires AtMostOneOpen(front + [last]) && RisingEventIds(front + [last])
    ensures FollowsAll(front, last)
  {
    var all := front + [last];
    assert all[|front|] == last;
    forall o | o in front
      ensures o.id < last.id && (o.resolvedAt.None? && last.resolvedAt.None? ==>
                (o.rule, o.node) != (last.rule, last.node))
    {
      var i :| 0 <= i < |front| && front[i] == o;
      assert all[i] == o;
    }
  }

  lemma OrderedWithLastEvent(events: seq<Event>, e: Event)
    requires AtMostOneOpen(events) && RisingEventIds(events) && FollowsAll(events, e)
    ensures AtMostOneOpen(events + [e]) && RisingEventIds(events + [e])
  {}

  ghost predicate UniqueRules(rules: seq<Rule>) {
    forall i, j | 0 <= i < j < |rules| :: rules[i].id != rules[j].id
  }

  /** Between two rules of the pass: the first `i` are reconciled, nothing else has moved. */
  ghost predicate EvaluatedRules(d: Inputs, rules: seq<Rule>, i: nat, open: set<Pair>, open': set<Pair>, now: int)
    requires i <= |rules|
  {
    && (forall k | 0 <= k < i && rules[k].enabled :: Reconciled(d, rules[k], open', now))
    && (forall p: Pair :: (p in open' <==> p in open) ||
          exists k, n | 0 <= k < i && n in d.nodes ::
              rules[k].enabled && (rules[k].id, n.id) == p && Judged(d, rules[k], n, now))
  }

  lemma EvaluatedRulesNext(d: Inputs, rules: seq<Rule>, i: nat, open: set<Pair>, before: set<Pair>, after: set<Pair>,
                           now: int)
    requires i < |rules| && UniqueRules(rules) && EvaluatedRules(d, rules, i, open, before, now)
    requires if rules[i].enabled then EvaluatedTo(d, rules[i], before, after, now) else after == before
    ensures EvaluatedRules(d, rules, i + 1, open, after, now)
    ensures before - open <= after && (after - before) !! open
  {}

  lemma OnlyCheckedInKept(d: Inputs, r: Rule, open: set<Pair>, open': set<Pair>, now: int)
    requires UniqueIds(d.nodes) && DataFromCheckins(d) && OnlyCheckedIn(d.nodes, open)
    requires EvaluatedTo(d, r, open, open', now)
    ensures OnlyCheckedIn(d.nodes, open')
  {
    forall n, p: Pair | n in d.nodes && p in open' && p.1 == n.id
      ensures n.lastCheckin.Some?
    {
      if p !in open {
        var m :| m in d.nodes && m.id == p.1 && Judged(d, r, m, now);
        assert m == n && ShouldBeOpen(d, r, n, now);
        if r.kind.CpuHigh? || r.kind.MemHigh? {
          TallyHasSample(d.samples, n.id, now - 60 * WindowMinutes(r), r.kind);
        }
      }
    }
  }

  lemma {:induction false} TallyHasSample(samples: seq<Sample>, node: int, from: int, kind: Kind)
    requires Tally(samples, node, from, kind).1 > 0
    ensures exists s | s in samples :: s.node == node
  {
    var last := |samples| - 1;
    if samples[last].node != node {
      TallyHasSample(samples[..last], node, from, kind);
      var s :| s in samples[..last] && s.node == node;
      assert s in samples;
    } else {
      assert samples[last] in samples;
    }
  }

  /** The three loops of _eval_node_offline together leave open exactly what should be. */
  lemma OfflineOutcome(d: Inputs, r: Rule, open: set<Pair>, offline: seq<Node>, recovered: seq<Node>,
                       stillOpen: seq<Node>,
                       enabled: Node -> bool, disabled: Node -> bool, all: Node -> bool, now: int)
    requires r.kind == NodeOffline && UniqueIds(d.nodes) && OnlyCheckedIn(d.nodes, open)
    requires forall n :: enabled(n) <==> HostDownEnabled(d, r.id, n)
    requires forall n :: disabled(n) <==> !enabled(n)
    requires forall n :: all(n)
    requires forall n :: n in offline <==> n in d.nodes && IsOffline(d, n, now)
    requires var fired := open + PairsOf(r.id, offline, |offline|, enabled);
             forall n :: n in recovered <==>
               (n in d.nodes && (r.id, n.id) in fired
                && (!n.active || (n.lastCheckin.Some? && n.lastCheckin.value >= now - d.offlineAfter)))
    requires var back := open + PairsOf(r.id, offline, |offline|, enabled) - PairsOf(r.id, recovered, |recovered|, all);
             forall n :: n in stillOpen <==> n in d.nodes && (r.id, n.id) in back
    ensures var fired := open + PairsOf(r.id, offline, |offline|, enabled);
            var back := fired - PairsOf(r.id, recovered, |recovered|, all);
            && EvaluatedTo(d, r, open, back - PairsOf(r.id, stillOpen, |stillOpen|, disabled), now)
            && (Reconciled(d, r, open, now) ==>
                  && PairsOf(r.id, offline, |offline|, enabled) <= open
                  && PairsOf(r.id, recovered, |recovered|, all) !! fired
                  && PairsOf(r.id, stillOpen, |stillOpen|, disabled) !! back)
            && fired - open <= back && back - open <= back - PairsOf(r.id, stillOpen, |stillOpen|, disabled)
  {}

  lemma JudgedNone(d: Inputs, r: Rule, nodes: seq<Node>, open: set<Pair>, now: int)
    ensures JudgedSoFar(d, r, nodes, 0, open, open, now)
  {}

  /** The next node of the loop, whichever way it is decided. */
  lemma JudgedNext(d: Inputs, r: Rule, nodes: seq<Node>, i: nat, open: set<Pair>, before: set<Pair>, now: int)
    requires i < |nodes| && UniqueIds(d.nodes) && JudgedSoFar(d, r, nodes, i, open, before, now)
    requires forall n | n in nodes :: n in d.nodes && Judged(d, r, n, now)
    ensures var after := if ShouldBeOpen(d, r, nodes[i], now) then before + {(r.id, nodes[i].id)}
              else before - {(r.id, nodes[i].id)};
            JudgedSoFar(d, r, nodes, i + 1, open, after, now)
    ensures Reconciled(d, r, open, now) && before == open ==>
              ((r.id, nodes[i].id) in before <==> ShouldBeOpen(d, r, nodes[i], now))
    ensures (r.id, nodes[i].id) in before - open ==> ShouldBeOpen(d, r, nodes[i], now)
    ensures (r.id, nodes[i].id) in open - before ==> !ShouldBeOpen(d, r, nodes[i], now)
  {}

  lemma JudgedAll(d: Inputs, r: Rule, nodes: seq<Node>, open: set<Pair>, open': set<Pair>, now: int)
    requires JudgedSoFar(d, r, nodes, |nodes|, open, open', now)
    requires forall n :: n in nodes <==> n in d.nodes && Judged(d, r, n, now)
    ensures EvaluatedTo(d, r, open, open', now)
  {}

  /** Between two nodes of the loop: the first `i` are as they should be, the other pairs as before. */
  ghost predicate JudgedSoFar(d: Inputs, r: Rule, nodes: seq<Node>, i: nat, open: set<Pair>, open': set<Pair>, now: int)
    requires i <= |nodes|
  {
    && (forall k | 0 <= k < i ::
       Judged(d, r, nodes[k], now) && ((r.id, nodes[k].id) in open' <==> ShouldBeOpen(d, r, nodes[k], now)))
    && (forall p: Pair :: (p in open' <==> p in open) || (p.0 == r.id && exists k | 0 <= k < i :: nodes[k].id == p.1))
  }
}
