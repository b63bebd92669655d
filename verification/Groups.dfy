/**
 Groups, node membership and per-group alert overrides (app/api/groups.py and the
 tag handling of update_node in app/api/nodes.py): the tables AlertEngine's
 override resolution reads.
 */
module Groups {
  import opened AlertEngine
  import opened Collections
  import opened Whitespace
  import opened Wrappers

  datatype Reply = Ok | NameRequired | Duplicate | NotFound | UnknownGroup

  function Untag(tags: seq<string>, name: string): (r: seq<string>)
    ensures forall t :: t in r <==> t in tags && t != name
    ensures name !in tags ==> r == tags
  {
    if tags == [] then []
    else if tags[0] == name then Untag(tags[1..], name) else [tags[0]] + Untag(tags[1..], name)
  }

  /** The row of one (group, rule), if there is one. */
  function Find(overrides: seq<Override>, group: string, rule: int): (at: Option<nat>)
    ensures at.None? <==> forall o | o in overrides :: (o.group, o.rule) != (group, rule)
    ensures at.Some? ==>
              at.value < |overrides| && (overrides[at.value].group, overrides[at.value].rule) == (group, rule)
  {
    if overrides == [] then None
    else
      var last := |overrides| - 1;
      if (overrides[last].group, overrides[last].rule) == (group, rule) then Some(last)
      else Find(overrides[..last], group, rule)
  }

  function NotOf(name: string): Override -> bool { (o: Override) => o.group != name }

  function NotFor(group: string, rule: int): Override -> bool { (o: Override) => (o.group, o.rule) != (group, rule) }

  lemma {:induction false} SurvivingKeepsOrder(overrides: seq<Override>, keep: Override -> bool)
    requires RisingOverrideIds(overrides) && UniquePairs(overrides)
    ensures RisingOverrideIds(Where(overrides, keep)) && UniquePairs(Where(overrides, keep))
  {
    if overrides != [] {
      var front, last := overrides[..|overrides| - 1], overrides[|overrides| - 1];
      SurvivingKeepsOrder(front, keep);
      hide Where, RisingOverrideIds, UniquePairs;
      LastComesAfter(front, last);
      assert overrides == front + [last];
      OrderedWithLast(Where(front, keep), last);
      WhereNext(front, last, keep);
    }
  }

  /** A row that may follow the others. */
  ghost predicate ComesAfter(rows: seq<Override>, o: Override) {
    forall r | r in rows :: r.id < o.id && (r.group, r.rule) != (o.group, o.rule)
  }

  lemma LastComesAfter(front: seq<Override>, last: Override)
    requires RisingOverrideIds(front + [last]) && UniquePairs(front + [last])
    ensures ComesAfter(front, last)
  {
    var all := front + [last];
    assert all[|front|] == last;
    forall r | r in front
      ensures r.id < last.id && (r.group, r.rule) != (last.group, last.rule)
    {
      var i :| 0 <= i < |front| && front[i] == r;
      assert all[i] == r;
    }
  }

  lemma OrderedWithLast(rows: seq<Override>, o: Override)
    requires RisingOverrideIds(rows) && UniquePairs(rows) && ComesAfter(rows, o)
    ensures RisingOverrideIds(rows + [o]) && UniquePairs(rows + [o])
  {}

  /** The columns of a node row that matter here: its id and tags_json. */
  datatype Member = Member(node: int, tags: seq<string>)

  function Strike(m: Member, name: string): Member { m.(tags := Untag(m.tags, name)) }

  ghost predicate UniquePairs(overrides: seq<Override>) {
    forall i, j | 0 <= i < j < |overrides| ::
      (overrides[i].group, overrides[i].rule) != (overrides[j].group, overrides[j].rule)
  }

  class Tables {
    var groups: set<string>
    var rules: set<int>
    var overrides: seq<Override>
    var nextId: int
    var nodes: seq<Member>

    ghost predicate Valid()
      reads this
    {
      && (forall k, t | 0 <= k < |nodes| && t in nodes[k].tags :: t in groups)
      && (forall o | o in overrides :: o.group in groups)
      && WellKept(overrides, nextId)
    }

    method CreateGroup(raw: string) returns (reply: Reply)
      requires Valid()
      modifies this`groups
      ensures Valid()
      ensures reply == if Trim(raw, Python) == "" then NameRequired
                       else if Trim(raw, Python) in old(groups) then Duplicate else Ok
      ensures groups == if reply == Ok then old(groups) + {Trim(raw, Python)} else old(groups)
    {
      var name := Trim(raw, Python);
      if name == "" {
        return NameRequired;
      }
      if name in groups {
        return Duplicate;
      }
      groups := groups + {name};
      reply := Ok;
    }

    /** The loop over all nodes that takes a name out of their lists. */
    method StripFromNodes(name: string)
      modifies this`nodes
      ensures |nodes| == |old(nodes)| && forall k | 0 <= k < |nodes| :: nodes[k] == Strike(old(nodes)[k], name)
    {
      for i := 0 to |nodes|
        invariant |nodes| == |old(nodes)|
        invariant forall k | 0 <= k < |nodes| ::
                    nodes[k] == if k < i then Strike(old(nodes)[k], name) else old(nodes)[k]
      {
        if name in nodes[i].tags {
          nodes := nodes[i := Strike(nodes[i], name)];
        }
      }
    }

    /** The row goes, its overrides by the foreign key's cascade, its name out of every node's list. */
    method DeleteGroup(name: string) returns (reply: Reply)
      requires Valid()
      modifies this
      ensures Valid()
      ensures reply == if name in old(groups) then Ok else NotFound
      ensures groups == old(groups) - {name} && rules == old(rules)
      ensures overrides == Where(old(overrides), NotOf(name))
      ensures |nodes| == |old(nodes)| && forall k | 0 <= k < |nodes| :: nodes[k] == Strike(old(nodes)[k], name)
      ensures forall o :: o in overrides <==> o in old(overrides) && o.group != name
      ensures forall k | 0 <= k < |nodes| ::
                && nodes[k].node == old(nodes)[k].node
                && (forall t :: t in nodes[k].tags <==> t in old(nodes)[k].tags && t != name)
    {
      hide WellKept;
      if name !in groups {
        KeepsAll(overrides, NotOf(name));
        return NotFound;
      }
      groups := groups - {name};
      WellKeptDelete(overrides, NotOf(name), nextId);
      overrides := Where(overrides, NotOf(name));
      StripFromNodes(name);
      reply := Ok;
    }

    /** An upsert: an existing row keeps its id, so it keeps its place among the groups' rows. */
    method SetGroupOverride(group: string, rule: int, enabled: Option<bool>, threshold: Option<real>)
      returns (reply: Reply)
      requires Valid()
      modifies this`overrides, this`nextId
      ensures Valid()
      ensures reply == if group in groups && rule in rules then Ok else NotFound
      ensures overrides == if reply == NotFound then old(overrides)
                           else Upsert(old(overrides), group, rule, enabled, threshold, old(nextId))
      ensures reply == Ok ==> Saved(old(overrides), overrides, group, rule, enabled, threshold, old(nextId))
    {
      hide WellKept, Saved;
      UpsertSaves(overrides, group, rule, enabled, threshold, nextId);
      if group !in groups || rule !in rules {
        return NotFound;
      }
      reply := Ok;
      var at := Find(overrides, group, rule);
      if enabled.None? && threshold.None? {
        WellKeptDelete(overrides, NotFor(group, rule), nextId);
        overrides := Where(overrides, NotFor(group, rule));
      } else if at.Some? {
        var saved := overrides[at.value].(enabled := enabled, threshold := threshold);
        WellKeptUpdate(overrides, at.value, saved, nextId);
        overrides := overrides[at.value := saved];
      } else {
        WellKeptAppend(overrides, Override(nextId, group, rule, enabled, threshold));
        overrides := overrides + [Override(nextId, group, rule, enabled, threshold)];
        nextId := nextId + 1;
      }
    }

    /** update_node refuses a list with a name that is not a group. */
    method UpdateNodeTags(node: int, names: seq<string>) returns (reply: Reply)
      requires Valid()
      modifies this`nodes
      ensures Valid()
      ensures reply == if !exists m | m in old(nodes) :: m.node == node then NotFound
                       else if forall t | t in names :: t in groups then Ok else UnknownGroup
      ensures |nodes| == |old(nodes)|
      ensures forall k | 0 <= k < |nodes| ::
                nodes[k] == if reply == Ok && old(nodes)[k].node == node then Member(node, names) else old(nodes)[k]
    {
      if !exists m | m in nodes :: m.node == node {
        return NotFound;
      }
      if exists t | t in names :: t !in groups {
        return UnknownGroup;
      }
      nodes := seq(|nodes|, k requires 0 <= k < |nodes| reads this =>
        if nodes[k].node == node then Member(node, names) else nodes[k]);
      reply := Ok;
    }
  }

  lemma KeepsAll(overrides: seq<Override>, keep: Override -> bool)
    requires forall o | o in overrides :: keep(o)
    ensures Where(overrides, keep) == overrides
  {}

  function Upsert(overrides: seq<Override>, group: string, rule: int, enabled: Option<bool>, threshold: Option<real>,
                  freshId: int): seq<Override> {
    var at := Find(overrides, group, rule);
    if enabled.None? && threshold.None? then Where(overrides, NotFor(group, rule))
    else if at.Some? then overrides[at.value := overrides[at.value].(enabled := enabled, threshold := threshold)]
    else overrides + [Override(freshId, group, rule, enabled, threshold)]
  }

  /**
   What a saved override leaves: no row of the pair if it says nothing, otherwise one
   that says it, under the id the pair's row had, or a fresh one; the others stay.
   */
  ghost predicate Saved(before: seq<Override>, after: seq<Override>, group: string, rule: int, enabled: Option<bool>,
                        threshold: Option<real>, freshId: int) {
    && (forall o: Override | (o.group, o.rule) != (group, rule) :: o in after <==> o in before)
    && (enabled.None? && threshold.None? ==> forall o | o in after :: (o.group, o.rule) != (group, rule))
    && (enabled.Some? || threshold.Some? ==>
          && (exists o | o in after :: (o.group, o.rule) == (group, rule))
          && (forall o | o in after && (o.group, o.rule) == (group, rule) ::
                && o.enabled == enabled && o.threshold == threshold
                && (forall p | p in before && (p.group, p.rule) == (group, rule) :: o.id == p.id)
                && ((forall p | p in before :: (p.group, p.rule) != (group, rule)) ==> o.id == freshId)))
  }

  lemma UpsertSaves(overrides: seq<Override>, group: string, rule: int, enabled: Option<bool>, threshold: Option<real>,
                    freshId: int)
    requires WellKept(overrides, freshId)
    ensures Saved(overrides, Upsert(overrides, group, rule, enabled, threshold, freshId), group, rule, enabled,
              threshold,
                  freshId)
  {
    if (enabled.Some? || threshold.Some?) && Find(overrides, group, rule).Some? {
      var k := Find(overrides, group, rule).value;
      var o := overrides[k].(enabled := enabled, threshold := threshold);
      var after := overrides[k := o];
      assert after[k] == o;
      forall p: Override | (p.group, p.rule) != (group, rule) && p in overrides
        ensures p in after
      {
        var i :| 0 <= i < |overrides| && overrides[i] == p;
        assert after[i] == p;
      }
      forall p | p in overrides && (p.group, p.rule) == (group, rule)
        ensures p == overrides[k]
      {}
      forall p | p in after && (p.group, p.rule) == (group, rule)
        ensures p == o
      {}
    }
  }

  /** What an insert or an update may not disturb. */
  ghost predicate WellKept(overrides: seq<Override>, below: int) {
    && RisingOverrideIds(overrides) && UniquePairs(overrides)
    && forall i | 0 <= i < |overrides| ::
       overrides[i].id < below && (overrides[i].enabled.Some? || overrides[i].threshold.Some?)
  }

  lemma WellKeptUpdate(overrides: seq<Override>, at: nat, o: Override, below: int)
    requires WellKept(overrides, below) && at < |overrides| && (o.enabled.Some? || o.threshold.Some?)
    requires (o.id, o.group, o.rule) == (overrides[at].id, overrides[at].group, overrides[at].rule)
    ensures WellKept(overrides[at := o], below)
  {}

  lemma WellKeptAppend(overrides: seq<Override>, o: Override)
    requires WellKept(overrides, o.id) && (o.enabled.Some? || o.threshold.Some?)
    requires forall i | 0 <= i < |overrides| :: (overrides[i].group, overrides[i].rule) != (o.group, o.rule)
    ensures WellKept(overrides + [o], o.id + 1)
  {}

  lemma WellKeptDelete(overrides: seq<Override>, keep: Override -> bool, below: int)
    requires WellKept(overrides, below)
    ensures WellKept(Where(overrides, keep), below)
  {
    SurvivingKeepsOrder(overrides, keep);
    var r := Where(overrides, keep);
    forall i | 0 <= i < |r|
      ensures r[i] in overrides
    {
      assert r[i] in r;
    }
  }

  // ---- What the tables mean for an evaluation ------------------------------------------

  /** What the rows left after a deletion say is what all rows say to a node that is not in the group. */
  ghost predicate SaysTheSame(left: seq<Override>, all: seq<Override>, groups: set<string>, rule: int, gone: string) {
    && LastEnabled(groups, OverridesOf(left, rule)) == LastEnabled(groups - {gone}, OverridesOf(all, rule))
    && LastThreshold(groups, OverridesOf(left, rule)) == LastThreshold(groups - {gone}, OverridesOf(all, rule))
  }

  lemma SaysTheSameStill(left: seq<Override>, all: seq<Override>, o: Override, groups: set<string>, rule: int,
                         gone: string)
    requires SaysTheSame(left, all, groups, rule, gone)
    ensures SaysTheSame(if o.group == gone then left else left + [o], all + [o], groups, rule, gone)
  {
    OverridesOfAppend(left, o, rule, groups);
    OverridesOfAppend(all, o, rule, groups - {gone});
    hide LastEnabled, LastThreshold, OverridesOf;
  }

  /** A deleted group never contributes: its rows are gone and no list names it. */
  lemma {:induction false} DeletedGroupNeverContributes(overrides: seq<Override>, groups: set<string>, rule: int,
                                                        gone: string)
    ensures SaysTheSame(Where(overrides, NotOf(gone)), overrides, groups, rule, gone)
  {
    if overrides == [] {
      NoRows(groups, rule);
      NoRows(groups - {gone}, rule);
    } else {
      hide *;
      var front, last := overrides[..|overrides| - 1], overrides[|overrides| - 1];
      assert overrides == front + [last];
      DeletedGroupNeverContributes(front, groups, rule, gone);
      SurvivingAppend(front, last, gone);
      SaysTheSameStill(Where(front, NotOf(gone)), front, last, groups, rule, gone);
    }
  }

  lemma SurvivingAppend(front: seq<Override>, o: Override, gone: string)
    ensures Where([], NotOf(gone)) == []
    ensures Where(front + [o], NotOf(gone))
         == if o.group == gone then Where(front, NotOf(gone)) else Where(front, NotOf(gone)) + [o]
  {
    assert (front + [o])[..|front|] == front;
  }

  lemma NoRows(groups: set<string>, rule: int)
    ensures LastEnabled(groups, OverridesOf([], rule)).None? && LastThreshold(groups, OverridesOf([], rule)).None?
  {}

  lemma OverridesOfAppend(front: seq<Override>, o: Override, rule: int, groups: set<string>)
    ensures var rows := OverridesOf(front, rule);
            && LastEnabled(groups, OverridesOf(front + [o], rule))
                 == (if o.rule == rule && o.group in groups && o.enabled.Some? then o.enabled
                     else LastEnabled(groups, rows))
            && LastThreshold(groups, OverridesOf(front + [o], rule))
                 == (if o.rule == rule && o.group in groups && o.threshold.Some? then o.threshold
                     else LastThreshold(groups, rows))
  {}

  /** Saving another value into row `k`, as the upsert does. */
  function Save(overrides: seq<Override>, k: nat, value: bool): (r: seq<Override>)
    requires k < |overrides|
    ensures |r| == |overrides| && r[k].id == overrides[k].id
  {
    overrides[k := overrides[k].(enabled := Some(value))]
  }

  /**
   "The override saved last wins" is not what the engine does: saving one decides
   for a node in the group exactly when no other of the node's groups has a row
   with a higher id that sets the field.
   */
  lemma SavedOverrideWinsIff(overrides: seq<Override>, groups: set<string>, k: nat)
    requires RisingOverrideIds(overrides) && k < |overrides| && overrides[k].group in groups
    ensures (forall v :: LastEnabled(groups, Save(overrides, k, v)) == Some(v)) <==>
              !exists j | k < j < |overrides| :: overrides[j].group in groups && overrides[j].enabled.Some?
  {
    if j :| k < j < |overrides| && overrides[j].group in groups && overrides[j].enabled.Some? {
      HigherRowDecides(overrides, groups, k, j, true);
      HigherRowDecides(overrides, groups, k, j, false);
    } else {
      forall v
        ensures LastEnabled(groups, Save(overrides, k, v)) == Some(v)
      {
        RowDecides(Save(overrides, k, v), groups, k);
      }
    }
  }

  lemma {:induction false} RowDecides(overrides: seq<Override>, groups: set<string>, k: nat)
    requires k < |overrides| && overrides[k].group in groups && overrides[k].enabled.Some?
    requires forall j | k < j < |overrides| :: overrides[j].group in groups ==> overrides[j].enabled.None?
    ensures LastEnabled(groups, overrides) == overrides[k].enabled
  {
    if k < |overrides| - 1 {
      RowDecides(overrides[..|overrides| - 1], groups, k);
    }
  }

  /** Below a higher row that sets the field, the saved value makes no difference. */
  lemma {:induction false} HigherRowDecides(overrides: seq<Override>, groups: set<string>, k: nat, j: nat, value: bool)
    requires k < j < |overrides| && overrides[j].group in groups && overrides[j].enabled.Some?
    ensures LastEnabled(groups, Save(overrides, k, value)) == LastEnabled(groups, overrides)
  {
    var last := |overrides| - 1;
    if j < last {
      HigherRowDecides(overrides[..last], groups, k, j, value);
      assert Save(overrides, k, value)[..last] == Save(overrides[..last], k, value);
    }
  }

  function SaveThreshold(overrides: seq<Override>, k: nat, value: real): (r: seq<Override>)
    requires k < |overrides|
    ensures |r| == |overrides| && r[k].id == overrides[k].id
  {
    overrides[k := overrides[k].(threshold := Some(value))]
  }

  /** The same for the threshold. */
  lemma SavedThresholdWinsIff(overrides: seq<Override>, groups: set<string>, k: nat)
    requires RisingOverrideIds(overrides) && k < |overrides| && overrides[k].group in groups
    ensures (forall v :: LastThreshold(groups, SaveThreshold(overrides, k, v)) == Some(v)) <==>
              !exists j | k < j < |overrides| :: overrides[j].group in groups && overrides[j].threshold.Some?
  {
    if j :| k < j < |overrides| && overrides[j].group in groups && overrides[j].threshold.Some? {
      HigherThresholdDecides(overrides, groups, k, j, 0.0);
      HigherThresholdDecides(overrides, groups, k, j, 1.0);
    } else {
      forall v
        ensures LastThreshold(groups, SaveThreshold(overrides, k, v)) == Some(v)
      {
        ThresholdDecides(SaveThreshold(overrides, k, v), groups, k);
      }
    }
  }

  lemma {:induction false} ThresholdDecides(overrides: seq<Override>, groups: set<string>, k: nat)
    requires k < |overrides| && overrides[k].group in groups && overrides[k].threshold.Some?
    requires forall j | k < j < |overrides| :: overrides[j].group in groups ==> overrides[j].threshold.None?
    ensures LastThreshold(groups, overrides) == overrides[k].threshold
  {
    if k < |overrides| - 1 {
      ThresholdDecides(overrides[..|overrides| - 1], groups, k);
    }
  }

  lemma {:induction false} HigherThresholdDecides(overrides: seq<Override>, groups: set<string>, k: nat, j: nat,
                                                  value: real)
    requires k < j < |overrides| && overrides[j].group in groups && overrides[j].threshold.Some?
    ensures LastThreshold(groups, SaveThreshold(overrides, k, value)) == LastThreshold(groups, overrides)
  {
    var last := |overrides| - 1;
    if j < last {
      HigherThresholdDecides(overrides[..last], groups, k, j, value);
      assert SaveThreshold(overrides, k, value)[..last] == SaveThreshold(overrides[..last], k, value);
    }
  }

  /** Two groups that disagree: turning the older row off changes nothing for a node in both. */
  lemma LastSavedDoesNotWin()
    ensures var a, b := Override(1, "a", 7, Some(true), None), Override(2, "b", 7, Some(true), None);
            var saved := Upsert([a, b], "a", 7, Some(false), None, 3);
            && saved == [a.(enabled := Some(false)), b]
            && LastEnabled({"a", "b"}, OverridesOf(saved, 7)) == Some(true)
  {}
}
