// Group-instance state shared by both copies of the group engine: the initial seeding,
// the lookup along a context path and the recompute walk run on every change.
module GroupState {
  import opened Std
  import opened Text
  import opened Interpolation
  import opened GroupTree

  /** The state of one group position: its committed instance ids, the id of its shadow
      instance (the empty one that accepts new input) and, per instance id, the states
      of the groups nested inside that instance. */
  datatype GroupState = GroupState(ids: seq<string>, shadowId: Option<string>, nested: map<string, map<nat, GroupState>>)

  /** Group states keyed by the group's position among its parent's children. */
  type GroupStates = map<nat, GroupState>

  // ---------------------------------------------------------------------------
  // makeInitialGroupStates_
  // ---------------------------------------------------------------------------

  /** The seeded state of one group: no committed instance and a fresh shadow whose
      nested states are seeded from the group's children. */
  predicate SeededAt(s: GroupState, from: nat, to: nat) {
    && s.ids == []
    && s.shadowId.Some?
    && (exists j :: from <= j < to && s.shadowId == Some(Uid(j)))
    && s.nested.Keys == {s.shadowId.value}
  }

  /** `makeInitialGroupStates_(parent.children)` from position `k` on; ids are drawn from
      the counter `next` in the order the source calls `uid()`, and the counter after the
      last one is returned. */
  function SeedFrom(parent: Node, k: nat, next: nat): (r: (GroupStates, nat))
    ensures r.1 >= next
    ensures forall i: nat :: i in r.0 <==> k <= i < |parent.children| && parent.children[i].Group?
    ensures forall i :: i in r.0 ==> SeededAt(r.0[i], next, r.1)
    decreases parent, 0, |parent.children| - k
  {
    if k >= |parent.children| then (map[], next)
    else
      var node := parent.children[k];
      if node.Group? then
        var shadowId := Uid(next);
        var (inner, next1) := Seed(node, next + 1);
        var (rest, next2) := SeedFrom(parent, k + 1, next1);
        (rest[k := GroupState([], Some(shadowId), map[shadowId := inner])], next2)
      else SeedFrom(parent, k + 1, next)
  }

  function Seed(parent: Node, next: nat): (r: (GroupStates, nat))
    ensures r.1 >= next
    ensures forall i: nat :: i in r.0 <==> i < |parent.children| && parent.children[i].Group?
    ensures forall i :: i in r.0 ==> SeededAt(r.0[i], next, r.1)
    decreases parent, 1
  {
    SeedFrom(parent, 0, next)
  }

  /** Seeding is recursive: the shadow's nested states are the seeding of the group's
      own children, with ids drawn after the shadow's. */
  lemma {:induction false} SeedNested(parent: Node, k: nat, next: nat, i: nat)
    requires k <= i < |parent.children| && parent.children[i].Group?
    ensures var s := SeedFrom(parent, k, next).0[i];
      exists j :: next <= j && s.shadowId == Some(Uid(j)) && s.nested[Uid(j)] == Seed(parent.children[i], j + 1).0
    decreases |parent.children| - k
  {
    var node := parent.children[k];
    if k == i {
      SeedFromGroupStep(parent, k, next);
    } else if node.Group? {
      var next1 := Seed(node, next + 1).1;
      SeedNested(parent, k + 1, next1, i);
      SeedFromGroupStep(parent, k, next);
    } else {
      SeedNested(parent, k + 1, next, i);
    }
  }

  /** Seeding reads only the parent's children, never its kind or tag. */
  lemma {:induction false} SeedFromChildren(p: Node, q: Node, k: nat, next: nat)
    requires p.children == q.children
    ensures SeedFrom(p, k, next) == SeedFrom(q, k, next)
    decreases |p.children| - k
  {
    if k < |p.children| {
      var node := p.children[k];
      if node.Group? {
        SeedFromChildren(p, q, k + 1, Seed(node, next + 1).1);
      } else {
        SeedFromChildren(p, q, k + 1, next);
      }
    }
  }

  /** The seeding of a node placed after the positions seeded so far (`r`): a group
      gets the next id and its own children's states, anything else adds nothing. */
  function SeedAfter(r: (GroupStates, nat), pos: nat, m: Node): (GroupStates, nat) {
    if m.Group? then
      var seeded := Seed(m, r.1 + 1);
      (r.0[pos := GroupState([], Some(Uid(r.1)), map[Uid(r.1) := seeded.0])], seeded.1)
    else r
  }

  /** One step of `SeedFrom` at a group position. */
  lemma SeedFromGroupStep(parent: Node, k: nat, next: nat)
    requires k < |parent.children| && parent.children[k].Group?
    ensures var node := parent.children[k];
      var rest := SeedFrom(parent, k + 1, Seed(node, next + 1).1);
      SeedFrom(parent, k, next)
        == (rest.0[k := GroupState([], Some(Uid(next)), map[Uid(next) := Seed(node, next + 1).0])], rest.1)
  {
  }

  /** A write at another position commutes with seeding the last node. */
  lemma SeedAfterUpdate(r: (GroupStates, nat), k: nat, st: GroupState, pos: nat, m: Node)
    requires k != pos
    ensures SeedAfter((r.0[k := st], r.1), pos, m) == (SeedAfter(r, pos, m).0[k := st], SeedAfter(r, pos, m).1)
  {
    if m.Group? {
      var seeded := Seed(m, r.1 + 1);
      var last := GroupState([], Some(Uid(r.1)), map[Uid(r.1) := seeded.0]);
      assert r.0[k := st][pos := last] == r.0[pos := last][k := st];
    }
  }

  /** Seeding children with one more at the end is seeding the others, then the last
      one from the counter they left. */
  lemma {:induction false} SeedFromSnoc(ns: seq<Node>, m: Node, k: nat, next: nat)
    requires k <= |ns|
    ensures SeedFrom(Root(ns + [m]), k, next) == SeedAfter(SeedFrom(Root(ns), k, next), |ns|, m)
    decreases |ns| - k
  {
    var p := Root(ns + [m]);
    if k == |ns| {
      assert p.children[k] == m;
      SeedFromLast(ns, m, next);
    } else {
      var node := ns[k];
      assert p.children[k] == node;
      if node.Group? {
        var next1 := Seed(node, next + 1).1;
        var st := GroupState([], Some(Uid(next)), map[Uid(next) := Seed(node, next + 1).0]);
        SeedFromSnoc(ns, m, k + 1, next1);
        SeedFromGroupStep(p, k, next);
        SeedFromGroupStep(Root(ns), k, next);
        SeedAfterUpdate(SeedFrom(Root(ns), k + 1, next1), k, st, |ns|, m);
      } else {
        SeedFromSnoc(ns, m, k + 1, next);
      }
    }
  }

  lemma SeedFromLast(ns: seq<Node>, m: Node, next: nat)
    ensures SeedFrom(Root(ns + [m]), |ns|, next) == SeedAfter((map[], next), |ns|, m)
  {
    var p := Root(ns + [m]);
    assert p.children[|ns|] == m;
    if m.Group? {
      SeedFromGroupStep(p, |ns|, next);
      SeedFromLastGroup(m, next, Seed(m, next + 1).1, |ns|);
      assert SeedFrom(p, |ns| + 1, Seed(m, next + 1).1) == (map[], Seed(m, next + 1).1);
    } else {
      assert SeedFrom(p, |ns| + 1, next) == (map[], next);
    }
  }

  lemma SeedFromLastGroup(m: Node, next: nat, next1: nat, pos: nat)
    requires m.Group? && next1 == Seed(m, next + 1).1
    ensures SeedAfter((map[], next), pos, m)
      == (map[][pos := GroupState([], Some(Uid(next)), map[Uid(next) := Seed(m, next + 1).0])], next1)
  {
  }

  // ---------------------------------------------------------------------------
  // getGroupState_
  // ---------------------------------------------------------------------------

  /** One entry of a render or recompute context: the enclosing group's tag and position,
      the instance being visited and whether it is the shadow. */
  datatype GroupContext = GroupContext(tag: Tag, idx: nat, instanceId: string, isShadow: bool)

  function InstanceIds(groups: seq<GroupContext>): (r: seq<string>)
    ensures |r| == |groups| && forall k :: 0 <= k < |groups| ==> r[k] == groups[k].instanceId
  {
    if groups == [] then [] else InstanceIds(groups[..|groups| - 1]) + [groups[|groups| - 1].instanceId]
  }

  /** The states `getGroupState_`'s loop has reached after following `groups` from the
      outermost: None when a nested map is absent (`undefined`), and the `TypeError` when
      the loop reads through an absent state or an absent map. */
  function Level(states: GroupStates, groups: seq<GroupContext>): Result<Option<GroupStates>>
    decreases |groups|
  {
    if groups == [] then Ok(Some(states))
    else match Level(states, groups[..|groups| - 1])
      case Crash(reason) => Crash(reason)
      case Ok(cur) =>
        var g := groups[|groups| - 1];
        if cur.None? then Crash("Cannot read properties of undefined (reading '" + NatToString(g.idx) + "')")
        else if g.idx !in cur.value then Crash("Cannot read properties of undefined (reading 'nested')")
        else
          var s := cur.value[g.idx];
          Ok(if g.instanceId in s.nested then Some(s.nested[g.instanceId]) else None)
  }

  /** `getGroupState_(groupIdx, ctx)`: the state at `groupIdx` in the reached level, or
      `null` when the level or the key is absent. */
  function GetGroupState(groupIdx: nat, states: GroupStates, groups: seq<GroupContext>): Result<Option<GroupState>> {
    match Level(states, groups)
    case Crash(reason) => Crash(reason)
    case Ok(cur) => Ok(if cur.Some? && groupIdx in cur.value then Some(cur.value[groupIdx]) else None)
  }

  /** The source's loop over `ctx.groups`. */
  method LookupGroupState(groupIdx: nat, states: GroupStates, groups: seq<GroupContext>) returns (r: Result<Option<GroupState>>)
    ensures r == GetGroupState(groupIdx, states, groups)
  {
    var groupStates: Option<GroupStates> := Some(states);
    var i := 0;
    while i < |groups|
      invariant 0 <= i <= |groups|
      invariant Level(states, groups[..i]) == Ok(groupStates)
    {
      assert groups[..i + 1][..i] == groups[..i];
      var g := groups[i];
      if groupStates.None? {
        LevelCrash(states, groups, i + 1);
        return Crash("Cannot read properties of undefined (reading '" + NatToString(g.idx) + "')");
      }
      if g.idx !in groupStates.value {
        LevelCrash(states, groups, i + 1);
        return Crash("Cannot read properties of undefined (reading 'nested')");
      }
      var s := groupStates.value[g.idx];
      groupStates := if g.instanceId in s.nested then Some(s.nested[g.instanceId]) else None;
      i := i + 1;
    }
    assert groups[..i] == groups;
    r := Ok(if groupStates.Some? && groupIdx in groupStates.value then Some(groupStates.value[groupIdx]) else None);
  }

  /** Once the walk along a prefix fails, the whole lookup fails the same way. */
  lemma {:induction false} LevelCrash(states: GroupStates, groups: seq<GroupContext>, i: nat)
    requires i <= |groups| && Level(states, groups[..i]).Crash?
    ensures Level(states, groups) == Level(states, groups[..i])
    decreases |groups|
  {
    if i < |groups| {
      assert groups[..|groups| - 1][..i] == groups[..i];
      LevelCrash(states, groups[..|groups| - 1], i);
    } else {
      assert groups[..i] == groups;
    }
  }

  /** Descending into an instance of a group whose state was found never crashes: the
      next level is that state's nested map for the instance, or absent. */
  lemma Descend(states: GroupStates, groups: seq<GroupContext>, g: GroupContext)
    requires GetGroupState(g.idx, states, groups).Ok? && GetGroupState(g.idx, states, groups).value.Some?
    ensures var s := GetGroupState(g.idx, states, groups).value.value;
      Level(states, groups + [g]) == Ok(if g.instanceId in s.nested then Some(s.nested[g.instanceId]) else None)
  {
    assert (groups + [g])[..|groups|] == groups;
  }

  /** Looking up below an absent level fails, and an empty path reads the root states. */
  lemma LookupBelowAbsent(states: GroupStates, groups: seq<GroupContext>, g: GroupContext, groupIdx: nat)
    requires Level(states, groups) == Ok(None)
    ensures GetGroupState(groupIdx, states, groups) == Ok(None)
    ensures GetGroupState(groupIdx, states, groups + [g]).Crash?
  {
    assert (groups + [g])[..|groups|] == groups;
  }

  // ---------------------------------------------------------------------------
  // Scoped names and emptiness
  // ---------------------------------------------------------------------------

  /** `getGroupedName(name, instanceIds)`: the instance ids, outermost first, then the
      name, joined by `_`; a missing name stays missing. */
  function GroupedName(name: Option<string>, instanceIds: seq<string>): Option<string> {
    if name.None? then None else Some(Join(instanceIds + [name.value], "_"))
  }

  /** A scoped name is the plain name at the top level, and otherwise the joined
      instance ids, an underscore and the name. */
  lemma GroupedNameShape(name: Option<string>, instanceIds: seq<string>)
    ensures GroupedName(name, instanceIds).None? <==> name.None?
    ensures instanceIds == [] ==> GroupedName(name, instanceIds) == name
    ensures name.Some? && instanceIds != [] ==>
      GroupedName(name, instanceIds) == Some(Join(instanceIds, "_") + "_" + name.value)
  {
    if name.Some? && instanceIds != [] {
      JoinSnoc(instanceIds, name.value, "_");
    }
  }

  lemma {:induction false} JoinSnoc(parts: seq<string>, last: string, sep: string)
    requires parts != []
    ensures Join(parts + [last], sep) == Join(parts, sep) + sep + last
    decreases |parts|
  {
    if |parts| > 1 {
      assert (parts + [last])[1..] == parts[1..] + [last];
      JoinSnoc(parts[1..], last, sep);
    } else {
      assert (parts + [last])[1..] == [last];
    }
  }

  /** The host's `isInputEmpty_` and `isFieldEmpty_`, applied to scoped names. */
  datatype Probe = Probe(inputEmpty: Option<string> -> bool, fieldEmpty: Option<string> -> bool)

  function Inner(node: Node, groups: seq<GroupContext>, id: string, isShadow: bool): seq<GroupContext>
    requires node.Group?
  {
    groups + [GroupContext(node.tag, node.idx, id, isShadow)]
  }

  /** Declarative emptiness: a field or input by the probes, an input only when all its
      children are empty too, the root never, a group with no state never, and a group
      with state when all its instances (committed ones and the shadow) are empty. */
  predicate Empty(node: Node, groups: seq<GroupContext>, before: GroupStates, probe: Probe)
    requires Level(before, groups).Ok?
    decreases node, 1
  {
    match node
    case Root(_) => false
    case Field(options, _) => probe.fieldEmpty(GroupedName(options.name, InstanceIds(groups)))
    case Input(options, children) =>
      && probe.inputEmpty(GroupedName(options.name, InstanceIds(groups)))
      && forall k :: 0 <= k < |children| ==> Empty(children[k], groups, before, probe)
    case Group(idx, tag, children) =>
      var found := GetGroupState(idx, before, groups).value;
      if found.None? then false
      else
        var s := found.value;
        && (forall i :: 0 <= i < |s.ids| ==> InstanceEmpty(node, groups, s.ids[i], false, before, probe))
        && (s.shadowId.Some? ==> InstanceEmpty(node, groups, s.shadowId.value, true, before, probe))
  }

  predicate InstanceEmpty(node: Node, groups: seq<GroupContext>, id: string, isShadow: bool, before: GroupStates, probe: Probe)
    requires node.Group? && GetGroupState(node.idx, before, groups).Ok? && GetGroupState(node.idx, before, groups).value.Some?
    decreases node, 0
  {
    Descend(before, groups, GroupContext(node.tag, node.idx, id, isShadow));
    forall k :: 0 <= k < |node.children| ==> Empty(node.children[k], Inner(node, groups, id, isShadow), before, probe)
  }

  // ---------------------------------------------------------------------------
  // onChange_'s walk
  // ---------------------------------------------------------------------------

  /** A walk result: the states the node contributes to its parent, whether it is empty,
      and the id counter afterwards. */
  datatype Walked = Walked(states: GroupStates, empty: bool, next: nat)

  /** `walk(node, {idx, groups})` over the states as they were before the change. */
  function Walk(node: Node, idx: nat, groups: seq<GroupContext>, before: GroupStates, probe: Probe, next: nat): (r: Walked)
    requires Level(before, groups).Ok?
    ensures r.next >= next
    ensures r.empty == Empty(node, groups, before, probe)
    decreases node, 3
  {
    match node
    case Root(_) => MergeFrom(node, 0, groups, before, probe, map[], next)
    case Input(options, _) =>
      var isOwnEmpty := probe.inputEmpty(GroupedName(options.name, InstanceIds(groups)));
      var children := EveryEmptyFrom(node, 0, groups, before, probe, next);
      Walked(map[], isOwnEmpty && children.empty, children.next)
    case Field(options, _) =>
      Walked(map[], probe.fieldEmpty(GroupedName(options.name, InstanceIds(groups))), next)
    case Group(_, _, _) =>
      var found := GetGroupState(node.idx, before, groups).value;
      if found.None? then Walked(map[], false, next)
      else
        var s := found.value;
        var r := Recompute(node, groups, s, before, probe, next);
        Walked(map[idx := GroupState(r.ids, r.shadowId, r.nested)], r.allEmpty, r.next)
  }

  /** The root: its children's entries merged (`Object.assign`), never empty. */
  function MergeFrom(parent: Node, k: nat, groups: seq<GroupContext>, before: GroupStates, probe: Probe,
                     acc: GroupStates, next: nat): (r: Walked)
    requires Level(before, groups).Ok?
    ensures r.next >= next && !r.empty
    decreases parent, 2, |parent.children| - k
  {
    if k >= |parent.children| then Walked(acc, false, next)
    else
      var w := Walk(parent.children[k], k, groups, before, probe, next);
      MergeFrom(parent, k + 1, groups, before, probe, acc + w.states, w.next)
  }

  /** An input's `children.every(...)`: stops at the first non-empty child. */
  function EveryEmptyFrom(parent: Node, k: nat, groups: seq<GroupContext>, before: GroupStates, probe: Probe, next: nat): (r: Walked)
    requires Level(before, groups).Ok?
    ensures r.next >= next
    ensures r.empty <==> forall j :: k <= j < |parent.children| ==> Empty(parent.children[j], groups, before, probe)
    decreases parent, 2, |parent.children| - k
  {
    if k >= |parent.children| then Walked(map[], true, next)
    else
      var w := Walk(parent.children[k], k, groups, before, probe, next);
      if !w.empty then Walked(map[], false, w.next)
      else EveryEmptyFrom(parent, k + 1, groups, before, probe, w.next)
  }

  /** The group state being rebuilt (`newGroupState`), `allEmpty` and the id counter. */
  datatype Recomputed = Recomputed(ids: seq<string>, shadowId: Option<string>, nested: map<string, GroupStates>,
                                   allEmpty: bool, next: nat)

  /** `newGroupState` and `allEmpty` for a group whose state `s` was found: the ids
      loop, then the shadow step. */
  function Recompute(node: Node, groups: seq<GroupContext>, s: GroupState, before: GroupStates, probe: Probe,
                     next: nat): (r: Recomputed)
    requires node.Group? && GetGroupState(node.idx, before, groups) == Ok(Some(s))
    ensures r.next >= next
    ensures r.allEmpty <==>
      && (forall i :: 0 <= i < |s.ids| ==> InstanceEmpty(node, groups, s.ids[i], false, before, probe))
      && (s.shadowId.Some? ==> InstanceEmpty(node, groups, s.shadowId.value, true, before, probe))
    decreases node, 2
  {
    var ids := CheckIds(node, groups, s, 0, before, probe, Recomputed([], s.shadowId, map[], true, next));
    Promote(node, groups, s, before, probe, ids)
  }

  /** The loop over the committed ids: each instance is checked, and kept when non-empty. */
  function CheckIds(node: Node, groups: seq<GroupContext>, s: GroupState, j: nat, before: GroupStates, probe: Probe,
                    acc: Recomputed): (r: Recomputed)
    requires node.Group? && GetGroupState(node.idx, before, groups) == Ok(Some(s)) && j <= |s.ids|
    ensures r.next >= acc.next && r.shadowId == acc.shadowId
    ensures r.allEmpty <==> acc.allEmpty && forall i :: j <= i < |s.ids| ==> InstanceEmpty(node, groups, s.ids[i], false, before, probe)
    decreases node, 1, |s.ids| - j
  {
    if j >= |s.ids| then acc
    else
      var id := s.ids[j];
      var c := CheckInstance(node, groups, id, false, 0, before, probe, acc.nested, true, acc.next);
      var acc' := acc.(ids := if c.empty then acc.ids else acc.ids + [id], nested := c.nested,
                       allEmpty := acc.allEmpty && c.empty, next := c.next);
      CheckIds(node, groups, s, j + 1, before, probe, acc')
  }

  /** The shadow: checked like the others and, when non-empty, promoted to the end of
      `ids` and replaced by a fresh shadow whose nested states are seeded. */
  function Promote(node: Node, groups: seq<GroupContext>, s: GroupState, before: GroupStates, probe: Probe,
                   acc: Recomputed): (r: Recomputed)
    requires node.Group? && GetGroupState(node.idx, before, groups) == Ok(Some(s))
    ensures r.next >= acc.next
    ensures r.allEmpty <==> acc.allEmpty && (s.shadowId.Some? ==> InstanceEmpty(node, groups, s.shadowId.value, true, before, probe))
    decreases node, 1, 0
  {
    if s.shadowId.None? then acc
    else
      var c := CheckInstance(node, groups, s.shadowId.value, true, 0, before, probe, acc.nested, true, acc.next);
      Promoted(node, s.shadowId.value, c, acc)
  }

  /** The shadow step once its instance has been checked. */
  function Promoted(node: Node, shadowId: string, c: Checked, acc: Recomputed): (r: Recomputed)
    ensures r.next >= c.next
    ensures r.allEmpty <==> acc.allEmpty && c.empty
  {
    if c.empty then acc.(nested := c.nested, next := c.next)
    else
      var newShadowId := Uid(c.next);
      var seeded := Seed(node, c.next + 1);
      Recomputed(acc.ids + [shadowId], Some(newShadowId), c.nested[newShadowId := seeded.0], false, seeded.1)
  }

  /** The result of `checkEmpty(instanceId)`: the rebuilt `nested` map and emptiness. */
  datatype Checked = Checked(nested: map<string, GroupStates>, empty: bool, next: nat)

  /** `checkEmpty(instanceId, isShadow)` from child `k` on: every child is walked inside
      the instance, its entries merged into `nested[instanceId]`. */
  function CheckInstance(node: Node, groups: seq<GroupContext>, id: string, isShadow: bool, k: nat, before: GroupStates,
                         probe: Probe, nested: map<string, GroupStates>, empty: bool, next: nat): (r: Checked)
    requires node.Group? && GetGroupState(node.idx, before, groups).Ok? && GetGroupState(node.idx, before, groups).value.Some?
    ensures r.next >= next
    ensures r.empty <==> empty && forall j :: k <= j < |node.children| ==>
      Empty(node.children[j], Inner(node, groups, id, isShadow), before, probe)
    ensures forall key :: key in nested ==> key in r.nested
    ensures k < |node.children| ==> id in r.nested
    decreases node, 0, |node.children| - k
  {
    if k >= |node.children| then Checked(nested, empty, next)
    else
      var inner := Inner(node, groups, id, isShadow);
      Descend(before, groups, GroupContext(node.tag, node.idx, id, isShadow));
      var w := Walk(node.children[k], k, inner, before, probe, next);
      var prior := if id in nested then nested[id] else map[];
      CheckInstance(node, groups, id, isShadow, k + 1, before, probe, nested[id := prior + w.states], empty && w.empty, w.next)
  }

  /** The ids for which `gone` is false, in their original order. */
  function Kept(ids: seq<string>, gone: string -> bool): (r: seq<string>)
    ensures forall id :: id in r ==> id in ids
  {
    if ids == [] then []
    else (if gone(ids[0]) then [] else [ids[0]]) + Kept(ids[1..], gone)
  }

  /** Whether an instance of the group is empty, as a predicate on its id. */
  function EmptyInstance(node: Node, groups: seq<GroupContext>, before: GroupStates, probe: Probe): string -> bool
    requires node.Group? && GetGroupState(node.idx, before, groups).Ok? && GetGroupState(node.idx, before, groups).value.Some?
  {
    id => InstanceEmpty(node, groups, id, false, before, probe)
  }

  /** The rebuilt ids are the committed ids whose instances are non-empty, in order. */
  lemma {:induction false} CheckIdsSurvivors(node: Node, groups: seq<GroupContext>, s: GroupState, j: nat, before: GroupStates,
                                             probe: Probe, acc: Recomputed)
    requires node.Group? && GetGroupState(node.idx, before, groups) == Ok(Some(s)) && j <= |s.ids|
    ensures CheckIds(node, groups, s, j, before, probe, acc).ids == acc.ids + Kept(s.ids[j..], EmptyInstance(node, groups, before, probe))
    decreases |s.ids| - j
  {
    if j < |s.ids| {
      var id := s.ids[j];
      var c := CheckInstance(node, groups, id, false, 0, before, probe, acc.nested, true, acc.next);
      var kept := if c.empty then [] else [id];
      var acc' := acc.(ids := acc.ids + kept, nested := c.nested, allEmpty := acc.allEmpty && c.empty, next := c.next);
      assert CheckIds(node, groups, s, j, before, probe, acc) == CheckIds(node, groups, s, j + 1, before, probe, acc') by {
        assert (if c.empty then acc.ids else acc.ids + [id]) == acc.ids + kept;
      }
      var rest := Kept(s.ids[j + 1..], EmptyInstance(node, groups, before, probe));
      assert Kept(s.ids[j..], EmptyInstance(node, groups, before, probe)) == kept + rest by {
        assert c.empty == InstanceEmpty(node, groups, id, false, before, probe);
        assert s.ids[j..][0] == id && s.ids[j..][1..] == s.ids[j + 1..];
      }
      CheckIdsSurvivors(node, groups, s, j + 1, before, probe, acc');
      Associate(acc.ids, kept, rest);
    }
  }

  lemma Associate<T>(a: seq<T>, b: seq<T>, c: seq<T>)
    ensures (a + b) + c == a + (b + c)
  {
  }

  /** Every checked id gets a `nested` entry when the group has children, and no entry
      is lost. */
  lemma {:induction false} CheckIdsNested(node: Node, groups: seq<GroupContext>, s: GroupState, j: nat, before: GroupStates,
                                          probe: Probe, acc: Recomputed)
    requires node.Group? && GetGroupState(node.idx, before, groups) == Ok(Some(s)) && j <= |s.ids|
    ensures var r := CheckIds(node, groups, s, j, before, probe, acc);
      && (forall id :: id in acc.nested ==> id in r.nested)
      && (|node.children| > 0 ==> forall i :: j <= i < |s.ids| ==> s.ids[i] in r.nested)
    decreases |s.ids| - j
  {
    if j < |s.ids| {
      var id := s.ids[j];
      var c := CheckInstance(node, groups, id, false, 0, before, probe, acc.nested, true, acc.next);
      var acc' := acc.(ids := if c.empty then acc.ids else acc.ids + [id], nested := c.nested,
                       allEmpty := acc.allEmpty && c.empty, next := c.next);
      CheckIdsNested(node, groups, s, j + 1, before, probe, acc');
    }
  }

  /** Nothing is kept exactly when every id is gone. */
  lemma {:induction false} KeptNone(ids: seq<string>, gone: string -> bool)
    ensures Kept(ids, gone) == [] <==> forall i :: 0 <= i < |ids| ==> gone(ids[i])
    decreases |ids|
  {
    if ids != [] {
      KeptNone(ids[1..], gone);
      assert forall i :: 1 <= i < |ids| ==> ids[1..][i - 1] == ids[i];
    }
  }

  /** The shadow step: no shadow or an empty shadow leaves the ids alone (an empty shadow
      keeps its id); a non-empty shadow is committed at the end of the ids and replaced
      by a fresh id, not drawn before, whose nested states are freshly seeded. */
  lemma PromoteShape(node: Node, groups: seq<GroupContext>, s: GroupState, before: GroupStates, probe: Probe,
                     acc: Recomputed)
    requires node.Group? && GetGroupState(node.idx, before, groups) == Ok(Some(s))
    ensures var r := Promote(node, groups, s, before, probe, acc);
      && (s.shadowId.None? ==> r == acc)
      && (forall id :: id in acc.nested ==> id in r.nested)
      && (s.shadowId.Some? && InstanceEmpty(node, groups, s.shadowId.value, true, before, probe) ==>
            r.ids == acc.ids && r.shadowId == acc.shadowId && r.allEmpty == acc.allEmpty)
      && (s.shadowId.Some? && !InstanceEmpty(node, groups, s.shadowId.value, true, before, probe) ==>
            && r.ids == acc.ids + [s.shadowId.value] && !r.allEmpty
            && exists j :: acc.next <= j && r.shadowId == Some(Uid(j)) && Uid(j) in r.nested
                 && r.nested[Uid(j)] == Seed(node, j + 1).0)
  {
    if s.shadowId.Some? {
      var c := CheckInstance(node, groups, s.shadowId.value, true, 0, before, probe, acc.nested, true, acc.next);
      assert c.empty == InstanceEmpty(node, groups, s.shadowId.value, true, before, probe);
      assert forall id :: id in acc.nested ==> id in c.nested;
      PromotedShape(node, s.shadowId.value, c, acc);
      if !c.empty {
        var r := Promote(node, groups, s, before, probe, acc);
        assert Uid(c.next) in r.nested && r.nested[Uid(c.next)] == Seed(node, c.next + 1).0;
      }
    }
  }

  lemma PromotedShape(node: Node, shadowId: string, c: Checked, acc: Recomputed)
    ensures var r := Promoted(node, shadowId, c, acc);
      && (forall id :: id in c.nested ==> id in r.nested)
      && (c.empty ==> r.ids == acc.ids && r.shadowId == acc.shadowId && r.allEmpty == acc.allEmpty)
      && (!c.empty ==>
            && r.ids == acc.ids + [shadowId]
            && r.shadowId == Some(Uid(c.next))
            && r.nested == c.nested[Uid(c.next) := Seed(node, c.next + 1).0])
  {
  }

  /** The recomputed state of a group: the non-empty committed instances in order, then
      the shadow when it gained content (a fresh seeded shadow takes its place); an empty
      shadow keeps its id. */
  lemma RecomputeIds(node: Node, groups: seq<GroupContext>, s: GroupState, before: GroupStates, probe: Probe,
                     next: nat)
    requires node.Group? && GetGroupState(node.idx, before, groups) == Ok(Some(s))
    ensures var r := Recompute(node, groups, s, before, probe, next);
      var kept := Kept(s.ids, EmptyInstance(node, groups, before, probe));
      && (s.shadowId.None? || InstanceEmpty(node, groups, s.shadowId.value, true, before, probe) ==>
            r.ids == kept && r.shadowId == s.shadowId)
      && (s.shadowId.Some? && !InstanceEmpty(node, groups, s.shadowId.value, true, before, probe) ==>
            && r.ids == kept + [s.shadowId.value]
            && exists j :: next <= j && r.shadowId == Some(Uid(j)) && Uid(j) in r.nested
                 && r.nested[Uid(j)] == Seed(node, j + 1).0)
  {
    var ids := CheckIds(node, groups, s, 0, before, probe, Recomputed([], s.shadowId, map[], true, next));
    CheckIdsKept(node, groups, s, before, probe, next);
    PromoteShape(node, groups, s, before, probe, ids);
  }

  /** The ids loop from the start keeps exactly the non-empty committed ids. */
  lemma CheckIdsKept(node: Node, groups: seq<GroupContext>, s: GroupState, before: GroupStates, probe: Probe,
                     next: nat)
    requires node.Group? && GetGroupState(node.idx, before, groups) == Ok(Some(s))
    ensures CheckIds(node, groups, s, 0, before, probe, Recomputed([], s.shadowId, map[], true, next)).ids
      == Kept(s.ids, EmptyInstance(node, groups, before, probe))
  {
    CheckIdsSurvivors(node, groups, s, 0, before, probe, Recomputed([], s.shadowId, map[], true, next));
    assert s.ids[0..] == s.ids;
  }

  /** A group is empty exactly when no instance remains after the recompute. */
  lemma RecomputeEmpty(node: Node, groups: seq<GroupContext>, s: GroupState, before: GroupStates, probe: Probe,
                       next: nat)
    requires node.Group? && GetGroupState(node.idx, before, groups) == Ok(Some(s))
    ensures var r := Recompute(node, groups, s, before, probe, next);
      r.allEmpty <==> r.ids == []
  {
    var ids := CheckIds(node, groups, s, 0, before, probe, Recomputed([], s.shadowId, map[], true, next));
    CheckIdsKept(node, groups, s, before, probe, next);
    KeptNone(s.ids, EmptyInstance(node, groups, before, probe));
    PromoteShape(node, groups, s, before, probe, ids);
  }

  /** Every committed id, and the old shadow id, keeps a nested map when the group has
      children. */
  lemma RecomputeNested(node: Node, groups: seq<GroupContext>, s: GroupState, before: GroupStates, probe: Probe,
                        next: nat)
    requires node.Group? && GetGroupState(node.idx, before, groups) == Ok(Some(s))
    ensures var r := Recompute(node, groups, s, before, probe, next);
      && (|node.children| > 0 ==> forall id :: id in s.ids ==> id in r.nested)
      && (|node.children| > 0 && s.shadowId.Some? ==> s.shadowId.value in r.nested)
  {
    var acc0 := Recomputed([], s.shadowId, map[], true, next);
    var ids := CheckIds(node, groups, s, 0, before, probe, acc0);
    CheckIdsNested(node, groups, s, 0, before, probe, acc0);
    PromoteShape(node, groups, s, before, probe, ids);
    assert forall id :: id in s.ids ==> exists i :: 0 <= i < |s.ids| && s.ids[i] == id;
    if s.shadowId.Some? {
      var c := CheckInstance(node, groups, s.shadowId.value, true, 0, before, probe, ids.nested, true, ids.next);
      PromotedShape(node, s.shadowId.value, c, ids);
    }
  }

  /** Every id is kept when none is gone. */
  lemma {:induction false} KeptAll(ids: seq<string>, gone: string -> bool)
    requires forall i :: 0 <= i < |ids| ==> !gone(ids[i])
    ensures Kept(ids, gone) == ids
    decreases |ids|
  {
    if ids != [] {
      assert forall i :: 0 <= i < |ids[1..]| ==> ids[1..][i] == ids[i + 1];
      KeptAll(ids[1..], gone);
      assert [ids[0]] + ids[1..] == ids;
    }
  }

  /** A recompute is a fixpoint on a state whose committed instances are all non-empty
      and whose shadow is empty or absent: the ids and the shadow id are kept as they
      are. */
  lemma RecomputeFixpoint(node: Node, groups: seq<GroupContext>, s: GroupState, before: GroupStates, probe: Probe,
                          next: nat)
    requires node.Group? && GetGroupState(node.idx, before, groups) == Ok(Some(s))
    requires forall i :: 0 <= i < |s.ids| ==> !InstanceEmpty(node, groups, s.ids[i], false, before, probe)
    requires s.shadowId.Some? ==> InstanceEmpty(node, groups, s.shadowId.value, true, before, probe)
    ensures var r := Recompute(node, groups, s, before, probe, next);
      r.ids == s.ids && r.shadowId == s.shadowId
  {
    RecomputeIds(node, groups, s, before, probe, next);
    KeptAll(s.ids, EmptyInstance(node, groups, before, probe));
  }

  /** `walk` on a group whose state is found contributes exactly one entry, at the group's
      position: the recomputed state; the group is empty exactly when it has no instance left. */
  lemma WalkGroup(node: Node, idx: nat, groups: seq<GroupContext>, before: GroupStates, probe: Probe, next: nat,
                  s: GroupState)
    requires node.Group? && Level(before, groups).Ok? && GetGroupState(node.idx, before, groups) == Ok(Some(s))
    ensures var r := Walk(node, idx, groups, before, probe, next);
      var g := Recompute(node, groups, s, before, probe, next);
      && r.states == map[idx := GroupState(g.ids, g.shadowId, g.nested)]
      && (r.empty <==> g.ids == [])
  {
    RecomputeEmpty(node, groups, s, before, probe, next);
  }

  /** The root's merge: the new states have an entry exactly at the positions of the
      groups whose state was found (keyed by position, which is the group's `idx` in a
      well-formed tree), plus what was merged before. */
  lemma {:induction false} MergeFromKeys(parent: Node, k: nat, groups: seq<GroupContext>, before: GroupStates,
                                         probe: Probe, acc: GroupStates, next: nat)
    requires Level(before, groups).Ok? && WellFormed(parent.children)
    ensures var r := MergeFrom(parent, k, groups, before, probe, acc, next);
      forall i: nat :: i in r.states <==> i in acc || (k <= i < |parent.children| && parent.children[i].Group?
                                                        && GetGroupState(i, before, groups).value.Some?)
    decreases |parent.children| - k
  {
    if k < |parent.children| {
      var child := parent.children[k];
      var w := Walk(child, k, groups, before, probe, next);
      WalkKeys(child, k, groups, before, probe, next);
      MergeFromKeys(parent, k + 1, groups, before, probe, acc + w.states, w.next);
    }
  }

  /** One child's walk keys at most its own position, and only a group whose state
      was found. */
  lemma WalkKeys(child: Node, k: nat, groups: seq<GroupContext>, before: GroupStates, probe: Probe, next: nat)
    requires Level(before, groups).Ok? && !child.Root? && (child.Group? ==> child.idx == k)
    ensures var w := Walk(child, k, groups, before, probe, next);
      forall i: nat :: i in w.states <==> i == k && child.Group? && GetGroupState(k, before, groups).value.Some?
  {
    var w := Walk(child, k, groups, before, probe, next);
    if child.Group? && GetGroupState(child.idx, before, groups).value.Some? {
      WalkGroup(child, k, groups, before, probe, next, GetGroupState(child.idx, before, groups).value.value);
      assert w.states.Keys == {k};
    } else {
      assert w.states == map[];
    }
  }

  /** `onChange_`'s walk from the root: the new root states hold an entry exactly for
      each root-level group that had one, and the root is never empty. */
  lemma WalkRoot(root: Node, before: GroupStates, probe: Probe, next: nat)
    requires root.Root? && WellFormed(root.children)
    ensures var r := Walk(root, 0, [], before, probe, next);
      && !r.empty
      && forall i: nat :: i in r.states <==> i < |root.children| && root.children[i].Group? && i in before
  {
    MergeFromKeys(root, 0, [], before, probe, map[], next);
  }
}
