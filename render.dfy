// What `render_` shows, shared by both copies of the group engine: the slots the
// tree renders (fields, inputs and the `...` placeholders) with their visibility.
module GroupRender {
  import opened Std
  import opened Interpolation
  import opened GroupTree
  import opened GroupState

  datatype SlotKind = FieldSlot | InputSlot | PlaceholderSlot

  /** One rendered `<field>`, `<input>` or placeholder `<dummy-input>`. */
  datatype Slot = Slot(kind: SlotKind, name: Option<string>, visible: bool)

  /** `ctx.groups.some(g => g.isShadow)`. */
  predicate InShadow(groups: seq<GroupContext>) {
    exists k :: 0 <= k < |groups| && groups[k].isShadow
  }

  /** `node.tag === '*' || groupState.ids.length === 0`: the group can take one more instance. */
  predicate Instantiatable(tag: Tag, s: GroupState) {
    tag == Repeated || |s.ids| == 0
  }

  /** The shadow instance is rendered after the committed ones. */
  predicate ShadowRendered(tag: Tag, s: GroupState) {
    s.shadowId.Some? && Instantiatable(tag, s)
  }

  /** A field or input: `!isShadow || isSelected`. */
  predicate SlotVisible(groups: seq<GroupContext>, isSelected: bool) {
    !InShadow(groups) || isSelected
  }

  /** The placeholder. The plugin copy hides it inside a shadow instance
      (`checksShadow`); the with-group copy does not look at the context. */
  predicate PlaceholderVisible(tag: Tag, s: GroupState, groups: seq<GroupContext>, isSelected: bool, checksShadow: bool) {
    (!checksShadow || !InShadow(groups)) && Instantiatable(tag, s) && !isSelected
  }

  /** Everything shown but the placeholders: what a selected block looks like. */
  predicate SelectedView(slots: seq<Slot>) {
    forall i :: 0 <= i < |slots| ==> (slots[i].visible <==> slots[i].kind != PlaceholderSlot)
  }

  /** No field or input shown. */
  predicate FieldsHidden(slots: seq<Slot>) {
    forall i :: 0 <= i < |slots| ==> slots[i].kind != PlaceholderSlot ==> !slots[i].visible
  }

  /** Nothing shown at all. */
  predicate AllHidden(slots: seq<Slot>) {
    forall i :: 0 <= i < |slots| ==> !slots[i].visible
  }

  /** `renderNode(node, ctx)` flattened to its slots, an input's slot before its children's.
      The context entry of an instance carries the group's `idx`, which is its position
      in a well-formed tree. */
  function Render(node: Node, groups: seq<GroupContext>, states: GroupStates, isSelected: bool, checksShadow: bool): (r: seq<Slot>)
    requires Level(states, groups).Ok?
    ensures isSelected ==> SelectedView(r)
    ensures !isSelected && InShadow(groups) ==> FieldsHidden(r)
    ensures !isSelected && InShadow(groups) && checksShadow ==> AllHidden(r)
    decreases node, 2
  {
    match node
    case Field(options, _) =>
      [Slot(FieldSlot, GroupedName(options.name, InstanceIds(groups)), SlotVisible(groups, isSelected))]
    case Input(options, _) =>
      [Slot(InputSlot, GroupedName(options.name, InstanceIds(groups)), SlotVisible(groups, isSelected))]
      + RenderChildren(node, 0, groups, states, isSelected, checksShadow)
    case Root(_) => RenderChildren(node, 0, groups, states, isSelected, checksShadow)
    case Group(idx, tag, _) =>
      var found := GetGroupState(idx, states, groups).value;
      if found.None? then []
      else
        var s := found.value;
        RenderIds(node, groups, states, s, 0, isSelected, checksShadow)
        + (if ShadowRendered(tag, s)
           then RenderInstance(node, groups, states, s.shadowId.value, true, 0, isSelected, checksShadow)
           else [])
        + [Slot(PlaceholderSlot, None, PlaceholderVisible(tag, s, groups, isSelected, checksShadow))]
  }

  function RenderChildren(parent: Node, k: nat, groups: seq<GroupContext>, states: GroupStates, isSelected: bool,
                          checksShadow: bool): (r: seq<Slot>)
    requires Level(states, groups).Ok?
    ensures isSelected ==> SelectedView(r)
    ensures !isSelected && InShadow(groups) ==> FieldsHidden(r)
    ensures !isSelected && InShadow(groups) && checksShadow ==> AllHidden(r)
    decreases parent, 1, |parent.children| - k
  {
    if k >= |parent.children| then []
    else
      Render(parent.children[k], groups, states, isSelected, checksShadow)
      + RenderChildren(parent, k + 1, groups, states, isSelected, checksShadow)
  }

  /** The committed instances, from the `j`-th id on. */
  function RenderIds(node: Node, groups: seq<GroupContext>, states: GroupStates, s: GroupState, j: nat,
                     isSelected: bool, checksShadow: bool): (r: seq<Slot>)
    requires node.Group? && GetGroupState(node.idx, states, groups) == Ok(Some(s))
    ensures isSelected ==> SelectedView(r)
    ensures !isSelected && InShadow(groups) ==> FieldsHidden(r)
    ensures !isSelected && InShadow(groups) && checksShadow ==> AllHidden(r)
    decreases node, 1, |s.ids| - j
  {
    if j >= |s.ids| then []
    else
      RenderInstance(node, groups, states, s.ids[j], false, 0, isSelected, checksShadow)
      + RenderIds(node, groups, states, s, j + 1, isSelected, checksShadow)
  }

  /** `renderGroupInstance(group, id, isShadow, ctx)` from child `k` on. */
  function RenderInstance(node: Node, groups: seq<GroupContext>, states: GroupStates, id: string, isShadow: bool, k: nat,
                          isSelected: bool, checksShadow: bool): (r: seq<Slot>)
    requires node.Group? && GetGroupState(node.idx, states, groups).Ok? && GetGroupState(node.idx, states, groups).value.Some?
    ensures isSelected ==> SelectedView(r)
    ensures !isSelected && (isShadow || InShadow(groups)) ==> FieldsHidden(r)
    ensures !isSelected && (isShadow || InShadow(groups)) && checksShadow ==> AllHidden(r)
    decreases node, 0, |node.children| - k
  {
    if k >= |node.children| then []
    else
      var inner := Inner(node, groups, id, isShadow);
      Descend(states, groups, GroupContext(node.tag, node.idx, id, isShadow));
      assert InShadow(inner) <==> isShadow || InShadow(groups) by {
        assert inner[|groups|].isShadow == isShadow;
        assert forall i :: 0 <= i < |groups| ==> inner[i] == groups[i];
      }
      Render(node.children[k], inner, states, isSelected, checksShadow)
      + RenderInstance(node, groups, states, id, isShadow, k + 1, isSelected, checksShadow)
  }

  /** A repeatable group that offers a shadow still offers one after every recompute,
      whether its shadow stayed empty or was promoted. */
  lemma RepeatedKeepsShadow(node: Node, groups: seq<GroupContext>, s: GroupState, before: GroupStates, probe: Probe,
                            next: nat)
    requires node.Group? && node.tag == Repeated && GetGroupState(node.idx, before, groups) == Ok(Some(s))
    requires s.shadowId.Some?
    ensures var r := Recompute(node, groups, s, before, probe, next);
      ShadowRendered(node.tag, GroupState(r.ids, r.shadowId, r.nested))
  {
    RecomputeIds(node, groups, s, before, probe, next);
  }

  /** An optional group whose shadow was promoted stops offering one: its new shadow
      is neither rendered nor announced by a placeholder. */
  lemma OptionalClosesAfterPromotion(node: Node, groups: seq<GroupContext>, s: GroupState, before: GroupStates,
                                     probe: Probe, next: nat, isSelected: bool, checksShadow: bool)
    requires node.Group? && node.tag == Optional && GetGroupState(node.idx, before, groups) == Ok(Some(s))
    requires s.shadowId.Some? && !InstanceEmpty(node, groups, s.shadowId.value, true, before, probe)
    ensures var r := Recompute(node, groups, s, before, probe, next);
      var t := GroupState(r.ids, r.shadowId, r.nested);
      !ShadowRendered(node.tag, t) && !PlaceholderVisible(node.tag, t, groups, isSelected, checksShadow)
  {
    RecomputeIds(node, groups, s, before, probe, next);
  }
}
