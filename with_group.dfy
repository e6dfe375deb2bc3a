// The with-group copy of the group engine: only `message0`, and group states seeded
// inline while the builder runs, each new group's state written below the states of
// the groups that enclose it.
module WithGroup {
  import opened Std
  import opened Text
  import opened Parsing
  import opened Interpolation
  import opened GroupTree
  import opened GroupState
  import opened GroupPlugin

  // ---------------------------------------------------------------------------
  // getCurrGroupStates and the write into the states it returns
  // ---------------------------------------------------------------------------

  /** The states reached from `states` by following `path`: at each index, the group's
      shadow instance's nested states. */
  function CurrGroupStates(states: GroupStates, path: seq<nat>): Result<GroupStates>
    decreases |path|
  {
    if path == [] then Ok(states)
    else
      var idx := path[0];
      if idx !in states then Crash("Invalid idx " + NatToString(idx) + " for group states")
      else
        var s := states[idx];
        if s.shadowId.None? then Crash("Unexpected shadowId: null")
        else if s.shadowId.value !in s.nested then Crash("No nested group states for shadowId: " + s.shadowId.value)
        else CurrGroupStates(s.nested[s.shadowId.value], path[1..])
  }

  /** `getCurrGroupStates(parentIdxes)`: the source's loop over the path. */
  method GetCurrGroupStates(states: GroupStates, path: seq<nat>) returns (r: Result<GroupStates>)
    ensures r == CurrGroupStates(states, path)
  {
    var curr := states;
    var i := 0;
    while i < |path|
      invariant 0 <= i <= |path|
      invariant CurrGroupStates(states, path) == CurrGroupStates(curr, path[i..])
    {
      assert path[i..][1..] == path[i + 1..];
      var idx := path[i];
      if idx !in curr {
        return Crash("Invalid idx " + NatToString(idx) + " for group states");
      }
      var state := curr[idx];
      if state.shadowId.None? {
        return Crash("Unexpected shadowId: null");
      }
      if state.shadowId.value !in state.nested {
        return Crash("No nested group states for shadowId: " + state.shadowId.value);
      }
      curr := state.nested[state.shadowId.value];
      i := i + 1;
    }
    assert path[i..] == [];
    r := Ok(curr);
  }

  /** `currGroupStates[idx] = st` on the object `getCurrGroupStates(path)` returned,
      seen from the root: the states along the path are rebuilt around the write. */
  function SetAt(states: GroupStates, path: seq<nat>, idx: nat, st: GroupState): Result<GroupStates>
    decreases |path|
  {
    if path == [] then Ok(states[idx := st])
    else
      var p := path[0];
      if p !in states then Crash("Invalid idx " + NatToString(p) + " for group states")
      else
        var s := states[p];
        if s.shadowId.None? then Crash("Unexpected shadowId: null")
        else if s.shadowId.value !in s.nested then Crash("No nested group states for shadowId: " + s.shadowId.value)
        else match SetAt(s.nested[s.shadowId.value], path[1..], idx, st)
          case Crash(reason) => Crash(reason)
          case Ok(inner) => Ok(states[p := s.(nested := s.nested[s.shadowId.value := inner])])
  }

  /** The write fails exactly when the lookup does, and the lookup then finds the
      written state where it found the old ones. */
  lemma {:induction false} SetAtFound(states: GroupStates, path: seq<nat>, idx: nat, st: GroupState)
    ensures SetAt(states, path, idx, st).Crash? <==> CurrGroupStates(states, path).Crash?
    ensures SetAt(states, path, idx, st).Crash? ==> SetAt(states, path, idx, st) == CurrGroupStates(states, path)
    ensures SetAt(states, path, idx, st).Ok? ==>
      CurrGroupStates(SetAt(states, path, idx, st).value, path) == Ok(CurrGroupStates(states, path).value[idx := st])
    decreases |path|
  {
    if path != [] {
      var p := path[0];
      if p in states {
        var s := states[p];
        if s.shadowId.Some? && s.shadowId.value in s.nested {
          SetAtFound(s.nested[s.shadowId.value], path[1..], idx, st);
        }
      }
    }
  }

  /** Following one more index is one more step of the loop. */
  lemma {:induction false} CurrGroupStatesSnoc(states: GroupStates, path: seq<nat>, x: nat)
    ensures CurrGroupStates(states, path + [x]) ==
      match CurrGroupStates(states, path)
      case Crash(reason) => Crash(reason)
      case Ok(c) => CurrGroupStates(c, [x])
    decreases |path|
  {
    if path != [] {
      assert (path + [x])[0] == path[0] && (path + [x])[1..] == path[1..] + [x];
      var p := path[0];
      if p in states {
        var s := states[p];
        if s.shadowId.Some? && s.shadowId.value in s.nested {
          CurrGroupStatesSnoc(s.nested[s.shadowId.value], path[1..], x);
        }
      }
    } else {
      assert [] + [x] == [x];
    }
  }

  // ---------------------------------------------------------------------------
  // The builder loop with inline seeding
  // ---------------------------------------------------------------------------

  /** The builder, the states seeded so far and the `uid()` supply. */
  datatype Seeding = Seeding(b: Builder, states: GroupStates, next: nat)

  /** The open groups' positions, innermost first. */
  function Idxs(open: seq<OpenGroup>): (r: seq<nat>)
    ensures |r| == |open| && forall k :: 0 <= k < |open| ==> r[k] == open[k].idx
  {
    if open == [] then [] else [open[0].idx] + Idxs(open[1..])
  }

  function Reverse<T>(s: seq<T>): (r: seq<T>)
    ensures |r| == |s| && forall k :: 0 <= k < |s| ==> r[k] == s[|s| - 1 - k]
  {
    if s == [] then [] else Reverse(s[1..]) + [s[0]]
  }

  /** `(stack.slice(0, -1) as ParsedGroup[]).map(g => g.idx)`: every stack entry but the
      last, innermost first. */
  function ParentIdxes(b: Builder): seq<nat> {
    if b.rootOnStack then Idxs(b.open)
    else if |b.open| > 0 then Idxs(b.open[..|b.open| - 1])
    else []
  }

  /** The path `getCurrGroupStates` walks: as written, the innermost-first list walked
      from the root; as evidently intended, the same list reversed. */
  function SeedPath(b: Builder, outermostFirst: bool): seq<nat> {
    if outermostFirst then Reverse(ParentIdxes(b)) else ParentIdxes(b)
  }

  /** The state a new group is seeded with: no instance and a fresh shadow with empty
      nested states. */
  function NewGroupState(id: string): GroupState {
    GroupState([], Some(id), map[id := map[]])
  }

  /** One iteration of the with-group loop: a group start also seeds the new group's
      state below its ancestors' shadow instances. */
  function SeededFeed(x: Seeding, e: Element, host: Host, outermostFirst: bool): Result<Seeding> {
    if e.kind == GroupStartType then
      if !HasTop(x.b) then Crash(StackEmptyError)
      else
        var b1 := OpenNewGroup(x.b);
        match SetAt(x.states, SeedPath(x.b, outermostFirst), b1.open[0].idx, NewGroupState(Uid(x.next)))
        case Crash(reason) => Crash(reason)
        case Ok(states1) => Ok(Seeding(b1, states1, x.next + 1))
    else match Feed(x.b, e, host)
      case Crash(reason) => Crash(reason)
      case Ok(b1) => Ok(x.(b := b1))
  }

  function SeededFeedAll(x: Seeding, es: seq<Element>, host: Host, outermostFirst: bool): Result<Seeding>
    decreases |es|
  {
    if es == [] then Ok(x)
    else match SeededFeed(x, es[0], host, outermostFirst)
      case Crash(reason) => Crash(reason)
      case Ok(x1) => SeededFeedAll(x1, es[1..], host, outermostFirst)
  }

  /** `parseNodes_({message0, args0})`: the root's children, the seeded states and the
      id counter afterwards. `args0.length` throws when `args0` is absent. */
  function SeededParseWith(message0: string, args0: Option<seq<Arg>>, table: StringTable, host: Host, next: nat,
                          outermostFirst: bool): Result<(seq<Node>, GroupStates, nat)>
  {
    if args0.None? then Crash("Cannot read properties of undefined (reading 'length')")
    else
      var args := args0.value;
      var tokens := Tokenize(message0, table);
      if !ArgsInRange(tokens, |args|) then Crash("Message index out of range.")
      else match Interpolated(tokens, args, None, host)
        case Crash(reason) => Crash(reason)
        case Ok(es) =>
          match SeededFeedAll(Seeding(Fresh, map[], next), es, host, outermostFirst)
          case Crash(reason) => Crash(reason)
          case Ok(x) => Ok((CloseAll(x.b), x.states, x.next))
  }

  /** The source as written: the innermost-first path walked from the root. */
  function SeededParseAsWritten(message0: string, args0: Option<seq<Arg>>, table: StringTable, host: Host, next: nat)
    : Result<(seq<Node>, GroupStates, nat)>
  {
    SeededParseWith(message0, args0, table, host, next, false)
  }

  /** The evidently intended parse: the ancestors walked outermost first. */
  function SeededParse(message0: string, args0: Option<seq<Arg>>, table: StringTable, host: Host, next: nat)
    : Result<(seq<Node>, GroupStates, nat)>
  {
    SeededParseWith(message0, args0, table, host, next, true)
  }

  // ---------------------------------------------------------------------------
  // The finding: three nested groups
  // ---------------------------------------------------------------------------

  const GroupStart: Element := Element(GroupStartType, None, None, None)

  /** The state of the first group once a second group was seeded below its shadow. */
  function OuterState(next: nat): GroupState {
    var st0 := NewGroupState(Uid(next));
    st0.(nested := st0.nested[Uid(next) := map[1 := NewGroupState(Uid(next + 1))]])
  }

  /** The builder holding `[` then `a`, or `[a[` then `b`. */
  function OneOpen(f: Element): Builder {
    Builder([], true, [OpenGroup(0, [])], [Field(f, [])])
  }

  function TwoOpen(f: Element): Builder {
    Builder([], true, [OpenGroup(1, []), OpenGroup(0, [FlushFieldBuffer([Field(f, [])])])], [Field(f, [])])
  }

  lemma FirstGroupSeeded(f: Element, host: Host, next: nat)
    requires IsFieldElement(f, host)
    ensures SeededFeedAll(Seeding(Fresh, map[], next), [GroupStart, f], host, false)
      == Ok(Seeding(OneOpen(f), map[0 := NewGroupState(Uid(next))], next + 1))
  {
    var x1 := Seeding(OneOpen(f).(buffer := []), map[0 := NewGroupState(Uid(next))], next + 1);
    assert SeededFeed(Seeding(Fresh, map[], next), GroupStart, host, false) == Ok(x1) by {
      assert OpenNewGroup(Fresh) == x1.b;
      assert SeedPath(Fresh, false) == [];
      assert SetAt(map[], [], 0, NewGroupState(Uid(next))) == Ok(map[0 := NewGroupState(Uid(next))]);
    }
    assert SeededFeed(x1, f, host, false) == Ok(x1.(b := OneOpen(f))) by {
      assert [] + [Field(f, [])] == [Field(f, [])];
    }
    assert [GroupStart, f][1..] == [f];
    assert [f][1..] == [];
    assert SeededFeedAll(Seeding(Fresh, map[], next), [GroupStart, f], host, false) == SeededFeedAll(x1, [f], host, false);
    assert SeededFeedAll(x1, [f], host, false) == SeededFeedAll(x1.(b := OneOpen(f)), [], host, false);
  }

  lemma SecondWrite(next: nat)
    ensures SetAt(map[0 := NewGroupState(Uid(next))], [0], 1, NewGroupState(Uid(next + 1))) == Ok(map[0 := OuterState(next)])
  {
    var st0 := NewGroupState(Uid(next));
    var st1 := NewGroupState(Uid(next + 1));
    var states := map[0 := st0];
    assert states[0] == st0;
    assert [0][0] == 0 && [0][1..] == [];
    var inner := SetAt(st0.nested[Uid(next)], [], 1, st1);
    assert inner == Ok(map[1 := st1]);
    assert SetAt(states, [0], 1, st1) == Ok(states[0 := st0.(nested := st0.nested[Uid(next) := map[1 := st1]])]);
    assert states[0 := OuterState(next)] == map[0 := OuterState(next)];
  }

  lemma SecondGroupSeeded(f: Element, host: Host, next: nat)
    requires IsFieldElement(f, host)
    ensures SeededFeedAll(Seeding(OneOpen(f), map[0 := NewGroupState(Uid(next))], next + 1), [GroupStart, f], host, false)
      == Ok(Seeding(TwoOpen(f), map[0 := OuterState(next)], next + 2))
  {
    var b := OneOpen(f);
    var st0 := NewGroupState(Uid(next));
    var b3 := TwoOpen(f).(buffer := []);
    assert OpenNewGroup(b) == b3 by {
      assert Append(b, FlushFieldBuffer(b.buffer)).open[0].children == [FlushFieldBuffer(b.buffer)];
    }
    assert ParentIdxes(b) == [0];
    assert SetAt(map[], [], 1, NewGroupState(Uid(next + 1))) == Ok(map[1 := NewGroupState(Uid(next + 1))]);
    assert [0][1..] == [];
    assert st0.shadowId == Some(Uid(next)) && Uid(next) in st0.nested && st0.nested[Uid(next)] == map[];
    SecondWrite(next);
    var x3 := Seeding(b3, map[0 := OuterState(next)], next + 2);
    assert SeededFeed(Seeding(b, map[0 := st0], next + 1), GroupStart, host, false) == Ok(x3) by {
      assert SeedPath(b, false) == [0];
    }
    assert SeededFeed(x3, f, host, false) == Ok(x3.(b := TwoOpen(f))) by {
      assert [] + [Field(f, [])] == [Field(f, [])];
    }
    assert [GroupStart, f][1..] == [f];
    assert [f][1..] == [];
    assert SeededFeedAll(Seeding(b, map[0 := st0], next + 1), [GroupStart, f], host, false) == SeededFeedAll(x3, [f], host, false);
    assert SeededFeedAll(x3, [f], host, false) == SeededFeedAll(x3.(b := TwoOpen(f)), [], host, false);
  }

  lemma ThirdGroupThrows(f: Element, host: Host, next: nat)
    ensures SeededFeed(Seeding(TwoOpen(f), map[0 := OuterState(next)], next + 2), GroupStart, host, false)
      == Crash("Invalid idx 1 for group states")
  {
    var b := TwoOpen(f);
    assert OpenNewGroup(b).open[0].idx == 1;
    assert ParentIdxes(b) == [1, 0];
    assert NatToString(1) == "1";
  }

  /** The elements of `"[a[b[c]]]"` up to the third group start, whatever follows: the
      third group's parents are `[1, 0]` innermost first, and the root states have no
      entry 1, so the source throws. */
  lemma {:induction false} NestedSeedingThrows(f: Element, rest: seq<Element>, host: Host, next: nat)
    requires IsFieldElement(f, host)
    ensures SeededFeedAll(Seeding(Fresh, map[], next), [GroupStart, f, GroupStart, f, GroupStart] + rest, host, false)
      == Crash("Invalid idx 1 for group states")
  {
    var x0 := Seeding(Fresh, map[], next);
    var x2 := Seeding(OneOpen(f), map[0 := NewGroupState(Uid(next))], next + 1);
    var x4 := Seeding(TwoOpen(f), map[0 := OuterState(next)], next + 2);
    FirstGroupSeeded(f, host, next);
    SecondGroupSeeded(f, host, next);
    ThirdGroupThrows(f, host, next);
    SeededFeedAllAppend(x0, [GroupStart, f], [GroupStart, f, GroupStart] + rest, host, false);
    assert [GroupStart, f] + ([GroupStart, f, GroupStart] + rest) == [GroupStart, f, GroupStart, f, GroupStart] + rest;
    SeededFeedAllAppend(x2, [GroupStart, f], [GroupStart] + rest, host, false);
    assert [GroupStart, f] + ([GroupStart] + rest) == [GroupStart, f, GroupStart] + rest;
    assert ([GroupStart] + rest)[0] == GroupStart;
  }

  /** Feeding two pieces is feeding the first, then the second from where it ended. */
  lemma {:induction false} SeededFeedAllAppend(x: Seeding, es: seq<Element>, more: seq<Element>, host: Host, outermostFirst: bool)
    ensures SeededFeedAll(x, es + more, host, outermostFirst) ==
      match SeededFeedAll(x, es, host, outermostFirst)
      case Crash(reason) => Crash(reason)
      case Ok(y) => SeededFeedAll(y, more, host, outermostFirst)
    decreases |es|
  {
    if es == [] {
      assert es + more == more;
    } else {
      assert (es + more)[0] == es[0] && (es + more)[1..] == es[1..] + more;
      match SeededFeed(x, es[0], host, outermostFirst)
      case Crash(_) =>
      case Ok(x1) => SeededFeedAllAppend(x1, es[1..], more, host, outermostFirst);
    }
  }

  // ---------------------------------------------------------------------------
  // The corrected order never throws
  // ---------------------------------------------------------------------------

  /** The open groups' path resolves, and the root leaves the stack only when no group
      is open. */
  predicate SeedingOk(x: Seeding) {
    && (!x.b.rootOnStack ==> |x.b.open| == 0)
    && CurrGroupStates(x.states, Reverse(Idxs(x.b.open))).Ok?
  }

  lemma AppendIdxs(b: Builder, n: Node)
    ensures Idxs(Append(b, n).open) == Idxs(b.open)
  {
  }

  lemma {:induction false} ReverseCons<T>(x: T, s: seq<T>)
    ensures Reverse([x] + s) == Reverse(s) + [x]
  {
    assert ([x] + s)[1..] == s;
  }

  /** Looking up a path that resolves also resolves its prefixes. */
  lemma CurrGroupStatesPrefix(states: GroupStates, path: seq<nat>, x: nat)
    requires CurrGroupStates(states, path + [x]).Ok?
    ensures CurrGroupStates(states, path).Ok?
  {
    CurrGroupStatesSnoc(states, path, x);
  }

  /** Opening a group puts its position in front of the open groups' positions. */
  lemma OpenIdxs(b: Builder)
    ensures Idxs(OpenNewGroup(b).open) == [OpenNewGroup(b).open[0].idx] + Idxs(b.open)
  {
    if |b.buffer| > 0 {
      AppendIdxs(b, FlushFieldBuffer(b.buffer));
    }
  }

  /** The write of a new group's state at the end of a resolving path makes the path
      one longer still resolve. */
  lemma {:induction false} WriteThenDescend(states: GroupStates, path: seq<nat>, idx: nat, id: string)
    requires CurrGroupStates(states, path).Ok?
    ensures SetAt(states, path, idx, NewGroupState(id)).Ok?
    ensures CurrGroupStates(SetAt(states, path, idx, NewGroupState(id)).value, path + [idx]).Ok?
  {
    SetAtFound(states, path, idx, NewGroupState(id));
    CurrGroupStatesSnoc(SetAt(states, path, idx, NewGroupState(id)).value, path, idx);
    assert [idx][1..] == [];
  }

  /** A group start in the intended order: the write lands, and the new group's own
      path resolves to its shadow's empty nested states. */
  lemma SeededStart(x: Seeding, e: Element, host: Host)
    requires SeedingOk(x) && e.kind == GroupStartType && HasTop(x.b)
    ensures SeededFeed(x, e, host, true).Ok?
    ensures SeededFeed(x, e, host, true).value.b == Feed(x.b, e, host).value
    ensures SeedingOk(SeededFeed(x, e, host, true).value)
  {
    var b1 := OpenNewGroup(x.b);
    var path := Reverse(Idxs(x.b.open));
    var idx := b1.open[0].idx;
    assert SeedPath(x.b, true) == path;
    WriteThenDescend(x.states, path, idx, Uid(x.next));
    OpenIdxs(x.b);
    ReverseCons(idx, Idxs(x.b.open));
  }

  /** A group end in the intended order: the path shrinks to a prefix that resolves. */
  lemma SeededEnd(x: Seeding, e: Element, host: Host)
    requires SeedingOk(x) && e.kind == GroupEndType
    ensures SeededFeed(x, e, host, true) == Ok(x.(b := Feed(x.b, e, host).value))
    ensures SeedingOk(x.(b := Feed(x.b, e, host).value))
  {
    if |x.b.open| > 0 {
      CloseSeedingOk(x, TagOf(e));
    }
  }

  /** Closing the innermost group drops the last index of the path, which still resolves. */
  lemma CloseSeedingOk(x: Seeding, tag: Tag)
    requires SeedingOk(x) && |x.b.open| > 0
    ensures SeedingOk(x.(b := CloseGroup(x.b, tag)))
  {
    AppendIdxs(x.b.(open := x.b.open[1..], buffer := []), ClosedGroup(x.b, tag));
    assert x.b.open == [x.b.open[0]] + x.b.open[1..];
    assert Idxs(x.b.open) == [x.b.open[0].idx] + Idxs(x.b.open[1..]);
    ReverseCons(x.b.open[0].idx, Idxs(x.b.open[1..]));
    CurrGroupStatesPrefix(x.states, Reverse(Idxs(x.b.open[1..])), x.b.open[0].idx);
  }

  /** Any other element leaves the open groups and the states alone. */
  lemma SeededOther(x: Seeding, e: Element, host: Host)
    requires SeedingOk(x) && e.kind != GroupStartType && e.kind != GroupEndType
    ensures SeededFeed(x, e, host, true) == (match Feed(x.b, e, host)
      case Crash(reason) => Crash(reason)
      case Ok(b1) => Ok(x.(b := b1)))
    ensures Feed(x.b, e, host).Ok? ==> SeedingOk(x.(b := Feed(x.b, e, host).value))
  {
    if host.isInput(e.kind) && HasTop(x.b) {
      AppendIdxs(x.b, Input(e, x.b.buffer));
    }
  }

  /** Seeding in the intended order never throws: the loop fails exactly when the
      builder alone does, and builds the same tree. */
  lemma {:induction false} SeededFeedAllBuilds(x: Seeding, es: seq<Element>, host: Host)
    requires SeedingOk(x)
    ensures SeededFeedAll(x, es, host, true).Ok? <==> FeedAll(x.b, es, host).Ok?
    ensures SeededFeedAll(x, es, host, true).Ok? ==>
      SeededFeedAll(x, es, host, true).value.b == FeedAll(x.b, es, host).value
    decreases |es|
  {
    if es != [] {
      var e := es[0];
      if e.kind == GroupStartType {
        if HasTop(x.b) {
          SeededStart(x, e, host);
          SeededFeedAllBuilds(SeededFeed(x, e, host, true).value, es[1..], host);
        }
      } else if e.kind == GroupEndType {
        SeededEnd(x, e, host);
        SeededFeedAllBuilds(x.(b := Feed(x.b, e, host).value), es[1..], host);
      } else {
        SeededOther(x, e, host);
        if Feed(x.b, e, host).Ok? {
          SeededFeedAllBuilds(x.(b := Feed(x.b, e, host).value), es[1..], host);
        }
      }
    }
  }

  /** The intended parse succeeds exactly when building the tree does, and yields the
      same tree as the plugin copy's builder. */
  lemma SeededParseBuilds(message0: string, args: seq<Arg>, table: StringTable, host: Host, next: nat)
    ensures var tokens := Tokenize(message0, table);
      ArgsInRange(tokens, |args|) && Interpolated(tokens, args, None, host).Ok? ==>
        && (SeededParse(message0, Some(args), table, host, next).Ok? <==>
            Build([], Interpolated(tokens, args, None, host).value, host).Ok?)
        && (SeededParse(message0, Some(args), table, host, next).Ok? ==>
              SeededParse(message0, Some(args), table, host, next).value.0
                == Build([], Interpolated(tokens, args, None, host).value, host).value)
  {
    var tokens := Tokenize(message0, table);
    if ArgsInRange(tokens, |args|) && Interpolated(tokens, args, None, host).Ok? {
      var es := Interpolated(tokens, args, None, host).value;
      assert Reverse(Idxs([])) == [];
      SeededFeedAllBuilds(Seeding(Fresh, map[], next), es, host);
    }
  }

  // ---------------------------------------------------------------------------
  // The corrected order seeds exactly what `makeInitialGroupStates_` seeds
  // ---------------------------------------------------------------------------

  /** A container's children followed by the groups open below it, outermost first,
      each closed as `?` and placed as the last child of the one above: what `CloseAll`
      finishes. */
  function Tree(cs: seq<Node>, outs: seq<OpenGroup>): seq<Node>
    decreases |outs|
  {
    if outs == [] then cs
    else cs + [Group(outs[0].idx, Optional, Tree(outs[0].children, outs[1..]))]
  }

  /** Each open group sits at the next position of the container above it. */
  predicate Positioned(cs: seq<Node>, outs: seq<OpenGroup>)
    decreases |outs|
  {
    outs == [] || (outs[0].idx == |cs| && Positioned(outs[0].children, outs[1..]))
  }

  /** The container the next node goes to: the innermost open group's children. */
  function Inner(cs: seq<Node>, outs: seq<OpenGroup>): seq<Node> {
    if outs == [] then cs else outs[|outs| - 1].children
  }

  /** `stack[0].children.push(m)`, seen from the outermost container. */
  function AppendInner(cs: seq<Node>, outs: seq<OpenGroup>, m: Node): (seq<Node>, seq<OpenGroup>)
    decreases |outs|
  {
    if outs == [] then (cs + [m], [])
    else
      var below := AppendInner(outs[0].children, outs[1..], m);
      (cs, [outs[0].(children := below.0)] + below.1)
  }

  /** The seeding of the finished tree, level by level: the container's finished
      children, then the open group's shadow id, then the seeding below it. */
  function SpineSeed(cs: seq<Node>, outs: seq<OpenGroup>, next: nat): (GroupStates, nat)
    decreases |outs|
  {
    var top := Seed(Root(cs), next);
    if outs == [] then top
    else
      var below := SpineSeed(outs[0].children, outs[1..], top.1 + 1);
      (top.0[outs[0].idx := GroupState([], Some(Uid(top.1)), map[Uid(top.1) := below.0])], below.1)
  }

  lemma IdxsReverse(open: seq<OpenGroup>)
    ensures Idxs(Reverse(open)) == Reverse(Idxs(open))
  {
    assert |Idxs(Reverse(open))| == |Reverse(Idxs(open))|;
  }

  lemma IdxsCons(g: OpenGroup, rest: seq<OpenGroup>)
    ensures Idxs([g] + rest) == [g.idx] + Idxs(rest)
  {
    assert ([g] + rest)[1..] == rest;
  }

  lemma {:induction false} AppendInnerLast(cs: seq<Node>, outs: seq<OpenGroup>, g: OpenGroup, m: Node)
    ensures AppendInner(cs, outs + [g], m) == (cs, outs + [g.(children := g.children + [m])])
    decreases |outs|
  {
    if outs == [] {
      assert [g][1..] == [];
      assert AppendInner(g.children, [], m) == (g.children + [m], []);
      assert [g.(children := g.children + [m])] + [] == [] + [g.(children := g.children + [m])];
    } else {
      assert (outs + [g])[0] == outs[0] && (outs + [g])[1..] == outs[1..] + [g];
      AppendInnerLast(outs[0].children, outs[1..], g, m);
      assert [outs[0]] + (outs[1..] + [g.(children := g.children + [m])]) == outs + [g.(children := g.children + [m])];
    }
  }

  /** The builder's `Append` is `AppendInner` on its spine. */
  lemma AppendReverse(b: Builder, m: Node)
    ensures (Append(b, m).root, Reverse(Append(b, m).open)) == AppendInner(b.root, Reverse(b.open), m)
  {
    if |b.open| > 0 {
      var g := b.open[0];
      assert b.open == [g] + b.open[1..];
      ReverseCons(g, b.open[1..]);
      ReverseCons(g.(children := g.children + [m]), b.open[1..]);
      AppendInnerLast(b.root, Reverse(b.open[1..]), g, m);
    }
  }

  lemma {:induction false} PositionedSnoc(cs: seq<Node>, outs: seq<OpenGroup>, g: OpenGroup)
    ensures Positioned(cs, outs + [g]) <==> Positioned(cs, outs) && g.idx == |Inner(cs, outs)|
    decreases |outs|
  {
    if outs == [] {
      assert [g][1..] == [];
    } else {
      assert (outs + [g])[0] == outs[0] && (outs + [g])[1..] == outs[1..] + [g];
      PositionedSnoc(outs[0].children, outs[1..], g);
    }
  }

  lemma {:induction false} PositionedAppend(cs: seq<Node>, outs: seq<OpenGroup>, m: Node)
    requires Positioned(cs, outs)
    ensures Positioned(AppendInner(cs, outs, m).0, AppendInner(cs, outs, m).1)
    decreases |outs|
  {
    if outs != [] {
      PositionedAppend(outs[0].children, outs[1..], m);
    }
  }

  /** Seeding the empty container draws nothing. */
  lemma SeedNone(next: nat)
    ensures Seed(Root([]), next) == (map[], next)
  {
  }

  /** A node that is not a group adds no state and draws no id, wherever it is added. */
  lemma {:induction false} SpineAppendPlain(cs: seq<Node>, outs: seq<OpenGroup>, m: Node, next: nat)
    requires !m.Group?
    ensures SpineSeed(AppendInner(cs, outs, m).0, AppendInner(cs, outs, m).1, next) == SpineSeed(cs, outs, next)
    decreases |outs|
  {
    if outs == [] {
      SeedFromSnoc(cs, m, 0, next);
    } else {
      var top := Seed(Root(cs), next);
      SpineAppendPlain(outs[0].children, outs[1..], m, top.1 + 1);
    }
  }

  lemma SpineSeedCons(cs: seq<Node>, o: OpenGroup, rest: seq<OpenGroup>, next: nat)
    ensures var top := Seed(Root(cs), next);
      var below := SpineSeed(o.children, rest, top.1 + 1);
      SpineSeed(cs, [o] + rest, next)
        == (top.0[o.idx := GroupState([], Some(Uid(top.1)), map[Uid(top.1) := below.0])], below.1)
  {
    assert ([o] + rest)[0] == o && ([o] + rest)[1..] == rest;
  }

  /** A write below the shadow of a freshly seeded group at `p`. */
  lemma SetAtBelow(base: GroupStates, p: nat, path: seq<nat>, idx: nat, st: GroupState, u: string, inner: GroupStates)
    requires SetAt(inner, path, idx, st).Ok?
    ensures SetAt(base[p := GroupState([], Some(u), map[u := inner])], [p] + path, idx, st)
      == Ok(base[p := GroupState([], Some(u), map[u := SetAt(inner, path, idx, st).value])])
  {
    var states := base[p := GroupState([], Some(u), map[u := inner])];
    var w := SetAt(inner, path, idx, st).value;
    assert ([p] + path)[0] == p && ([p] + path)[1..] == path;
    assert states[p].nested[u := w] == map[u := w];
    assert states[p := states[p].(nested := map[u := w])] == base[p := GroupState([], Some(u), map[u := w])];
  }

  /** Opening a group below the spine is the write `parseNodes_` makes along the
      ancestors' path, outermost first, with the next id. */
  lemma {:induction false} SpinePush(cs: seq<Node>, outs: seq<OpenGroup>, next: nat)
    ensures var sp := SpineSeed(cs, outs, next);
      var written := SetAt(sp.0, Idxs(outs), |Inner(cs, outs)|, NewGroupState(Uid(sp.1)));
      && written.Ok?
      && SpineSeed(cs, outs + [OpenGroup(|Inner(cs, outs)|, [])], next) == (written.value, sp.1 + 1)
    decreases |outs|
  {
    if outs == [] {
      SpinePushTop(cs, next);
    } else {
      var o := outs[0];
      var rest := outs[1..];
      var g := OpenGroup(|Inner(cs, outs)|, []);
      var top := Seed(Root(cs), next);
      assert outs == [o] + rest;
      assert outs + [g] == [o] + (rest + [g]);
      assert Inner(cs, outs) == Inner(o.children, rest);
      SpinePush(o.children, rest, top.1 + 1);
      SpineSeedCons(cs, o, rest, next);
      SpineSeedCons(cs, o, rest + [g], next);
      IdxsCons(o, rest);
      SpinePushBelow(top.0, o.idx, Uid(top.1), SpineSeed(o.children, rest, top.1 + 1),
        SpineSeed(o.children, rest + [g], top.1 + 1), Idxs(rest), g.idx);
    }
  }

  /** The step of `SpinePush` through one enclosing group's shadow. */
  lemma SpinePushBelow(top: GroupStates, p: nat, u: string, below: (GroupStates, nat), belowPushed: (GroupStates, nat),
                       path: seq<nat>, idx: nat)
    requires SetAt(below.0, path, idx, NewGroupState(Uid(below.1))).Ok?
    requires belowPushed == (SetAt(below.0, path, idx, NewGroupState(Uid(below.1))).value, below.1 + 1)
    ensures var written := SetAt(top[p := GroupState([], Some(u), map[u := below.0])], [p] + path, idx,
                                 NewGroupState(Uid(below.1)));
      && written.Ok?
      && (top[p := GroupState([], Some(u), map[u := belowPushed.0])], belowPushed.1) == (written.value, below.1 + 1)
  {
    SetAtBelow(top, p, path, idx, NewGroupState(Uid(below.1)), u, below.0);
  }

  lemma SpinePushTop(cs: seq<Node>, next: nat)
    ensures var sp := SpineSeed(cs, [], next);
      var written := SetAt(sp.0, [], |cs|, NewGroupState(Uid(sp.1)));
      && written.Ok?
      && SpineSeed(cs, [OpenGroup(|cs|, [])], next) == (written.value, sp.1 + 1)
  {
    var top := Seed(Root(cs), next);
    assert [OpenGroup(|cs|, [])][1..] == [];
    SeedNone(top.1 + 1);
    assert SpineSeed([], [], top.1 + 1) == (map[], top.1 + 1);
  }

  /** Closing the innermost group with any tag, and with a trailing node that is not a
      group, leaves the seeding unchanged. */
  lemma {:induction false} SpineClose(cs: seq<Node>, outs: seq<OpenGroup>, g: OpenGroup, tag: Tag, children: seq<Node>, next: nat)
    requires g.idx == |Inner(cs, outs)|
    requires forall j: nat :: Seed(Root(children), j) == Seed(Root(g.children), j)
    ensures SpineSeed(AppendInner(cs, outs, Group(g.idx, tag, children)).0,
                      AppendInner(cs, outs, Group(g.idx, tag, children)).1, next)
      == SpineSeed(cs, outs + [g], next)
    decreases |outs|
  {
    var top := Seed(Root(cs), next);
    if outs == [] {
      var closed := Group(g.idx, tag, children);
      assert [g][1..] == [];
      SeedFromSnoc(cs, closed, 0, next);
      SeedFromChildren(closed, Root(children), 0, top.1 + 1);
    } else {
      assert (outs + [g])[0] == outs[0] && (outs + [g])[1..] == outs[1..] + [g];
      SpineClose(outs[0].children, outs[1..], g, tag, children, top.1 + 1);
    }
  }

  /** The spine seeds what seeding the finished tree does. */
  lemma {:induction false} SpineTree(cs: seq<Node>, outs: seq<OpenGroup>, next: nat)
    requires Positioned(cs, outs)
    ensures SpineSeed(cs, outs, next) == Seed(Root(Tree(cs, outs)), next)
    decreases |outs|
  {
    if outs != [] {
      var top := Seed(Root(cs), next);
      var closed := Group(outs[0].idx, Optional, Tree(outs[0].children, outs[1..]));
      SeedFromSnoc(cs, closed, 0, next);
      SeedFromChildren(closed, Root(closed.children), 0, top.1 + 1);
      SpineTree(outs[0].children, outs[1..], top.1 + 1);
    }
  }

  lemma {:induction false} TreeClose(cs: seq<Node>, outs: seq<OpenGroup>, g: OpenGroup)
    ensures Tree(AppendInner(cs, outs, Group(g.idx, Optional, g.children)).0,
                 AppendInner(cs, outs, Group(g.idx, Optional, g.children)).1)
      == Tree(cs, outs + [g])
    decreases |outs|
  {
    if outs == [] {
      assert [g][1..] == [];
    } else {
      assert (outs + [g])[0] == outs[0] && (outs + [g])[1..] == outs[1..] + [g];
      TreeClose(outs[0].children, outs[1..], g);
    }
  }

  /** `CloseAll` finishes the spine. */
  lemma {:induction false} CloseAllTree(b: Builder)
    ensures CloseAll(b) == Tree(b.root, Reverse(b.open))
    decreases |b.open|
  {
    if |b.open| > 0 {
      var g := b.open[0];
      var b1 := b.(open := b.open[1..]);
      var closed := Group(g.idx, Optional, g.children);
      assert b.open == [g] + b.open[1..];
      ReverseCons(g, b.open[1..]);
      AppendReverse(b1, closed);
      TreeClose(b.root, Reverse(b.open[1..]), g);
      CloseAllTree(Append(b1, closed));
    }
  }

  /** The inline states and counter are the spine's seeding, and the spine is placed. */
  predicate Spined(x: Seeding, next: nat) {
    && Positioned(x.b.root, Reverse(x.b.open))
    && (x.states, x.next) == SpineSeed(x.b.root, Reverse(x.b.open), next)
  }

  /** Flushing the pending fields adds no state, draws no id and moves no open group. */
  lemma FlushSpine(b: Builder, next: nat)
    requires Positioned(b.root, Reverse(b.open))
    ensures var b1 := if |b.buffer| > 0 then Append(b, FlushFieldBuffer(b.buffer)).(buffer := []) else b;
      && Positioned(b1.root, Reverse(b1.open))
      && SpineSeed(b1.root, Reverse(b1.open), next) == SpineSeed(b.root, Reverse(b.open), next)
      && Idxs(b1.open) == Idxs(b.open)
  {
    if |b.buffer| > 0 {
      AppendReverse(b, FlushFieldBuffer(b.buffer));
      SpineAppendPlain(b.root, Reverse(b.open), FlushFieldBuffer(b.buffer), next);
      PositionedAppend(b.root, Reverse(b.open), FlushFieldBuffer(b.buffer));
      AppendIdxs(b, FlushFieldBuffer(b.buffer));
    }
  }

  /** Pushing a new group on a builder pushes it below its spine. */
  lemma PushSpine(b1: Builder, next: nat)
    requires Positioned(b1.root, Reverse(b1.open))
    ensures var sp := SpineSeed(b1.root, Reverse(b1.open), next);
      var b2 := b1.(open := [OpenGroup(|Current(b1)|, [])] + b1.open);
      var written := SetAt(sp.0, Reverse(Idxs(b1.open)), |Current(b1)|, NewGroupState(Uid(sp.1)));
      && written.Ok?
      && Positioned(b2.root, Reverse(b2.open))
      && SpineSeed(b2.root, Reverse(b2.open), next) == (written.value, sp.1 + 1)
  {
    var outs1 := Reverse(b1.open);
    assert Current(b1) == Inner(b1.root, outs1);
    var g := OpenGroup(|Current(b1)|, []);
    ReverseCons(g, b1.open);
    IdxsReverse(b1.open);
    SpinePush(b1.root, outs1, next);
    PositionedSnoc(b1.root, outs1, g);
  }

  /** A group start on the spine: the write along the outermost-first path, with the
      next id, is the seeding of the spine with the new group below it. */
  lemma OpenSpine(x: Seeding, next: nat)
    requires Spined(x, next)
    ensures var b2 := OpenNewGroup(x.b);
      var written := SetAt(x.states, Reverse(Idxs(x.b.open)), b2.open[0].idx, NewGroupState(Uid(x.next)));
      written.Ok? && Spined(Seeding(b2, written.value, x.next + 1), next)
  {
    var b := x.b;
    var b1 := if |b.buffer| > 0 then Append(b, FlushFieldBuffer(b.buffer)).(buffer := []) else b;
    assert OpenNewGroup(b) == b1.(open := [OpenGroup(|Current(b1)|, [])] + b1.open);
    FlushSpine(b, next);
    PushSpine(b1, next);
  }

  lemma SpinedStart(x: Seeding, e: Element, host: Host, next: nat)
    requires SeedingOk(x) && Spined(x, next) && e.kind == GroupStartType && HasTop(x.b)
    ensures SeededFeed(x, e, host, true).Ok? && Spined(SeededFeed(x, e, host, true).value, next)
  {
    OpenSpine(x, next);
    StartResult(x, e, host);
  }

  /** What a group start in the intended order computes, once the write lands. */
  lemma StartResult(x: Seeding, e: Element, host: Host)
    requires e.kind == GroupStartType && HasTop(x.b) && (!x.b.rootOnStack ==> |x.b.open| == 0)
    requires SetAt(x.states, Reverse(Idxs(x.b.open)), OpenNewGroup(x.b).open[0].idx, NewGroupState(Uid(x.next))).Ok?
    ensures SeededFeed(x, e, host, true)
      == Ok(Seeding(OpenNewGroup(x.b),
                    SetAt(x.states, Reverse(Idxs(x.b.open)), OpenNewGroup(x.b).open[0].idx, NewGroupState(Uid(x.next))).value,
                    x.next + 1))
  {
    assert SeedPath(x.b, true) == Reverse(Idxs(x.b.open));
  }

  lemma SpinedEnd(x: Seeding, e: Element, host: Host, next: nat)
    requires SeedingOk(x) && Spined(x, next) && e.kind == GroupEndType
    ensures Spined(x.(b := Feed(x.b, e, host).value), next)
  {
    SeededEnd(x, e, host);
    var b := x.b;
    if |b.open| > 0 {
      var g := b.open[0];
      var tag := TagOf(e);
      var b0 := b.(open := b.open[1..], buffer := []);
      var closed := ClosedGroup(b, tag);
      var outs0 := Reverse(b.open[1..]);
      assert b.open == [g] + b.open[1..];
      ReverseCons(g, b.open[1..]);
      AppendReverse(b0, closed);
      PositionedSnoc(b.root, outs0, g);
      PositionedAppend(b.root, outs0, closed);
      forall j: nat
        ensures Seed(Root(closed.children), j) == Seed(Root(g.children), j)
      {
        if |b.buffer| > 0 {
          SeedFromSnoc(g.children, FlushFieldBuffer(b.buffer), 0, j);
        }
      }
      SpineClose(b.root, outs0, g, tag, closed.children, next);
    }
  }

  lemma SpinedOther(x: Seeding, e: Element, host: Host, next: nat)
    requires SeedingOk(x) && Spined(x, next) && e.kind != GroupStartType && e.kind != GroupEndType
    ensures Feed(x.b, e, host).Ok? ==> Spined(x.(b := Feed(x.b, e, host).value), next)
  {
    var b := x.b;
    if host.isInput(e.kind) && HasTop(b) {
      var m := Input(e, b.buffer);
      AppendReverse(b, m);
      SpineAppendPlain(b.root, Reverse(b.open), m, next);
      PositionedAppend(b.root, Reverse(b.open), m);
    }
  }

  lemma {:induction false} SeededFeedAllSpined(x: Seeding, es: seq<Element>, host: Host, next: nat)
    requires SeedingOk(x) && Spined(x, next)
    ensures SeededFeedAll(x, es, host, true).Ok? ==> Spined(SeededFeedAll(x, es, host, true).value, next)
    decreases |es|
  {
    if es != [] {
      var e := es[0];
      if e.kind == GroupStartType {
        if HasTop(x.b) {
          SeededStart(x, e, host);
          SpinedStart(x, e, host, next);
          SeededFeedAllSpined(SeededFeed(x, e, host, true).value, es[1..], host, next);
        }
      } else if e.kind == GroupEndType {
        SeededEnd(x, e, host);
        SpinedEnd(x, e, host, next);
        SeededFeedAllSpined(x.(b := Feed(x.b, e, host).value), es[1..], host, next);
      } else {
        SeededOther(x, e, host);
        SpinedOther(x, e, host, next);
        if Feed(x.b, e, host).Ok? {
          SeededFeedAllSpined(x.(b := Feed(x.b, e, host).value), es[1..], host, next);
        }
      }
    }
  }

  /** Seeding inline in the intended order ends with the states and `uid()` counter
      `makeInitialGroupStates_` gives the finished tree from the same counter. */
  lemma SeededFeedAllSeeds(es: seq<Element>, host: Host, next: nat)
    ensures var r := SeededFeedAll(Seeding(Fresh, map[], next), es, host, true);
      r.Ok? ==> (r.value.states, r.value.next) == Seed(Root(CloseAll(r.value.b)), next)
  {
    var x := Seeding(Fresh, map[], next);
    assert Reverse(Idxs([])) == [];
    SeedNone(next);
    assert Spined(x, next);
    SeededFeedAllSpined(x, es, host, next);
    var r := SeededFeedAll(x, es, host, true);
    if r.Ok? {
      var y := r.value;
      CloseAllTree(y.b);
      SpineTree(y.b.root, Reverse(y.b.open), next);
    }
  }

  /** The intended parse's states and counter are the seeding of the tree it returns. */
  lemma SeededParseSeeds(message0: string, args0: Option<seq<Arg>>, table: StringTable, host: Host, next: nat)
    ensures var r := SeededParse(message0, args0, table, host, next);
      r.Ok? ==> (r.value.1, r.value.2) == Seed(Root(r.value.0), next)
  {
    if args0.Some? {
      var tokens := Tokenize(message0, table);
      if ArgsInRange(tokens, |args0.value|) && Interpolated(tokens, args0.value, None, host).Ok? {
        SeededFeedAllSeeds(Interpolated(tokens, args0.value, None, host).value, host, next);
      }
    }
  }

  /** While at most one group encloses the new one, the path has one index or none and
      both orders walk it alike: as written agrees with the intended order. */
  lemma ShallowPathsAgree(x: Seeding, e: Element, host: Host)
    requires |ParentIdxes(x.b)| <= 1
    ensures SeededFeed(x, e, host, false) == SeededFeed(x, e, host, true)
  {
    var path := ParentIdxes(x.b);
    assert Reverse(path) == path;
  }

  // ---------------------------------------------------------------------------
  // The block
  // ---------------------------------------------------------------------------

  /** `{message0, args0, ...restDef}`: what `jsonInit` receives. */
  function RestDefinition<J>(def: map<string, J>): (rest: map<string, J>)
    ensures forall key :: key in rest <==> key in def && key != "message0" && key != "args0"
    ensures forall key :: key in rest ==> rest[key] == def[key]
  {
    map key | key in def && key != "message0" && key != "args0" :: def[key]
  }

  /** Against the plugin copy's filter (`GroupPlugin.MessageOrArgsKey`): every key the
      plugin forwards is forwarded here too, and of the `messageN`/`argsN` keys, which
      the plugin drops, this copy forwards all but `message0` and `args0`, so a
      `message1` reaches `jsonInit`. */
  lemma RestAgainstPluginFilter<J>(def: map<string, J>)
    ensures forall key :: key in def && !MessageOrArgsKey(key) ==> key in RestDefinition(def)
    ensures forall key ::
      (key in RestDefinition(def) && MessageOrArgsKey(key)
       <==> key in def && MessageOrArgsKey(key) && key != "message0" && key != "args0")
    ensures "message1" in def ==> "message1" in RestDefinition(def) && MessageOrArgsKey("message1")
  {
    assert "message0"[..7] == "message" && AllDigits("message0"[7..]);
    assert "args0"[..4] == "args" && AllDigits("args0"[4..]);
    assert "message1"[..7] == "message" && AllDigits("message1"[7..]);
  }

  /** One iteration of the `parseNodes_` loop, the group start's write going through
      `getCurrGroupStates` along the path in the given order (`false`: as written). */
  method SeedStep(x: Seeding, e: Element, host: Host, outermostFirst: bool) returns (r: Result<Seeding>)
    ensures r == SeededFeed(x, e, host, outermostFirst)
  {
    if e.kind == GroupStartType {
      if !HasTop(x.b) {
        return Crash(StackEmptyError);
      }
      var b1 := OpenNewGroup(x.b);
      var path := SeedPath(x.b, outermostFirst);
      var st := NewGroupState(Uid(x.next));
      SetAtFound(x.states, path, b1.open[0].idx, st);
      var curr := GetCurrGroupStates(x.states, path);
      if curr.Crash? {
        return Crash(curr.reason);
      }
      r := Ok(Seeding(b1, SetAt(x.states, path, b1.open[0].idx, st).value, x.next + 1));
    } else {
      var fed := Feed(x.b, e, host);
      if fed.Crash? {
        return Crash(fed.reason);
      }
      r := Ok(x.(b := fed.value));
    }
  }

  /** The `parseNodes_` loop over the elements, from a fresh stack and empty states. */
  method SeedNodes(es: seq<Element>, host: Host, next: nat, outermostFirst: bool) returns (r: Result<Seeding>)
    ensures r == SeededFeedAll(Seeding(Fresh, map[], next), es, host, outermostFirst)
  {
    var x := Seeding(Fresh, map[], next);
    ghost var start := x;
    var i := 0;
    while i < |es|
      invariant 0 <= i <= |es|
      invariant SeededFeedAll(x, es[i..], host, outermostFirst) == SeededFeedAll(start, es, host, outermostFirst)
    {
      assert es[i..][0] == es[i] && es[i..][1..] == es[i + 1..];
      var step := SeedStep(x, es[i], host, outermostFirst);
      if step.Crash? {
        return Crash(step.reason);
      }
      x := step.value;
      i := i + 1;
    }
    assert es[i..] == [];
    r := Ok(x);
  }

  /** The with-group block's parse state: the tree, the group states, selection and
      the `uid()` supply. Its `onChange_` and `render_` are the shared walk and render,
      the placeholder drawn without looking at the shadow context. */
  class WithGroupBlock {
    var root: seq<Node>
    var groups: GroupStates
    var isSelected: bool
    var nextUid: nat

    constructor ()
      ensures root == [] && groups == map[] && !isSelected && nextUid == 0
    {
      root := [];
      groups := map[];
      isSelected := false;
      nextUid := 0;
    }

    /** `parseNodes_({message0, args0})` as written: each group's state is written
        along its ancestors' positions innermost first, walked from the root. */
    method ParseNodes(message0: string, args0: Option<seq<Arg>>, table: StringTable, host: Host)
      returns (error: Option<string>)
      modifies this
      ensures error.None? ==> SeededParseAsWritten(message0, args0, table, host, old(nextUid)) == Ok((root, groups, nextUid))
      ensures error.Some? ==> SeededParseAsWritten(message0, args0, table, host, old(nextUid)) == Crash(error.value)
      ensures error.Some? ==> root == old(root) && groups == old(groups) && nextUid == old(nextUid)
      ensures isSelected == old(isSelected)
    {
      if args0.None? {
        return Some("Cannot read properties of undefined (reading 'length')");
      }
      var args := args0.value;
      var tokens := TokenizeInterpolationWithGroups(message0, table);
      if !ArgsInRange(tokens, |args|) {
        return Some("Message index out of range.");
      }
      var elements := InterpolateArgumentsWithGroup(tokens, args, None, host);
      if elements.Crash? {
        return Some(elements.reason);
      }
      var seeded := SeedNodes(elements.value, host, nextUid, false);
      if seeded.Crash? {
        return Some(seeded.reason);
      }
      var x := seeded.value;
      root := CloseAll(x.b);
      groups := x.states;
      nextUid := x.next;
      error := None;
    }
  }
}
