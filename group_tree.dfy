// The tree builder shared by both copies of the group engine: the interpolated
// element list becomes a root / group / input / field tree.
module GroupTree {
  import opened Std
  import opened Interpolation

  /** `?` (zero or one instance) or `*` (zero or more). */
  datatype Tag = Optional | Repeated

  /** A parsed node. Every kind carries `children`, as in the source; a field's is empty. */
  datatype Node =
    | Root(children: seq<Node>)
    | Group(idx: nat, tag: Tag, children: seq<Node>)
    | Input(options: Element, children: seq<Node>)
    | Field(options: Element, children: seq<Node>)

  /** A group still on the stack: its position in its parent and its children so far. */
  datatype OpenGroup = OpenGroup(idx: nat, children: seq<Node>)

  /** The builder's state. The source's stack is `open` (innermost first) followed by the
      root while `rootOnStack` holds; an unmatched `]` shifts the root off. A group is
      pushed into its parent when it opens; the parent is untouched while the group is
      open, so the model appends the finished group to the parent when it closes. */
  datatype Builder = Builder(root: seq<Node>, rootOnStack: bool, open: seq<OpenGroup>, buffer: seq<Node>)

  const StackEmptyError: string := "Cannot read properties of undefined (reading 'children')"

  /** `flushFieldBuffer()`: the pending fields wrapped in an anonymous `input_dummy`. */
  function FlushFieldBuffer(buffer: seq<Node>): Node {
    Input(Element(DummyType, None, None, None), buffer)
  }

  /** `stack[0]` exists. */
  predicate HasTop(b: Builder) {
    |b.open| > 0 || b.rootOnStack
  }

  /** `stack[0].children`: the innermost open group's, else the root's. */
  function Current(b: Builder): seq<Node> {
    if |b.open| > 0 then b.open[0].children else b.root
  }

  /** `stack[0].children.push(n)`. */
  function Append(b: Builder, n: Node): Builder {
    if |b.open| > 0 then b.(open := [b.open[0].(children := b.open[0].children + [n])] + b.open[1..])
    else b.(root := b.root + [n])
  }

  /** `element.tag === '*' ? '*' : '?'`. */
  function TagOf(e: Element): Tag {
    if e.tag == Some("*") then Repeated else Optional
  }

  /** A field element: neither a group marker nor an input. */
  predicate IsFieldElement(e: Element, host: Host) {
    !IsGroupMarker(e) && !host.isInput(e.kind)
  }

  /** A group start: pending fields are flushed into the current container, then a
      group is opened at the next position there. */
  function OpenNewGroup(b: Builder): Builder {
    var b1 := if |b.buffer| > 0 then Append(b, FlushFieldBuffer(b.buffer)).(buffer := []) else b;
    b1.(open := [OpenGroup(|Current(b1)|, [])] + b1.open)
  }

  /** A group end with a group open: the innermost group takes the pending fields and
      its tag, and is appended to its parent. */
  function CloseGroup(b: Builder, tag: Tag): Builder
    requires |b.open| > 0
  {
    Append(b.(open := b.open[1..], buffer := []), ClosedGroup(b, tag))
  }

  function ClosedGroup(b: Builder, tag: Tag): Node
    requires |b.open| > 0
  {
    var g := b.open[0];
    Group(g.idx, tag, if |b.buffer| > 0 then g.children + [FlushFieldBuffer(b.buffer)] else g.children)
  }

  /** One iteration of the builder loop. */
  function Feed(b: Builder, e: Element, host: Host): Result<Builder> {
    if e.kind == GroupStartType then
      if !HasTop(b) then Crash(StackEmptyError)
      else
        Ok(OpenNewGroup(b))
    else if e.kind == GroupEndType then
      if |b.open| == 0 then Ok(b.(rootOnStack := false))
      else
        Ok(CloseGroup(b, TagOf(e)))
    else if host.isInput(e.kind) then
      if !HasTop(b) then Crash(StackEmptyError)
      else Ok(Append(b, Input(e, b.buffer)).(buffer := []))
    else Ok(b.(buffer := b.buffer + [Field(e, [])]))
  }

  function FeedAll(b: Builder, es: seq<Element>, host: Host): Result<Builder>
    decreases |es|
  {
    if es == [] then Ok(b)
    else match Feed(b, es[0], host)
      case Crash(reason) => Crash(reason)
      case Ok(b1) => FeedAll(b1, es[1..], host)
  }

  /** Groups left open at the end stay where they were pushed, tagged `?`. */
  function CloseAll(b: Builder): seq<Node>
    decreases |b.open|
  {
    if |b.open| == 0 then b.root
    else
      var g := b.open[0];
      CloseAll(Append(b.(open := b.open[1..]), Group(g.idx, Optional, g.children)))
  }

  const Fresh: Builder := Builder([], true, [], [])

  /** One message's elements added to the root's children. Fields still buffered at
      the end are dropped. */
  function Build(root: seq<Node>, es: seq<Element>, host: Host): Result<seq<Node>> {
    match FeedAll(Fresh.(root := root), es, host)
    case Crash(reason) => Crash(reason)
    case Ok(b) => Ok(CloseAll(b))
  }

  /** The source's loop over the elements, with the explicit stack and field buffer. */
  method BuildNodes(root: seq<Node>, elements: seq<Element>, host: Host) returns (r: Result<seq<Node>>)
    ensures r == Build(root, elements, host)
  {
    var b := Fresh.(root := root);
    var i := 0;
    while i < |elements|
      invariant 0 <= i <= |elements|
      invariant FeedAll(b, elements[i..], host) == FeedAll(Fresh.(root := root), elements, host)
    {
      assert elements[i..][1..] == elements[i + 1..];
      var element := elements[i];
      if element.kind == GroupStartType {
        if !HasTop(b) {
          return Crash(StackEmptyError);
        }
        if |b.buffer| > 0 {
          b := Append(b, FlushFieldBuffer(b.buffer)).(buffer := []);
        }
        var idx := |Current(b)|;
        b := b.(open := [OpenGroup(idx, [])] + b.open);
      } else if element.kind == GroupEndType {
        if |b.open| == 0 {
          b := b.(rootOnStack := false);
        } else {
          var group := b.open[0];
          b := b.(open := b.open[1..]);
          var children := group.children;
          if |b.buffer| > 0 {
            children := children + [FlushFieldBuffer(b.buffer)];
            b := b.(buffer := []);
          }
          b := Append(b, Group(group.idx, TagOf(element), children));
        }
      } else if host.isInput(element.kind) {
        if !HasTop(b) {
          return Crash(StackEmptyError);
        }
        b := Append(b, Input(element, b.buffer)).(buffer := []);
      } else {
        b := b.(buffer := b.buffer + [Field(element, [])]);
      }
      i := i + 1;
    }
    assert elements[i..] == [];
    r := Ok(CloseAll(b));
  }

  // ---------------------------------------------------------------------------
  // Shape: fields sit inside inputs, and a group's idx is its position
  // ---------------------------------------------------------------------------

  predicate FieldsOnly(ns: seq<Node>) {
    forall k :: 0 <= k < |ns| ==> ns[k].Field? && ns[k].children == []
  }

  /** Children of a root or group: inputs holding only fields, and groups whose `idx`
      is their position and whose children are well formed in turn. */
  predicate WellFormed(ns: seq<Node>)
    decreases ns
  {
    forall k :: 0 <= k < |ns| ==>
      (ns[k].Input? && FieldsOnly(ns[k].children))
      || (ns[k].Group? && ns[k].idx == k && WellFormed(ns[k].children))
  }

  function ParentOf(b: Builder, k: nat): seq<Node>
    requires k < |b.open|
  {
    if k + 1 < |b.open| then b.open[k + 1].children else b.root
  }

  predicate BuilderOk(b: Builder) {
    && WellFormed(b.root)
    && FieldsOnly(b.buffer)
    && (|b.open| > 0 ==> b.rootOnStack)
    && forall k :: 0 <= k < |b.open| ==>
         WellFormed(b.open[k].children) && b.open[k].idx == |ParentOf(b, k)|
  }

  lemma WellFormedAppend(ns: seq<Node>, n: Node)
    requires WellFormed(ns)
    requires (n.Input? && FieldsOnly(n.children)) || (n.Group? && n.idx == |ns| && WellFormed(n.children))
    ensures WellFormed(ns + [n])
  {
    assert forall k :: 0 <= k < |ns| ==> (ns + [n])[k] == ns[k];
  }

  lemma AppendOk(b: Builder, n: Node)
    requires BuilderOk(b)
    requires (n.Input? && FieldsOnly(n.children)) || (n.Group? && n.idx == |Current(b)| && WellFormed(n.children))
    ensures BuilderOk(Append(b, n))
  {
    WellFormedAppend(Current(b), n);
    var b' := Append(b, n);
    if |b.open| > 0 {
      assert forall k :: 1 <= k < |b.open| ==> b'.open[k] == b.open[k];
      assert forall k :: 0 <= k < |b.open| ==> ParentOf(b', k) == ParentOf(b, k);
    }
  }

  lemma FlushOk(b: Builder)
    requires BuilderOk(b) && HasTop(b)
    ensures BuilderOk(if |b.buffer| > 0 then Append(b, FlushFieldBuffer(b.buffer)).(buffer := []) else b)
  {
    if |b.buffer| > 0 {
      AppendOk(b, FlushFieldBuffer(b.buffer));
    }
  }

  lemma PushOpenOk(b: Builder)
    requires BuilderOk(b) && HasTop(b)
    ensures BuilderOk(b.(open := [OpenGroup(|Current(b)|, [])] + b.open))
  {
    var b2 := b.(open := [OpenGroup(|Current(b)|, [])] + b.open);
    assert forall k :: 1 <= k < |b2.open| ==> b2.open[k] == b.open[k - 1] && ParentOf(b2, k) == ParentOf(b, k - 1);
  }

  lemma OpenNewGroupOk(b: Builder)
    requires BuilderOk(b) && HasTop(b)
    ensures BuilderOk(OpenNewGroup(b))
  {
    FlushOk(b);
    PushOpenOk(if |b.buffer| > 0 then Append(b, FlushFieldBuffer(b.buffer)).(buffer := []) else b);
  }

  lemma CloseGroupOk(b: Builder, tag: Tag)
    requires BuilderOk(b) && |b.open| > 0
    ensures BuilderOk(CloseGroup(b, tag))
  {
    var g := b.open[0];
    if |b.buffer| > 0 {
      WellFormedAppend(g.children, FlushFieldBuffer(b.buffer));
    }
    var b1 := b.(open := b.open[1..], buffer := []);
    assert BuilderOk(b1) by {
      assert forall k :: 0 <= k < |b1.open| ==> b1.open[k] == b.open[k + 1] && ParentOf(b1, k) == ParentOf(b, k + 1);
    }
    AppendOk(b1, ClosedGroup(b, tag));
  }

  lemma FeedOk(b: Builder, e: Element, host: Host)
    requires BuilderOk(b)
    ensures Feed(b, e, host).Ok? ==> BuilderOk(Feed(b, e, host).value)
  {
    if e.kind == GroupStartType {
      if HasTop(b) {
        OpenNewGroupOk(b);
      }
    } else if e.kind == GroupEndType {
      if |b.open| > 0 {
        CloseGroupOk(b, TagOf(e));
      }
    } else if host.isInput(e.kind) {
      if HasTop(b) {
        AppendOk(b, Input(e, b.buffer));
      }
    } else {
      assert forall k :: 0 <= k < |b.buffer| ==> (b.buffer + [Field(e, [])])[k] == b.buffer[k];
    }
  }

  lemma {:induction false} FeedAllOk(b: Builder, es: seq<Element>, host: Host)
    requires BuilderOk(b)
    ensures FeedAll(b, es, host).Ok? ==> BuilderOk(FeedAll(b, es, host).value)
    decreases |es|
  {
    if es != [] {
      FeedOk(b, es[0], host);
      if Feed(b, es[0], host).Ok? {
        FeedAllOk(Feed(b, es[0], host).value, es[1..], host);
      }
    }
  }

  lemma {:induction false} CloseAllOk(b: Builder)
    requires BuilderOk(b)
    ensures WellFormed(CloseAll(b))
    decreases |b.open|
  {
    if |b.open| > 0 {
      var g := b.open[0];
      var b1 := b.(open := b.open[1..]);
      assert forall k :: 0 <= k < |b1.open| ==> b1.open[k] == b.open[k + 1] && ParentOf(b1, k) == ParentOf(b, k + 1);
      AppendOk(b1, Group(g.idx, Optional, g.children));
      CloseAllOk(Append(b1, Group(g.idx, Optional, g.children)));
    }
  }

  /** The builder only ever appends to the root: a step keeps what the root held. */
  lemma FeedExtends(b: Builder, e: Element, host: Host)
    ensures Feed(b, e, host).Ok? ==> b.root <= Feed(b, e, host).value.root
  {
    if e.kind == GroupStartType && HasTop(b) && |b.buffer| > 0 {
      assert b.root <= Append(b, FlushFieldBuffer(b.buffer)).root;
    }
  }

  lemma {:induction false} FeedAllExtends(b: Builder, es: seq<Element>, host: Host)
    ensures FeedAll(b, es, host).Ok? ==> b.root <= FeedAll(b, es, host).value.root
    decreases |es|
  {
    if es != [] {
      FeedExtends(b, es[0], host);
      if Feed(b, es[0], host).Ok? {
        FeedAllExtends(Feed(b, es[0], host).value, es[1..], host);
      }
    }
  }

  lemma {:induction false} CloseAllExtends(b: Builder)
    ensures b.root <= CloseAll(b)
    decreases |b.open|
  {
    if |b.open| > 0 {
      var g := b.open[0];
      var b1 := Append(b.(open := b.open[1..]), Group(g.idx, Optional, g.children));
      assert b.root <= b1.root;
      CloseAllExtends(b1);
    }
  }

  /** A message adds to the root's children and never rewrites them: the children
      before it are a prefix of those after it. */
  lemma BuildExtends(root: seq<Node>, es: seq<Element>, host: Host)
    ensures Build(root, es, host).Ok? ==> root <= Build(root, es, host).value
  {
    FeedAllExtends(Fresh.(root := root), es, host);
    if FeedAll(Fresh.(root := root), es, host).Ok? {
      CloseAllExtends(FeedAll(Fresh.(root := root), es, host).value);
    }
  }

  /** Whatever the elements, a successful build keeps every field inside an input and
      gives every group its position in its parent as `idx`. */
  lemma BuildWellFormed(root: seq<Node>, es: seq<Element>, host: Host)
    requires WellFormed(root)
    ensures Build(root, es, host).Ok? ==> WellFormed(Build(root, es, host).value)
  {
    FeedAllOk(Fresh.(root := root), es, host);
    if FeedAll(Fresh.(root := root), es, host).Ok? {
      CloseAllOk(FeedAll(Fresh.(root := root), es, host).value);
    }
  }

  // ---------------------------------------------------------------------------
  // Fields: kept in order, none lost when the message ends with an input
  // ---------------------------------------------------------------------------

  /** The fields of a forest in document order. */
  function FieldsOf(ns: seq<Node>): seq<Element>
    decreases ns
  {
    if ns == [] then [] else FieldsOf(ns[..|ns| - 1]) + NodeFields(ns[|ns| - 1])
  }

  function NodeFields(n: Node): seq<Element>
    decreases n
  {
    if n.Field? then [n.options] else FieldsOf(n.children)
  }

  /** The field elements of an element list, in order. */
  function FieldElements(es: seq<Element>, host: Host): seq<Element> {
    if es == [] then []
    else (if IsFieldElement(es[0], host) then [es[0]] else []) + FieldElements(es[1..], host)
  }

  /** The open groups' fields, outermost group first. */
  function OpenFields(open: seq<OpenGroup>): seq<Element> {
    if open == [] then [] else OpenFields(open[1..]) + FieldsOf(open[0].children)
  }

  /** The fields already placed in the tree, in the order the finished tree lists them. */
  function TreeFields(b: Builder): seq<Element> {
    FieldsOf(b.root) + OpenFields(b.open)
  }

  /** Every field the builder holds: the placed ones, then the buffered ones. */
  function BuilderFields(b: Builder): seq<Element> {
    TreeFields(b) + FieldsOf(b.buffer)
  }

  lemma FieldsOfAppend(ns: seq<Node>, n: Node)
    ensures FieldsOf(ns + [n]) == FieldsOf(ns) + NodeFields(n)
  {
    assert (ns + [n])[..|ns|] == ns;
  }

  lemma AppendFields(b: Builder, n: Node)
    ensures Append(b, n).buffer == b.buffer
    ensures TreeFields(Append(b, n)) == TreeFields(b) + NodeFields(n)
  {
    var b' := Append(b, n);
    FieldsOfAppend(Current(b), n);
    if |b.open| > 0 {
      assert b'.open[1..] == b.open[1..];
      Regroup3(FieldsOf(b.root), OpenFields(b.open[1..]), FieldsOf(b.open[0].children), NodeFields(n));
    }
  }

  lemma Regroup3(r: seq<Element>, o: seq<Element>, g: seq<Element>, n: seq<Element>)
    ensures r + (o + (g + n)) == r + (o + g) + n
  {
  }

  lemma OpenNewGroupFields(b: Builder)
    ensures BuilderFields(OpenNewGroup(b)) == BuilderFields(b)
  {
    var b1 := if |b.buffer| > 0 then Append(b, FlushFieldBuffer(b.buffer)).(buffer := []) else b;
    assert BuilderFields(b1) == BuilderFields(b) by {
      if |b.buffer| > 0 {
        AppendFields(b, FlushFieldBuffer(b.buffer));
      }
    }
    var b2 := b1.(open := [OpenGroup(|Current(b1)|, [])] + b1.open);
    assert b2.open[1..] == b1.open;
    assert TreeFields(b2) == TreeFields(b1);
  }

  lemma ClosedGroupFields(b: Builder, tag: Tag)
    requires |b.open| > 0
    ensures NodeFields(ClosedGroup(b, tag)) == FieldsOf(b.open[0].children) + FieldsOf(b.buffer)
  {
    if |b.buffer| > 0 {
      FieldsOfAppend(b.open[0].children, FlushFieldBuffer(b.buffer));
    }
  }

  lemma CloseGroupFields(b: Builder, tag: Tag)
    requires |b.open| > 0
    ensures BuilderFields(CloseGroup(b, tag)) == BuilderFields(b)
  {
    var b1 := b.(open := b.open[1..], buffer := []);
    ClosedGroupFields(b, tag);
    AppendFields(b1, ClosedGroup(b, tag));
    assert FieldsOf(b1.buffer) == [];
    Regroup(FieldsOf(b.root), OpenFields(b1.open), FieldsOf(b.open[0].children), FieldsOf(b.buffer));
  }

  lemma Regroup(r: seq<Element>, o: seq<Element>, g: seq<Element>, f: seq<Element>)
    ensures r + o + (g + f) + [] == r + (o + g) + f
  {
  }

  lemma FeedFields(b: Builder, e: Element, host: Host)
    requires Feed(b, e, host).Ok?
    ensures BuilderFields(Feed(b, e, host).value)
         == BuilderFields(b) + (if IsFieldElement(e, host) then [e] else [])
  {
    if e.kind == GroupStartType {
      OpenNewGroupFields(b);
    } else if e.kind == GroupEndType {
      if |b.open| > 0 {
        CloseGroupFields(b, TagOf(e));
      }
    } else if host.isInput(e.kind) {
      AppendFields(b, Input(e, b.buffer));
    } else {
      FieldsOfAppend(b.buffer, Field(e, []));
    }
  }

  lemma {:induction false} FeedAllFields(b: Builder, es: seq<Element>, host: Host)
    requires FeedAll(b, es, host).Ok?
    ensures BuilderFields(FeedAll(b, es, host).value) == BuilderFields(b) + FieldElements(es, host)
    decreases |es|
  {
    if es != [] {
      FeedFields(b, es[0], host);
      FeedAllFields(Feed(b, es[0], host).value, es[1..], host);
    }
  }

  lemma {:induction false} CloseAllFields(b: Builder)
    ensures FieldsOf(CloseAll(b)) == TreeFields(b)
    decreases |b.open|
  {
    if |b.open| > 0 {
      var g := b.open[0];
      var b1 := b.(open := b.open[1..]);
      AppendFields(b1, Group(g.idx, Optional, g.children));
      CloseAllFields(Append(b1, Group(g.idx, Optional, g.children)));
    }
  }

  /** A group marker never changes an empty field buffer. */
  lemma {:induction false} MarkersKeepBufferEmpty(b: Builder, es: seq<Element>, host: Host)
    requires b.buffer == []
    requires forall k :: 0 <= k < |es| ==> IsGroupMarker(es[k])
    requires FeedAll(b, es, host).Ok?
    ensures FeedAll(b, es, host).value.buffer == []
    decreases |es|
  {
    if es != [] {
      MarkersKeepBufferEmpty(Feed(b, es[0], host).value, es[1..], host);
    }
  }

  lemma {:induction false} LastNonGroupCons(e: Element, es: seq<Element>)
    ensures LastNonGroup([e] + es) == if LastNonGroup(es).Some? then LastNonGroup(es)
                                      else if IsGroupMarker(e) then None else Some(e)
    decreases |es|
  {
    var all := [e] + es;
    if es == [] {
      assert all == [e] && all[..0] == [];
    } else {
      var last := |es| - 1;
      assert all[|all| - 1] == es[last];
      assert all[..|all| - 1] == [e] + es[..last];
      if IsGroupMarker(es[last]) {
        LastNonGroupCons(e, es[..last]);
      }
    }
  }

  /** When the last non-group element is an input, nothing is left in the buffer. */
  lemma {:induction false} EndsWithInputEmptiesBuffer(b: Builder, es: seq<Element>, host: Host)
    requires LastNonGroup(es).Some? && host.isInput(LastNonGroup(es).value.kind)
    requires FeedAll(b, es, host).Ok?
    ensures FeedAll(b, es, host).value.buffer == []
    decreases |es|
  {
    var e := es[0];
    var rest := es[1..];
    assert es == [e] + rest;
    LastNonGroupCons(e, rest);
    var b1 := Feed(b, e, host).value;
    if LastNonGroup(rest).Some? {
      EndsWithInputEmptiesBuffer(b1, rest, host);
    } else {
      assert LastNonGroup(es) == Some(e);
      assert b1.buffer == [];
      MarkersKeepBufferEmpty(b1, rest, host);
    }
  }

  /** Built from an element list whose last non-group element is an input (which is
      what the interpolator produces), the tree lists exactly the root's old fields
      followed by the field elements, in order. Without that, it lists a prefix. */
  lemma BuildKeepsFields(root: seq<Node>, es: seq<Element>, host: Host)
    requires Build(root, es, host).Ok?
    ensures FieldsOf(Build(root, es, host).value) <= FieldsOf(root) + FieldElements(es, host)
    ensures LastNonGroup(es).Some? && host.isInput(LastNonGroup(es).value.kind) ==>
      FieldsOf(Build(root, es, host).value) == FieldsOf(root) + FieldElements(es, host)
  {
    var b0 := Fresh.(root := root);
    var b := FeedAll(b0, es, host).value;
    FeedAllFields(b0, es, host);
    CloseAllFields(b);
    assert BuilderFields(b0) == FieldsOf(root);
    if LastNonGroup(es).Some? && host.isInput(LastNonGroup(es).value.kind) {
      EndsWithInputEmptiesBuffer(b0, es, host);
    }
  }

  // ---------------------------------------------------------------------------
  // Group ends and the unmatched `]`
  // ---------------------------------------------------------------------------

  /** A group end closes the innermost open group: the closed group keeps the position
      it was opened at, is tagged `*` exactly when the element's tag is `"*"`, takes the
      pending fields after its own, and is appended to the container that is now
      innermost; the buffer is left empty. */
  lemma GroupEndCloses(b: Builder, e: Element, host: Host)
    requires e.kind == GroupEndType && |b.open| > 0
    ensures Feed(b, e, host) == Ok(CloseGroup(b, TagOf(e)))
    ensures var closed := ClosedGroup(b, TagOf(e));
      && closed.idx == b.open[0].idx
      && (closed.tag == Repeated <==> e.tag == Some("*"))
      && NodeFields(closed) == FieldsOf(b.open[0].children) + FieldsOf(b.buffer)
    ensures var after := CloseGroup(b, TagOf(e));
      var closed := ClosedGroup(b, TagOf(e));
      && (|b.open| == 1 ==> after.open == [] && after.root == b.root + [closed])
      && (|b.open| > 1 ==> |after.open| == |b.open| - 1 && after.open[1..] == b.open[2..]
                           && after.open[0].children == b.open[1].children + [closed])
    ensures CloseGroup(b, TagOf(e)).buffer == []
  {
    ClosedGroupFields(b, TagOf(e));
  }

  /** An unmatched `]` shifts the root off the stack and is otherwise skipped, and a
      later input then has no container. */
  lemma UnmatchedGroupEnd(b: Builder, e: Element, input: Element, host: Host)
    requires e.kind == GroupEndType && |b.open| == 0
    requires input.kind != GroupStartType && input.kind != GroupEndType && host.isInput(input.kind)
    ensures Feed(b, e, host) == Ok(b.(rootOnStack := false))
    ensures FeedAll(b, [e, input], host).Crash?
  {
    assert [e, input][1..] == [input];
  }

  /** `"[%1]*"` with a field argument: the repeatable group holds the field in an
      anonymous dummy input, and the trailing dummy input follows it in the root. */
  lemma RepeatedGroupTree(f: Element, host: Host)
    requires IsFieldElement(f, host) && host.isInput(DummyType)
    ensures var start := Element(GroupStartType, None, None, None);
      var end := Element(GroupEndType, None, Some("*"), None);
      var dummy := Element(DummyType, None, None, None);
      Build([], [start, f, end, dummy], host)
        == Ok([Group(0, Repeated, [FlushFieldBuffer([Field(f, [])])]), Input(dummy, [])])
  {
    var start := Element(GroupStartType, None, None, None);
    var end := Element(GroupEndType, None, Some("*"), None);
    var dummy := Element(DummyType, None, None, None);
    var es := [start, f, end, dummy];
    var b0 := Fresh;
    var b1 := Builder([], true, [OpenGroup(0, [])], []);
    var b2 := Builder([], true, [OpenGroup(0, [])], [Field(f, [])]);
    var b3 := Builder([Group(0, Repeated, [FlushFieldBuffer([Field(f, [])])])], true, [], []);
    var b4 := Builder([Group(0, Repeated, [FlushFieldBuffer([Field(f, [])])]), Input(dummy, [])], true, [], []);
    assert Feed(b0, start, host) == Ok(b1) by {
      assert b0.buffer == [] && b0.open == [] && b0.root == [] && b0.rootOnStack;
      assert [OpenGroup(0, [])] + [] == [OpenGroup(0, [])];
    }
    assert Feed(b1, f, host) == Ok(b2) by {
      assert f.kind != GroupStartType && f.kind != GroupEndType && !host.isInput(f.kind);
      assert [] + [Field(f, [])] == [Field(f, [])];
    }
    assert Feed(b2, end, host) == Ok(b3) by {
      assert CloseGroup(b2, Repeated) == b3 by {
        assert ClosedGroup(b2, Repeated) == Group(0, Repeated, [FlushFieldBuffer([Field(f, [])])]);
        assert [] + [ClosedGroup(b2, Repeated)] == [ClosedGroup(b2, Repeated)];
      }
    }
    assert Feed(b3, dummy, host) == Ok(b4) by {
      assert dummy.kind != GroupStartType && dummy.kind != GroupEndType;
      assert b3.root + [Input(dummy, [])] == b4.root;
    }
    assert es[1..] == [f, end, dummy] && es[1..][1..] == [end, dummy] && es[1..][1..][1..] == [dummy];
    assert FeedAll(b3, [dummy], host) == Ok(b4) by {
      assert [dummy][1..] == [];
    }
    assert FeedAll(b2, [end, dummy], host) == Ok(b4);
    assert FeedAll(b1, [f, end, dummy], host) == Ok(b4);
    assert FeedAll(b0, es, host) == Ok(b4);
  }
}
