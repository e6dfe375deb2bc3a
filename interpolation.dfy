// The interpolator shared by both copies of the group engine: tokens and arguments
// become the element list the tree builder consumes.
module Interpolation {
  import opened Std
  import opened Text
  import opened Parsing

  /** A block-definition JSON object, reduced to the keys the group engine reads:
      `type`, `name`, a group end's `tag` and an input's `align`. */
  datatype Element = Element(kind: string, name: Option<string>, tag: Option<string>, align: Option<string>)

  const GroupStartType: string := "group_start"
  const GroupEndType: string := "group_end"
  const EndRowType: string := "input_end_row"
  const DummyType: string := "input_dummy"

  /** An entry of `argsN`: either a string (interpolated like message text) or an object. */
  datatype Arg = ArgText(text: string) | ArgObject(obj: Element)

  /** The host's `stringToFieldJson_` (None for a falsy result) and `isInputKeyword_`. */
  datatype Host = Host(toField: string -> Option<Element>, isInput: string -> bool)

  /** `if (implicitAlign)`: only a non-empty string is set on the generated inputs. */
  function AlignKey(implicitAlign: Option<string>): Option<string> {
    if implicitAlign.Some? && implicitAlign.value != "" then implicitAlign else None
  }

  predicate IsGroupMarker(e: Element) {
    e.kind == GroupStartType || e.kind == GroupEndType
  }

  /** What one string (message text or a string argument) becomes; None means it is dropped. */
  function Classify(s: string, implicitAlign: Option<string>, host: Host): Option<Element> {
    if s == "\n" then Some(Element(EndRowType, None, None, AlignKey(implicitAlign)))
    else if s == GroupStart then Some(Element(GroupStartType, None, None, None))
    else if |s| > 0 && s[0] == GroupEnd then Some(Element(GroupEndType, None, Some(s[1..]), None))
    else host.toField(s)
  }

  /** The host's `validateTokens_` range check: every `%N` names one of the arguments. */
  predicate ArgsInRange(tokens: seq<Token>, argCount: nat) {
    forall k :: 0 <= k < |tokens| && tokens[k].Num? ==> 1 <= tokens[k].n <= argCount
  }

  function Image(t: Token, args: seq<Arg>, implicitAlign: Option<string>, host: Host): Option<Element>
    requires t.Num? ==> 1 <= t.n <= |args|
  {
    match t
    case Str(s) => Classify(s, implicitAlign, host)
    case Num(n) =>
      match args[n - 1]
      case ArgText(s) => Classify(s, implicitAlign, host)
      case ArgObject(e) => Some(e)
  }

  function OptionToSeq(o: Option<Element>): seq<Element> {
    if o.Some? then [o.value] else []
  }

  /** The forward pass: each token's image, in order, dropped ones left out. */
  function Elements(tokens: seq<Token>, args: seq<Arg>, implicitAlign: Option<string>, host: Host): seq<Element>
    requires ArgsInRange(tokens, |args|)
  {
    if tokens == [] then []
    else
      var last := |tokens| - 1;
      Elements(tokens[..last], args, implicitAlign, host) + OptionToSeq(Image(tokens[last], args, implicitAlign, host))
  }

  /** The last element that is not a group marker, if any. */
  function LastNonGroup(es: seq<Element>): (r: Option<Element>)
    ensures r.Some? <==> exists k :: 0 <= k < |es| && !IsGroupMarker(es[k])
    ensures r.Some? ==> r.value in es && !IsGroupMarker(r.value)
  {
    if es == [] then None
    else if !IsGroupMarker(es[|es| - 1]) then Some(es[|es| - 1])
    else
      var r := LastNonGroup(es[..|es| - 1]);
      assert forall k :: 0 <= k < |es| - 1 ==> es[..|es| - 1][k] == es[k];
      r
  }

  /** `interpolateArgumentsWithGroup_` as a value: the element list with a trailing
      `input_dummy` when the last non-group element is not an input, or the `TypeError`
      raised when every element is a group marker. */
  function Interpolated(tokens: seq<Token>, args: seq<Arg>, implicitAlign: Option<string>, host: Host): Result<seq<Element>>
    requires ArgsInRange(tokens, |args|)
  {
    var es := Elements(tokens, args, implicitAlign, host);
    if |es| == 0 then Ok(es)
    else match LastNonGroup(es)
      case None => Crash("Cannot read properties of undefined (reading 'type')")
      case Some(e) =>
        if host.isInput(e.kind) then Ok(es)
        else Ok(es + [Element(DummyType, None, None, AlignKey(implicitAlign))])
  }

  /** The source's forward loop: each token's image pushed in turn. */
  method InterpolateTokens(tokens: seq<Token>, args: seq<Arg>, implicitAlign: Option<string>, host: Host)
    returns (elements: seq<Element>)
    requires ArgsInRange(tokens, |args|)
    ensures elements == Elements(tokens, args, implicitAlign, host)
  {
    elements := [];
    var i := 0;
    while i < |tokens|
      invariant 0 <= i <= |tokens|
      invariant ArgsInRange(tokens[..i], |args|)
      invariant elements == Elements(tokens[..i], args, implicitAlign, host)
    {
      assert tokens[..i + 1][..i] == tokens[..i];
      var element := Image(tokens[i], args, implicitAlign, host);
      if element.Some? {
        elements := elements + [element.value];
      }
      i := i + 1;
    }
    assert tokens[..i] == tokens;
  }

  /** The source's backward loop looking for the last non-group element. */
  method FindLastNoneGroupElement(elements: seq<Element>) returns (last: Option<Element>)
    ensures last == LastNonGroup(elements)
  {
    last := None;
    var j := |elements| - 1;
    assert elements[..j + 1] == elements;
    while j >= 0
      invariant -1 <= j < |elements|
      invariant LastNonGroup(elements) == LastNonGroup(elements[..j + 1])
    {
      if !IsGroupMarker(elements[j]) {
        last := Some(elements[j]);
        assert elements[..j + 1][j] == elements[j];
        return;
      }
      assert elements[..j + 1][..j] == elements[..j];
      j := j - 1;
    }
  }

  /** `interpolateArgumentsWithGroup_`: both loops, then the trailing `input_dummy`. */
  method InterpolateArgumentsWithGroup(tokens: seq<Token>, args: seq<Arg>, implicitAlign: Option<string>, host: Host)
    returns (r: Result<seq<Element>>)
    requires ArgsInRange(tokens, |args|)
    ensures r == Interpolated(tokens, args, implicitAlign, host)
  {
    var elements := InterpolateTokens(tokens, args, implicitAlign, host);
    var lastNoneGroupElement := FindLastNoneGroupElement(elements);
    if |elements| > 0 {
      if lastNoneGroupElement.None? {
        return Crash("Cannot read properties of undefined (reading 'type')");
      }
      if !host.isInput(lastNoneGroupElement.value.kind) {
        elements := elements + [Element(DummyType, None, None, AlignKey(implicitAlign))];
      }
    }
    r := Ok(elements);
  }

  // ---------------------------------------------------------------------------
  // Properties
  // ---------------------------------------------------------------------------

  /** The forward pass is a homomorphism over concatenation of token lists. */
  lemma {:induction false} ElementsAppend(a: seq<Token>, b: seq<Token>, args: seq<Arg>, implicitAlign: Option<string>, host: Host)
    requires ArgsInRange(a, |args|) && ArgsInRange(b, |args|)
    ensures ArgsInRange(a + b, |args|)
    ensures Elements(a + b, args, implicitAlign, host)
         == Elements(a, args, implicitAlign, host) + Elements(b, args, implicitAlign, host)
    decreases |b|
  {
    assert forall k :: 0 <= k < |a + b| ==> (a + b)[k] == if k < |a| then a[k] else b[k - |a|];
    if b != [] {
      var last := |b| - 1;
      assert (a + b)[..|a + b| - 1] == a + b[..last];
      assert ArgsInRange(b[..last], |args|) by {
        assert forall k :: 0 <= k < last ==> b[..last][k] == b[k];
      }
      ElementsAppend(a, b[..last], args, implicitAlign, host);
    } else {
      assert a + b == a;
    }
  }

  /** Message text from the tokenizer: brackets, newlines and `]*` always become
      markers and end-row inputs, and plain text is handed to the field conversion. */
  lemma TokenImage(t: Token, args: seq<Arg>, implicitAlign: Option<string>, host: Host)
    requires TokenOk(t) && t.Str?
    ensures t.s == "[" ==> Image(t, args, implicitAlign, host) == Some(Element(GroupStartType, None, None, None))
    ensures t.s == "]" ==> Image(t, args, implicitAlign, host) == Some(Element(GroupEndType, None, Some(""), None))
    ensures t.s == "]*" ==> Image(t, args, implicitAlign, host) == Some(Element(GroupEndType, None, Some("*"), None))
    ensures t.s == "\n" ==> Image(t, args, implicitAlign, host) == Some(Element(EndRowType, None, None, AlignKey(implicitAlign)))
    ensures PlainText(t.s) ==> Image(t, args, implicitAlign, host) == host.toField(t.s)
  {
    if t.s == "]*" {
      assert t.s[1..] == "*";
    } else if t.s == "]" {
      assert t.s[1..] == "";
    } else if PlainText(t.s) {
      assert t.s != "\n" by {
        if t.s == "\n" {
          assert IsBlank(t.s[1..]);
        }
      }
      assert t.s != GroupStart && t.s[0] != GroupEnd;
    }
  }

  /** The result is the forward pass, followed by exactly one `input_dummy` carrying
      the implicit alignment exactly when the pass is non-empty and its last non-marker
      element is not an input; a crash happens exactly when every element is a group
      marker. */
  lemma InterpolatedShape(tokens: seq<Token>, args: seq<Arg>, implicitAlign: Option<string>, host: Host)
    requires ArgsInRange(tokens, |args|)
    ensures var es := Elements(tokens, args, implicitAlign, host);
      var r := Interpolated(tokens, args, implicitAlign, host);
      && (r.Crash? <==> |es| > 0 && forall k :: 0 <= k < |es| ==> IsGroupMarker(es[k]))
      && (r.Ok? ==> r.value == es || r.value == es + [Element(DummyType, None, None, AlignKey(implicitAlign))])
      && (r.Ok? ==> (r.value == es + [Element(DummyType, None, None, AlignKey(implicitAlign))]
                     <==> |es| > 0 && !host.isInput(LastNonGroup(es).value.kind)))
      && (r.Ok? ==> (r.value == es <==> |es| == 0 || host.isInput(LastNonGroup(es).value.kind)))
  {
  }

  /** After a successful interpolation that added anything, the last non-group element
      is an input, as long as the host counts `input_dummy` as an input. */
  lemma EndsWithInput(tokens: seq<Token>, args: seq<Arg>, implicitAlign: Option<string>, host: Host)
    requires ArgsInRange(tokens, |args|)
    requires host.isInput(DummyType)
    requires Interpolated(tokens, args, implicitAlign, host).Ok?
    ensures var out := Interpolated(tokens, args, implicitAlign, host).value;
      out != [] ==> LastNonGroup(out).Some? && host.isInput(LastNonGroup(out).value.kind)
  {
    var es := Elements(tokens, args, implicitAlign, host);
    var out := Interpolated(tokens, args, implicitAlign, host).value;
    if out != es {
      var d := Element(DummyType, None, None, AlignKey(implicitAlign));
      assert out == es + [d];
      assert LastNonGroup(out) == Some(d);
    }
  }

  /** A message made only of group markers, such as `"[]"`, crashes the interpolator. */
  lemma OnlyMarkersCrash(args: seq<Arg>, implicitAlign: Option<string>, host: Host)
    ensures Interpolated([Str("["), Str("]")], args, implicitAlign, host).Crash?
  {
    var ts := [Str("["), Str("]")];
    assert ts[..1] == [Str("[")] && [Str("[")][..0] == [];
    assert Elements([], args, implicitAlign, host) == [];
    assert Elements([Str("[")], args, implicitAlign, host) == [Element(GroupStartType, None, None, None)];
    assert "]"[1..] == "";
    assert Elements(ts, args, implicitAlign, host)
        == [Element(GroupStartType, None, None, None), Element(GroupEndType, None, Some(""), None)];
  }
}
