// The plugin copy of the group engine: a block definition's `message0..N` parsed into
// one root and seeded afterwards, the block object whose state the walk replaces,
// and the definition factory with its key filter.
module GroupPlugin {
  import opened Std
  import opened Text
  import opened Parsing
  import opened Interpolation
  import opened GroupTree
  import opened GroupState
  import opened GroupRender

  // ---------------------------------------------------------------------------
  // Block definitions
  // ---------------------------------------------------------------------------

  /** The JSON values a block definition holds under the keys the engine reads. */
  datatype Json = JText(s: string) | JArgs(items: seq<Arg>) | JFalsy

  type JsonDef = map<string, Json>

  predicate Truthy(j: Json) {
    match j
    case JText(s) => s != ""
    case JArgs(_) => true
    case JFalsy => false
  }

  function MessageKey(i: nat): string { "message" + NatToString(i) }
  function ArgsKey(i: nat): string { "args" + NatToString(i) }
  function ImplicitAlignKey(i: nat): string { "implicitAlign" + NatToString(i) }
  function LastDummyAlignKey(i: nat): string { "lastDummyAlign" + NatToString(i) }

  /** What the engine needs of a definition: messages are strings, arguments are
      arrays (or absent or falsy), alignments are strings (or absent or falsy). */
  ghost predicate DefOk(def: JsonDef) {
    && (forall i: nat :: MessageKey(i) in def ==> def[MessageKey(i)].JText?)
    && (forall i: nat :: ArgsKey(i) in def ==> !(def[ArgsKey(i)].JText? && def[ArgsKey(i)].s != ""))
    && (forall i: nat :: ImplicitAlignKey(i) in def ==> !def[ImplicitAlignKey(i)].JArgs?)
    && (forall i: nat :: LastDummyAlignKey(i) in def ==> !def[LastDummyAlignKey(i)].JArgs?)
  }

  /** `jsonDef['args' + i] || []`. */
  function ArgsOf(def: JsonDef, i: nat): seq<Arg> {
    if ArgsKey(i) in def && def[ArgsKey(i)].JArgs? then def[ArgsKey(i)].items else []
  }

  /** `jsonDef['implicitAlign' + i] || jsonDef['lastDummyAlign' + i]`. */
  function AlignOf(def: JsonDef, i: nat): Option<string> {
    if ImplicitAlignKey(i) in def && Truthy(def[ImplicitAlignKey(i)]) && def[ImplicitAlignKey(i)].JText? then
      Some(def[ImplicitAlignKey(i)].s)
    else if LastDummyAlignKey(i) in def && def[LastDummyAlignKey(i)].JText? then
      Some(def[LastDummyAlignKey(i)].s)
    else None
  }

  // ---------------------------------------------------------------------------
  // parseMessage_ and parseNodes_
  // ---------------------------------------------------------------------------

  /** The range check of the host's `validateTokens_`. */
  const RangeError: string := "Message index out of range."

  /** `parseMessage_(message, args, implicitAlign)` on the root's children so far. */
  function ParsedMessage(root: seq<Node>, message: string, args: seq<Arg>, align: Option<string>,
                         table: StringTable, host: Host): Result<seq<Node>>
  {
    var tokens := Tokenize(message, table);
    if !ArgsInRange(tokens, |args|) then Crash(RangeError)
    else match Interpolated(tokens, args, align, host)
      case Crash(reason) => Crash(reason)
      case Ok(es) => Build(root, es, host)
  }

  /** The messages from `i` on, each parsed into the same root, up to the first
      index with no `message` key. */
  function ParsedFrom(def: JsonDef, i: nat, root: seq<Node>, table: StringTable, host: Host): Result<seq<Node>>
    requires DefOk(def) && forall k: nat :: k < i ==> MessageKey(k) in def
    decreases |def.Keys| - i
  {
    if MessageKey(i) !in def then Ok(root)
    else
      MessageKeysBound(def, i + 1);
      match ParsedMessage(root, def[MessageKey(i)].s, ArgsOf(def, i), AlignOf(def, i), table, host)
      case Crash(reason) => Crash(reason)
      case Ok(root1) => ParsedFrom(def, i + 1, root1, table, host)
  }

  lemma MessageKeyInjective(a: nat, b: nat)
    ensures MessageKey(a) == MessageKey(b) ==> a == b
  {
    if MessageKey(a) == MessageKey(b) {
      assert MessageKey(a)[7..] == NatToString(a) && MessageKey(b)[7..] == NatToString(b);
      NatToStringInjective(a, b);
    }
  }

  /** `n` distinct message keys fit in the definition. */
  lemma MessageKeysBound(def: JsonDef, n: nat)
    requires forall k: nat :: k < n ==> MessageKey(k) in def
    ensures n <= |def.Keys|
  {
    var keys := MessageKeys(n);
    MessageKeysSize(n);
    assert keys <= def.Keys;
    SubsetSize(keys, def.Keys);
  }

  /** One more message key present: the keys up to it fit in the definition. */
  lemma NextMessageKey(def: JsonDef, i: nat)
    requires forall k: nat :: k < i ==> MessageKey(k) in def
    requires MessageKey(i) in def
    ensures forall k: nat :: k < i + 1 ==> MessageKey(k) in def
    ensures i + 1 <= |def.Keys|
  {
    MessageKeysBound(def, i + 1);
  }

  function MessageKeys(n: nat): set<string> {
    set k: nat | k < n :: MessageKey(k)
  }

  /** Distinct indices give distinct keys, so `n` indices give `n` keys. */
  lemma {:induction false} MessageKeysSize(n: nat)
    ensures |MessageKeys(n)| == n
    decreases n
  {
    if n > 0 {
      MessageKeysSize(n - 1);
      assert MessageKeys(n) == MessageKeys(n - 1) + {MessageKey(n - 1)};
      assert MessageKey(n - 1) !in MessageKeys(n - 1) by {
        forall k: nat | k < n - 1 ensures MessageKey(k) != MessageKey(n - 1) {
          MessageKeyInjective(k, n - 1);
        }
      }
    }
  }

  lemma SubsetSize<T>(a: set<T>, b: set<T>)
    requires a <= b
    ensures |a| <= |b|
  {
    assert b == a + (b - a);
  }

  // ---------------------------------------------------------------------------
  // The block
  // ---------------------------------------------------------------------------

  /** A block with the group mixin: `root_`'s children, `state_.groups`,
      `state_.isSelected`, and the `uid()` supply. */
  class GroupBlock {
    var root: seq<Node>
    var groups: GroupStates
    var isSelected: bool
    var nextUid: nat

    constructor ()
      ensures root == [] && groups == map[] && !isSelected && nextUid == 0
    {
      root := [];
      groups := map[];
      isSelected := false;
      nextUid := 0;
    }

    /** `parseMessage_`: tokenize, check the argument numbers, interpolate, then run the
        builder loop on `root_`. */
    method ParseMessage(message: string, args: seq<Arg>, align: Option<string>, table: StringTable, host: Host)
      returns (error: Option<string>)
      modifies this
      ensures error.None? ==> ParsedMessage(old(root), message, args, align, table, host) == Ok(root)
      ensures error.Some? ==> ParsedMessage(old(root), message, args, align, table, host) == Crash(error.value)
      ensures error.Some? ==> root == old(root)
      ensures groups == old(groups) && isSelected == old(isSelected) && nextUid == old(nextUid)
    {
      var tokens := TokenizeInterpolationWithGroups(message, table);
      if !ArgsInRange(tokens, |args|) {
        return Some(RangeError);
      }
      var elements := InterpolateArgumentsWithGroup(tokens, args, align, host);
      if elements.Crash? {
        return Some(elements.reason);
      }
      var built := BuildNodes(root, elements.value, host);
      if built.Crash? {
        return Some(built.reason);
      }
      root := built.value;
      error := None;
    }

    /** `parseNodes_(jsonDef)`: a fresh root, `message0`, `message1`, ... parsed into it
        until the first absent key, then the group states seeded once from the result. */
    method ParseNodes(def: JsonDef, table: StringTable, host: Host) returns (error: Option<string>)
      requires DefOk(def)
      modifies this
      ensures error.None? ==> ParsedFrom(def, 0, [], table, host) == Ok(root)
      ensures error.None? ==> (groups, nextUid) == Seed(Root(root), old(nextUid))
      ensures error.Some? ==> ParsedFrom(def, 0, [], table, host) == Crash(error.value)
      ensures error.Some? ==> groups == old(groups) && nextUid == old(nextUid)
      ensures isSelected == old(isSelected)
    {
      root := [];
      var i := 0;
      while MessageKey(i) in def
        invariant forall k: nat :: k < i ==> MessageKey(k) in def
        invariant ParsedFrom(def, i, root, table, host) == ParsedFrom(def, 0, [], table, host)
        invariant groups == old(groups) && nextUid == old(nextUid) && isSelected == old(isSelected)
        decreases |def.Keys| - i
      {
        NextMessageKey(def, i);
        error := ParseMessage(def[MessageKey(i)].s, ArgsOf(def, i), AlignOf(def, i), table, host);
        if error.Some? {
          return;
        }
        i := i + 1;
      }
      var seeded := Seed(Root(root), nextUid);
      groups := seeded.0;
      nextUid := seeded.1;
      error := None;
    }

    /** `onChange_`: the walk from the root over the current states; its entries replace
        `state_.groups`. */
    method OnChange(probe: Probe)
      modifies this
      ensures var w := Walk(Root(old(root)), 0, [], old(groups), probe, old(nextUid));
        groups == w.states && nextUid == w.next
      ensures root == old(root) && isSelected == old(isSelected)
    {
      var w := Walk(Root(root), 0, [], groups, probe, nextUid);
      groups := w.states;
      nextUid := w.next;
    }
  }

  // ---------------------------------------------------------------------------
  // jsonInitFactoryWithGroup's key filter
  // ---------------------------------------------------------------------------

  /** `/^(message|args)\d+$/.test(key)`. */
  predicate MessageOrArgsKey(key: string) {
    || (|key| > 7 && key[..7] == "message" && AllDigits(key[7..]))
    || (|key| > 4 && key[..4] == "args" && AllDigits(key[4..]))
  }

  /** The loop copying every other key of the definition into what `jsonInit` gets. */
  method OtherDefinition(def: JsonDef) returns (other: JsonDef)
    ensures forall key :: key in other <==> key in def && !MessageOrArgsKey(key)
    ensures forall key :: key in other ==> other[key] == def[key]
  {
    other := map[];
    var keys := def.Keys;
    while keys != {}
      invariant keys <= def.Keys
      invariant forall key :: key in other <==> key in def && key !in keys && !MessageOrArgsKey(key)
      invariant forall key :: key in other ==> other[key] == def[key]
      decreases keys
    {
      var key :| key in keys;
      if !MessageOrArgsKey(key) {
        other := other[key := def[key]];
      }
      keys := keys - {key};
    }
  }

  // ---------------------------------------------------------------------------
  // createBlockDefinitionsFromJsonArrayWithGroup
  // ---------------------------------------------------------------------------

  /** An entry of the JSON array: a falsy value or a definition object. */
  datatype Entry = Falsy | Definition(def: JsonDef)

  /** `elem['type']` when it is a non-empty string. */
  function TypeOf(e: Entry): Option<string> {
    if e.Definition? && "type" in e.def && e.def["type"].JText? && e.def["type"].s != "" then Some(e.def["type"].s)
    else None
  }

  /** A definition's `type` is a string, if present and truthy. */
  predicate EntryOk(e: Entry) {
    e.Definition? && "type" in e.def ==> !e.def["type"].JArgs?
  }

  /** The definitions registered by the entries, a later one replacing an earlier one
      of the same type; each stands for `{init: jsonInitFactoryWithGroup(elem)}`. */
  function Definitions(entries: seq<Entry>): map<string, JsonDef> {
    if entries == [] then map[]
    else
      var last := entries[|entries| - 1];
      var before := Definitions(entries[..|entries| - 1]);
      match TypeOf(last)
      case None => before
      case Some(t) => before[t := last.def]
  }

  /** The source's loop over the array. */
  method CreateBlockDefinitions(entries: seq<Entry>) returns (blocks: map<string, JsonDef>)
    requires forall i :: 0 <= i < |entries| ==> EntryOk(entries[i])
    ensures blocks == Definitions(entries)
  {
    blocks := map[];
    var i := 0;
    while i < |entries|
      invariant 0 <= i <= |entries|
      invariant blocks == Definitions(entries[..i])
    {
      assert entries[..i + 1][..i] == entries[..i];
      var elem := entries[i];
      if elem.Falsy? {
        i := i + 1;
        continue;
      }
      if !("type" in elem.def && Truthy(elem.def["type"])) {
        i := i + 1;
        continue;
      }
      blocks := blocks[elem.def["type"].s := elem.def];
      i := i + 1;
    }
    assert entries[..i] == entries;
  }

  // ---------------------------------------------------------------------------
  // Properties
  // ---------------------------------------------------------------------------

  /** Messages accumulate into one root: the children present before are kept, in order,
      at the front of the result. */
  lemma {:induction false} ParsedKeepsRoot(def: JsonDef, i: nat, root: seq<Node>, table: StringTable, host: Host)
    requires DefOk(def) && forall k: nat :: k < i ==> MessageKey(k) in def
    ensures ParsedFrom(def, i, root, table, host).Ok? ==> root <= ParsedFrom(def, i, root, table, host).value
    decreases |def.Keys| - i
  {
    if MessageKey(i) in def {
      MessageKeysBound(def, i + 1);
      var m := ParsedMessage(root, def[MessageKey(i)].s, ArgsOf(def, i), AlignOf(def, i), table, host);
      if m.Ok? {
        var tokens := Tokenize(def[MessageKey(i)].s, table);
        BuildExtends(root, Interpolated(tokens, ArgsOf(def, i), AlignOf(def, i), host).value, host);
        ParsedKeepsRoot(def, i + 1, m.value, table, host);
      }
    }
  }

  /** Every message yields a well-formed tree: groups sit at their `idx`, fields inside
      inputs. */
  lemma {:induction false} ParsedWellFormed(def: JsonDef, i: nat, root: seq<Node>, table: StringTable, host: Host)
    requires DefOk(def) && (forall k: nat :: k < i ==> MessageKey(k) in def) && WellFormed(root)
    ensures ParsedFrom(def, i, root, table, host).Ok? ==> WellFormed(ParsedFrom(def, i, root, table, host).value)
    decreases |def.Keys| - i
  {
    if MessageKey(i) in def {
      MessageKeysBound(def, i + 1);
      var m := ParsedMessage(root, def[MessageKey(i)].s, ArgsOf(def, i), AlignOf(def, i), table, host);
      if m.Ok? {
        var tokens := Tokenize(def[MessageKey(i)].s, table);
        BuildWellFormed(root, Interpolated(tokens, ArgsOf(def, i), AlignOf(def, i), host).value, host);
        ParsedWellFormed(def, i + 1, m.value, table, host);
      }
    }
  }

  lemma KeyKindsDiffer(i: nat, j: nat)
    ensures MessageKey(j) != ArgsKey(i) && MessageKey(j) != ImplicitAlignKey(i) && MessageKey(j) != LastDummyAlignKey(i)
  {
    assert MessageKey(j)[0] == 'm' && ArgsKey(i)[0] == 'a' && ImplicitAlignKey(i)[0] == 'i';
    assert MessageKey(j)[1] == 'e' && LastDummyAlignKey(i)[1] == 'a';
  }

  /** Parsing stops at the first missing `messageN`: a message defined past the gap
      changes nothing. */
  lemma {:induction false} MessagesAfterGapIgnored(def: JsonDef, i: nat, gap: nat, j: nat, text: string,
                                                   root: seq<Node>, table: StringTable, host: Host)
    requires DefOk(def) && (forall k: nat :: k < i ==> MessageKey(k) in def)
    requires i <= gap < j && MessageKey(gap) !in def
    requires DefOk(def[MessageKey(j) := JText(text)])
    ensures ParsedFrom(def[MessageKey(j) := JText(text)], i, root, table, host) == ParsedFrom(def, i, root, table, host)
    decreases gap - i
  {
    var def' := def[MessageKey(j) := JText(text)];
    MessageKeyInjective(i, j);
    if i < gap {
      if MessageKey(i) in def {
        MessageKeysBound(def, i + 1);
        KeyKindsDiffer(i, j);
        assert ArgsOf(def', i) == ArgsOf(def, i) && AlignOf(def', i) == AlignOf(def, i);
        var m := ParsedMessage(root, def[MessageKey(i)].s, ArgsOf(def, i), AlignOf(def, i), table, host);
        if m.Ok? {
          MessagesAfterGapIgnored(def, i + 1, gap, j, text, m.value, table, host);
        }
      }
    }
  }

  /** The filter sends exactly the keys `parseNodes_` reads as messages and arguments
      away from `jsonInit`, and keeps the alignment and type keys. */
  lemma FilteredKeys(i: nat)
    ensures MessageOrArgsKey(MessageKey(i)) && MessageOrArgsKey(ArgsKey(i))
    ensures !MessageOrArgsKey(ImplicitAlignKey(i)) && !MessageOrArgsKey(LastDummyAlignKey(i))
    ensures !MessageOrArgsKey("type")
  {
    assert MessageKey(i)[..7] == "message" && MessageKey(i)[7..] == NatToString(i);
    assert ArgsKey(i)[..4] == "args" && ArgsKey(i)[4..] == NatToString(i);
    assert ImplicitAlignKey(i)[..7] != "message" && ImplicitAlignKey(i)[..4] != "args" by {
      assert ImplicitAlignKey(i)[0] == 'i';
    }
    assert LastDummyAlignKey(i)[..7] != "message" && LastDummyAlignKey(i)[..4] != "args" by {
      assert LastDummyAlignKey(i)[0] == 'l';
    }
  }

  /** The pattern is anchored and needs at least one digit. */
  lemma KeyPatternEdges()
    ensures !MessageOrArgsKey("message") && !MessageOrArgsKey("args")
    ensures !MessageOrArgsKey("messages1") && !MessageOrArgsKey("message1a") && !MessageOrArgsKey("xargs1")
    ensures MessageOrArgsKey("args007")
  {
    assert !AllDigits("s1") by { assert !IsDigit("s1"[0]); }
    assert !AllDigits("1a") by { assert !IsDigit("1a"[1]); }
    assert "messages1"[..7] == "message" && "messages1"[7..] == "s1";
    assert "message1a"[..7] == "message" && "message1a"[7..] == "1a";
    assert "args007"[..4] == "args" && "args007"[4..] == "007";
    assert "xargs1"[..4] != "args" by { assert "xargs1"[0] == 'x'; }
    assert "messages1"[..4] != "args" by { assert "messages1"[0] == 'm'; }
    assert "message1a"[..4] != "args" by { assert "message1a"[0] == 'm'; }
  }

  /** A type is registered exactly when some entry carries it. */
  lemma {:induction false} DefinitionsKeys(entries: seq<Entry>)
    ensures forall t :: t in Definitions(entries) <==> exists i :: 0 <= i < |entries| && TypeOf(entries[i]) == Some(t)
    decreases |entries|
  {
    if entries != [] {
      var n := |entries| - 1;
      DefinitionsKeys(entries[..n]);
      assert forall i :: 0 <= i < n ==> entries[..n][i] == entries[i];
    }
  }

  /** A registered type maps to the definition of the last entry carrying it. */
  lemma {:induction false} DefinitionsLastWins(entries: seq<Entry>, t: string)
    requires t in Definitions(entries)
    ensures exists i :: (&& 0 <= i < |entries| && TypeOf(entries[i]) == Some(t)
                         && Definitions(entries)[t] == entries[i].def
                         && forall j :: i < j < |entries| ==> TypeOf(entries[j]) != Some(t))
    decreases |entries|
  {
    var n := |entries| - 1;
    if TypeOf(entries[n]) == Some(t) {
      assert Definitions(entries)[t] == entries[n].def;
    } else {
      var init := entries[..n];
      DefinitionsLastWins(init, t);
      var i :| (&& 0 <= i < n && TypeOf(init[i]) == Some(t) && Definitions(init)[t] == init[i].def
                && forall j :: i < j < n ==> TypeOf(init[j]) != Some(t));
      assert init[i] == entries[i];
      assert forall j :: i < j < n ==> init[j] == entries[j];
    }
  }
}
