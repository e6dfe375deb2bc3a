# Blockly group blocks: a Dafny model

This project models the engine behind the "group" blocks of the Go+ Blockly editor
(xushiwei/blockly-hello). A block's message template such as `add %1 [and %2]*` holds
optional (`[...]`) and repeatable (`[...]*`) groups. The engine works in four stages:

1. The message template is tokenized into text, argument numbers, newlines and group
   markers (`Parsing`, from `parsing.ts`).
2. The tokens are interpolated with the block's arguments into element descriptions
   (`Interpolation`).
3. The elements are built into a tree of fields, inputs and groups, with an explicit
   stack and a field buffer (`GroupTree`).
4. The engine keeps per-group instance state (`GroupState`), renders the tree with its
   visibility rules (`GroupRender`), and commits a group's "shadow" instance once the
   user fills it in.

There are two copies of stages 2-4:

- The plugin copy (`plugins/group/index.tsx`) is modelled by `GroupPlugin`. It parses
  `message0`, `message1`, ... and seeds the group states once, from the finished tree.
- The older block copy (`with-group.tsx`) is modelled by `WithGroup`. It parses only
  `message0` and seeds the states while it builds the tree.

Both copies share the interpolator, the walk of `onChange_`, and `render_`. They differ
in two ways:

- Whether the `...` placeholder is hidden inside a shadow instance. This is the
  `checksShadow` flag of `GroupRender`.
- How the definition's message keys are filtered out.

Two hand-written if/else blocks are modelled as well:

- `IfElseReact` (`if-else-react.js`) adds `else if` parts through a shadow part with a
  fresh id.
- `IfElse` (`if-else.js`) numbers its `else if` pairs and counts the filled ones.

Blocks whose fields the source updates in place are classes:

- `GroupPlugin.GroupBlock`;
- `WithGroup.WithGroupBlock`;
- `IfElseReact.IfElseBlock`;
- `IfElse.IfElseBlock`.

Each of their methods is proved against a specification function on values.

Host services are parameters:

- the string table;
- `stringToFieldJson_` and `isInputKeyword_` (the `Host` record);
- the emptiness probes of inputs and fields (a `Probe`, or the set `connected` of
  input names that hold a block);
- the `uid()` counter (a `nextUid` field or a `next` parameter; `uid()` itself is
  imported from a `helpers` module that is not part of this model; the model draws
  `"g" + n` for the n-th id, so distinct draws give distinct ids).

A step that throws in JavaScript (a `TypeError` on `undefined`, or an explicit `throw`)
is a `Crash(reason)` result.

The tokenizer builds a merged list of adjacent text tokens and then returns the
unmerged list (`parsing.ts:178-207`). The model follows the code and returns the
unmerged tokens. `Parsing.EscapeSplitsText` shows the difference on `a%%b`: the
returned tokens are `a` and `%b`, while the discarded merged list is `a%b`.

## Model

| member | source | states |
|---|---|---|
| Text.NatToString | goplus/src/blocks/goplus/if-else.js:69 | a number's decimal rendering (`${i+1}`) is a non-empty string of digits |
| Text.DecimalOfNatToString | goplus/src/blocks/goplus/parsing.ts:88 | `parseInt` of a number's rendering gives the number back |
| Text.NatToStringInjective | goplus/src/blocks/goplus/if-else.js:69-72 | distinct numbers render to distinct strings, so numbered input names never collide |
| Text.ToUpperAscii | goplus/src/blocks/goplus/parsing.ts:107 | `toUpperCase` keeps the length and upper-cases each ASCII letter in place |
| Text.UidInjective | goplus/src/plugins/group/index.tsx:164 | ids drawn at different counter values differ |
| Parsing.Step | goplus/src/blocks/goplus/parsing.ts:44-148 | one iteration of the four-state scanner; the rewinds (`i--`) of states 2 and 3 still decrease the loop measure, and the end marker always leaves the scanner in the base state |
| Parsing.Run | goplus/src/blocks/goplus/parsing.ts:44-175 | the scan ends past the end marker, in the base state |
| Parsing.TokenizeInterpolationWithGroups | goplus/src/blocks/goplus/parsing.ts:20-224 | the source's loop over `chars` with its mutable state, buffer and rewinds computes exactly `Tokenize` |
| Parsing.FlushOk | goplus/src/blocks/goplus/parsing.ts:37-42 | a flush emits only non-blank text not starting with a bracket |
| Parsing.StepOk | goplus/src/blocks/goplus/parsing.ts:44-148 | every scanner step keeps the token list well formed; in the base state the buffer is empty or does not start with `[` or `]`, and while `%` or a digit run is being read it is empty |
| Parsing.RunOk | goplus/src/blocks/goplus/parsing.ts:44-175 | the whole scan keeps the tokens well formed |
| Parsing.TokensOk | goplus/src/blocks/goplus/parsing.ts:20-207 | every token is a number, `\n`, `[`, `]`, `]*` or plain non-blank text that does not start with a bracket |
| Parsing.DigitRun | goplus/src/blocks/goplus/parsing.ts:84-92 | a digit run is consumed to its end and emitted as one number, the `parseInt` of the run |
| Parsing.ArgumentReference | goplus/src/blocks/goplus/parsing.ts:48-50 | `%` followed by digits flushes the text before it and emits the argument number |
| Parsing.EscapedPercent | goplus/src/blocks/goplus/parsing.ts:71-73 | `%%` flushes the text before it and starts the next text with a literal `%` |
| Parsing.LiteralPercent | goplus/src/blocks/goplus/parsing.ts:80-83 | `%` followed by anything other than `%`, `{` or a digit is kept as literal text, with the character after it |
| Parsing.GroupMarkers | goplus/src/blocks/goplus/parsing.ts:56-66 | `[`, `]` and `]*` flush the text before them and are emitted as single tokens, `]*` consuming the star |
| Parsing.NewlineToken | goplus/src/blocks/goplus/parsing.ts:51-55 | a newline flushes the text before it and is emitted as its own token |
| Parsing.ReferenceToEnd | goplus/src/blocks/goplus/parsing.ts:95-101 | a reference with no closing brace re-inserts `%{` and leaves the rest as text |
| Parsing.UnterminatedReference | goplus/src/blocks/goplus/parsing.ts:78-101 | an unterminated `%{` leaves `%{` and the rest of the message as trailing text |
| Parsing.OrdinaryText | goplus/src/blocks/goplus/parsing.ts:67-69 | a run of ordinary characters is appended to the buffer unchanged |
| Parsing.EscapeSplitsText | goplus/src/blocks/goplus/parsing.ts:178-207 | the escape splits `a%%b` into two text tokens, while the merged list, which is discarded, would hold one |
| Parsing.EscapedPercentExample | goplus/src/blocks/goplus/parsing.ts:46-83 | `100%% done` gives the tokens `100` and `% done` |
| Parsing.RepeatedGroupExample | goplus/src/blocks/goplus/parsing.ts:56-92 | `[%1]*` gives `[`, 1, `]*` |
| Parsing.OptionalGroupExample | goplus/src/blocks/goplus/parsing.ts:56-92 | `[%1]` gives `[`, 1, `]` |
| Interpolation.LastNonGroup | goplus/src/plugins/group/index.tsx:57-64 | the last element that is not a group marker is found exactly when one exists, and it is in the list |
| Interpolation.InterpolateTokens | goplus/src/plugins/group/index.tsx:25-55 | the forward loop computes `Elements`: arguments substituted, newlines and markers converted, falsy fields skipped |
| Interpolation.FindLastNoneGroupElement | goplus/src/plugins/group/index.tsx:57-64 | the backward loop finds `LastNonGroup` |
| Interpolation.InterpolateArgumentsWithGroup | goplus/src/plugins/group/index.tsx:19-78 | both loops and the trailing dummy input compute `Interpolated` |
| Interpolation.ElementsAppend | goplus/src/plugins/group/index.tsx:26-55 | interpolation distributes over concatenation of token lists |
| Interpolation.TokenImage | goplus/src/plugins/group/index.tsx:32-52 | `[`, `]`, `]*` and `\n` always become a group start, an optional or repeatable group end, and an end-row input; plain text goes to the field conversion |
| Interpolation.InterpolatedShape | goplus/src/plugins/group/index.tsx:65-77 | the result is the forward pass, then exactly one `input_dummy` with the implicit alignment iff the pass is non-empty and its last non-marker element is not an input (otherwise the pass unchanged); it crashes exactly when every element is a marker |
| Interpolation.EndsWithInput | goplus/src/plugins/group/index.tsx:65-77 | a non-empty interpolation result ends, markers aside, with an input, when the host counts `input_dummy` as one |
| Interpolation.OnlyMarkersCrash | goplus/src/plugins/group/index.tsx:65-68 | a message of only group markers reads `.type` of `undefined` and throws |
| GroupTree.BuildNodes | goplus/src/plugins/group/index.tsx:94-132 | the loop with its explicit stack and field buffer computes `Build` |
| GroupTree.WellFormedAppend | goplus/src/plugins/group/index.tsx:111-113 | appending an input with field children, or a group whose `idx` is its position, keeps a child list well formed |
| GroupTree.AppendOk | goplus/src/plugins/group/index.tsx:109-128 | pushing onto `stack[0]` keeps the builder well formed |
| GroupTree.FlushOk | goplus/src/plugins/group/index.tsx:108-110 | flushing the field buffer into a dummy input keeps the builder well formed |
| GroupTree.PushOpenOk | goplus/src/plugins/group/index.tsx:111-114 | opening a group at the current child count keeps the builder well formed |
| GroupTree.OpenNewGroupOk | goplus/src/plugins/group/index.tsx:107-114 | the group-start step keeps the builder well formed |
| GroupTree.CloseGroupOk | goplus/src/plugins/group/index.tsx:115-121 | the group-end step keeps the builder well formed |
| GroupTree.FeedOk | goplus/src/plugins/group/index.tsx:105-131 | every loop step keeps the builder well formed |
| GroupTree.FeedAllOk | goplus/src/plugins/group/index.tsx:105-132 | the whole loop keeps the builder well formed |
| GroupTree.CloseAllOk | goplus/src/plugins/group/index.tsx:111-114 | the groups left open at the end (tag `?`) still give a well-formed tree |
| GroupTree.FeedExtends | goplus/src/plugins/group/index.tsx:105-131 | a loop step never removes the root's existing children |
| GroupTree.FeedAllExtends | goplus/src/plugins/group/index.tsx:105-132 | the loop never removes the root's existing children |
| GroupTree.CloseAllExtends | goplus/src/plugins/group/index.tsx:111-114 | the root's children are a prefix of the final tree |
| GroupTree.BuildExtends | goplus/src/plugins/group/index.tsx:87-132 | parsing a message only appends to `root_`'s children |
| GroupTree.BuildWellFormed | goplus/src/plugins/group/index.tsx:87-132 | parsing a message into a well-formed root gives a well-formed root: every group's `idx` is its position, and inputs hold only fields |
| GroupTree.FieldsOfAppend | goplus/src/plugins/group/index.tsx:109-128 | the fields of a child list grow by the appended node's fields |
| GroupTree.AppendFields | goplus/src/plugins/group/index.tsx:109-128 | appending a node adds its fields to the tree's fields and leaves the buffer alone |
| GroupTree.OpenNewGroupFields | goplus/src/plugins/group/index.tsx:107-114 | a group start neither loses nor invents fields |
| GroupTree.ClosedGroupFields | goplus/src/plugins/group/index.tsx:115-121 | a closed group holds its children's fields, then the flushed buffer's |
| GroupTree.CloseGroupFields | goplus/src/plugins/group/index.tsx:115-121 | a group end neither loses nor invents fields |
| GroupTree.FeedFields | goplus/src/plugins/group/index.tsx:105-131 | each loop step adds exactly the element's field, if it is one |
| GroupTree.FeedAllFields | goplus/src/plugins/group/index.tsx:105-132 | the loop's tree and buffer hold exactly the earlier fields and then the message's fields, in order |
| GroupTree.CloseAllFields | goplus/src/plugins/group/index.tsx:111-114 | closing the open groups keeps the tree's fields |
| GroupTree.MarkersKeepBufferEmpty | goplus/src/plugins/group/index.tsx:107-121 | group markers never fill the field buffer |
| GroupTree.LastNonGroupCons | goplus/src/plugins/group/index.tsx:57-64 | the last non-marker element of a list with one more element in front |
| GroupTree.EndsWithInputEmptiesBuffer | goplus/src/plugins/group/index.tsx:123-131 | when the last non-marker element is an input, the field buffer is empty at the end |
| GroupTree.BuildKeepsFields | goplus/src/plugins/group/index.tsx:94-132 | the tree's fields are the root's and the message's in order; none is lost when the message ends with an input |
| GroupTree.GroupEndCloses | goplus/src/plugins/group/index.tsx:115-121 | a group end closes the innermost group: tag `*` only for `]*`, the buffered fields flushed into it, and the group appended to its parent |
| GroupTree.UnmatchedGroupEnd | goplus/src/plugins/group/index.tsx:115-117 | an unmatched `]` pops the root, so the next input throws on `stack[0]` |
| GroupTree.RepeatedGroupTree | goplus/src/plugins/group/index.tsx:105-132 | `[field]*` then an input builds one repeatable group holding a dummy input with the field |
| GroupState.SeedFrom | goplus/src/plugins/group/index.tsx:159-175 | seeding gives a state exactly at the positions of the groups, each with no ids and a fresh shadow drawn from the counter |
| GroupState.Seed | goplus/src/plugins/group/index.tsx:159-175 | `makeInitialGroupStates_` keys exactly the group positions, each with no ids and a fresh shadow |
| GroupState.SeedNested | goplus/src/plugins/group/index.tsx:164-170 | a shadow's nested states are the seeding of the group's children, with ids drawn after the shadow's |
| GroupState.SeedFromChildren | goplus/src/plugins/group/index.tsx:159-175 | seeding depends only on a node's children |
| GroupState.SeedFromSnoc | goplus/src/plugins/group/index.tsx:159-175 | seeding children with one more at the end seeds the others, then the last one from the counter they left, at its position |
| GroupState.InstanceIds | goplus/src/plugins/group/index.tsx:200 | the instance ids of the context, outermost first |
| GroupState.LookupGroupState | goplus/src/plugins/group/index.tsx:177-183 | the loop of `getGroupState_` computes `GetGroupState`, including its `TypeError` on a missing level |
| GroupState.LevelCrash | goplus/src/plugins/group/index.tsx:179-181 | once the descent reads `undefined`, the lookup throws whatever comes after |
| GroupState.Descend | goplus/src/plugins/group/index.tsx:179-181 | descending into an instance of a found group reads that state's nested map for the instance |
| GroupState.LookupBelowAbsent | goplus/src/plugins/group/index.tsx:179-182 | an absent level reads as no state, and descending below it throws |
| GroupState.GroupedNameShape | goplus/src/plugins/group/index.tsx:336-339 | a scoped name is the name itself at the top level, and otherwise the instance ids, then the name, joined by `_`; a missing name stays missing |
| GroupState.JoinSnoc | goplus/src/plugins/group/index.tsx:338 | `join` over one more part |
| GroupState.Walk | goplus/src/plugins/group/index.tsx:256-313 | the walk draws ids only forward, and reports a node empty exactly by the emptiness predicate |
| GroupState.MergeFrom | goplus/src/plugins/group/index.tsx:257-260 | merging the root's children never reports the root as empty |
| GroupState.EveryEmptyFrom | goplus/src/plugins/group/index.tsx:264-268 | an input's children are all empty exactly when each one is |
| GroupState.Recompute | goplus/src/plugins/group/index.tsx:282-308 | a group is all empty exactly when every committed instance and the shadow are empty |
| GroupState.CheckIds | goplus/src/plugins/group/index.tsx:295-301 | the ids loop keeps `allEmpty` exactly when every remaining id is empty |
| GroupState.Promote | goplus/src/plugins/group/index.tsx:302-307 | the shadow step keeps `allEmpty` exactly when there is no shadow or it is empty |
| GroupState.Promoted | goplus/src/plugins/group/index.tsx:302-307 | promoting a shadow keeps `allEmpty` exactly when the checked shadow was empty |
| GroupState.CheckInstance | goplus/src/plugins/group/index.tsx:285-293 | an instance is empty exactly when all its children are; its nested entry is created and earlier entries kept |
| GroupState.Kept | goplus/src/plugins/group/index.tsx:296-301 | the kept ids come from the original ids |
| GroupState.CheckIdsSurvivors | goplus/src/plugins/group/index.tsx:295-301 | the committed ids that survive are exactly the non-empty ones, in order |
| GroupState.CheckIdsNested | goplus/src/plugins/group/index.tsx:285-301 | every checked id gets a nested entry when the group has children, and none is lost |
| GroupState.KeptNone | goplus/src/plugins/group/index.tsx:295-301 | no id survives exactly when every id is empty |
| GroupState.PromoteShape | goplus/src/plugins/group/index.tsx:302-307 | an empty shadow keeps its id; a filled one is committed after the ids and replaced by a fresh, freshly seeded shadow |
| GroupState.PromotedShape | goplus/src/plugins/group/index.tsx:303-306 | the promoted shadow's new id is drawn from the counter and seeded |
| GroupState.RecomputeIds | goplus/src/plugins/group/index.tsx:282-308 | the new state holds the non-empty ids in order, then the filled shadow, with a fresh seeded shadow in its place |
| GroupState.RecomputeEmpty | goplus/src/plugins/group/index.tsx:295-308 | a group is empty exactly when no instance remains |
| GroupState.RecomputeNested | goplus/src/plugins/group/index.tsx:285-302 | every committed id, and the old shadow id, keeps a nested map when the group has children |
| GroupState.RecomputeFixpoint | goplus/src/plugins/group/index.tsx:282-308 | recomputing a state whose committed instances are all filled and whose shadow is empty or absent keeps its ids and its shadow id |
| GroupState.WalkGroup | goplus/src/plugins/group/index.tsx:273-308 | a found group contributes exactly one entry, at its position, and is empty exactly when no instance is left |
| GroupState.WalkKeys | goplus/src/plugins/group/index.tsx:262-313 | one child's walk adds an entry only at its own position, and exactly when it is a group whose state was found |
| GroupState.MergeFromKeys | goplus/src/plugins/group/index.tsx:257-260 | the merged root states have an entry exactly at the positions of the groups whose state was found |
| GroupState.WalkRoot | goplus/src/plugins/group/index.tsx:315-319 | the new root states hold an entry exactly for each root-level group that had one, and the root is never empty |
| GroupRender.Render | goplus/src/plugins/group/index.tsx:198-241 | a selected block shows every field and input and no placeholder; inside a shadow instance an unselected block hides every field and input, and the plugin copy hides the placeholders too |
| GroupRender.RenderChildren | goplus/src/plugins/group/index.tsx:212-214 | the children's slots keep the same selection and shadow visibility rules |
| GroupRender.RenderIds | goplus/src/blocks/goplus/with-group.tsx:224 | committed instances follow the same visibility rules |
| GroupRender.RenderInstance | goplus/src/blocks/goplus/with-group.tsx:191-199 | inside a shadow instance an unselected block hides every field and input; only the plugin copy's rule (`checksShadow`) hides the placeholders there too |
| GroupRender.RepeatedKeepsShadow | goplus/src/plugins/group/index.tsx:222-225 | a repeatable group with a shadow still renders one after any recompute |
| GroupRender.OptionalClosesAfterPromotion | goplus/src/plugins/group/index.tsx:222-231 | an optional group whose shadow was filled renders no shadow and no placeholder |
| GroupPlugin.MessageKeyInjective | goplus/src/plugins/group/index.tsx:145 | distinct indices read distinct `message` keys |
| GroupPlugin.MessageKeysBound | goplus/src/plugins/group/index.tsx:144-153 | the number of messages read is bounded by the definition's keys, so the loop ends |
| GroupPlugin.NextMessageKey | goplus/src/plugins/group/index.tsx:145-152 | one more message key present keeps the count within the definition's keys |
| GroupPlugin.MessageKeysSize | goplus/src/plugins/group/index.tsx:145 | `n` indices give `n` distinct keys |
| GroupPlugin.GroupBlock.constructor | goplus/src/plugins/group/index.tsx:16 | an empty root, no group states, not selected |
| GroupPlugin.GroupBlock.ParseMessage | goplus/src/plugins/group/index.tsx:81-133 | tokenize, range check, interpolate, then the builder loop on `root_`; the error is the exception thrown; the group states are untouched |
| GroupPlugin.GroupBlock.ParseNodes | goplus/src/plugins/group/index.tsx:136-157 | a fresh root with every message from `message0` up to the first absent key, then the states seeded once from it |
| GroupPlugin.GroupBlock.OnChange | goplus/src/plugins/group/index.tsx:250-320 | the walk's root states replace `state_.groups`; the tree and selection are untouched |
| GroupPlugin.OtherDefinition | goplus/src/plugins/group/index.tsx:390-398 | the definition passed to `jsonInit` has every key but those matching `^(message\|args)\d+$`, with the same values |
| GroupPlugin.CreateBlockDefinitions | goplus/src/plugins/group/index.tsx:412-431 | the loop computes `Definitions`: falsy entries and entries without a type are skipped, and a later entry wins |
| GroupPlugin.ParsedKeepsRoot | goplus/src/plugins/group/index.tsx:144-153 | each message only appends to the root |
| GroupPlugin.ParsedWellFormed | goplus/src/plugins/group/index.tsx:144-153 | parsing all messages keeps the tree well formed |
| GroupPlugin.KeyKindsDiffer | goplus/src/plugins/group/index.tsx:145-150 | message keys never collide with the args or alignment keys |
| GroupPlugin.MessagesAfterGapIgnored | goplus/src/plugins/group/index.tsx:145 | a message after the first missing index is never parsed |
| GroupPlugin.FilteredKeys | goplus/src/plugins/group/index.tsx:383 | the pattern drops `messageN` and `argsN` and keeps the alignment keys and `type` |
| GroupPlugin.KeyPatternEdges | goplus/src/plugins/group/index.tsx:383 | the pattern is anchored and needs at least one digit |
| GroupPlugin.DefinitionsKeys | goplus/src/plugins/group/index.tsx:412-431 | a type is defined exactly when some entry carries it |
| GroupPlugin.DefinitionsLastWins | goplus/src/plugins/group/index.tsx:424-432 | the definition of a type comes from the last entry with that type |
| WithGroup.GetCurrGroupStates | goplus/src/blocks/goplus/with-group.tsx:107-118 | the loop computes `CurrGroupStates`, with the source's three error messages |
| WithGroup.SetAtFound | goplus/src/blocks/goplus/with-group.tsx:127-129 | the write through the alias fails exactly when the lookup does, with the same error; otherwise the level reached by the path gains the entry |
| WithGroup.CurrGroupStatesSnoc | goplus/src/blocks/goplus/with-group.tsx:109-116 | a path one longer descends one more level from where the shorter path ended |
| WithGroup.Idxs | goplus/src/blocks/goplus/with-group.tsx:127 | the open groups' `idx`es, innermost first, as the stack holds them |
| WithGroup.Reverse | goplus/src/blocks/goplus/with-group.tsx:127 | the path read outermost first |
| WithGroup.FirstGroupSeeded | goplus/src/blocks/goplus/with-group.tsx:122-132 | the first group start seeds an entry at index 0 of the root states |
| WithGroup.SecondWrite | goplus/src/blocks/goplus/with-group.tsx:127-129 | the second, nested group writes its entry into the first group's shadow states |
| WithGroup.SecondGroupSeeded | goplus/src/blocks/goplus/with-group.tsx:122-132 | `[a[b` seeds the outer group and, inside its shadow, the inner group at index 1 |
| WithGroup.ThirdGroupThrows | goplus/src/blocks/goplus/with-group.tsx:107-118 | the third nested group start walks the path `[1, 0]` from the root and throws `Invalid idx 1 for group states` |
| WithGroup.NestedSeedingThrows | goplus/src/blocks/goplus/with-group.tsx:120-132 | as written, a group start at position 0, then a field, a start, a field and a start throws `Invalid idx 1 for group states`, whatever follows |
| WithGroup.SeededFeedAllAppend | goplus/src/blocks/goplus/with-group.tsx:120-150 | the seeding loop over two lists runs the second from where the first stopped |
| WithGroup.AppendIdxs | goplus/src/blocks/goplus/with-group.tsx:124-146 | appending a child to `stack[0]` leaves the path unchanged |
| WithGroup.CurrGroupStatesPrefix | goplus/src/blocks/goplus/with-group.tsx:109-116 | a path that can be walked can be walked up to any prefix |
| WithGroup.OpenIdxs | goplus/src/blocks/goplus/with-group.tsx:130-132 | opening a group pushes its `idx` at the front of the path |
| WithGroup.WriteThenDescend | goplus/src/blocks/goplus/with-group.tsx:127-129 | after seeding a group at a reachable level, the path extended by it is reachable |
| WithGroup.SeededStart | goplus/src/blocks/goplus/with-group.tsx:122-132 | with the path read outermost first, a group start never throws on the path and keeps every open group's shadow states reachable |
| WithGroup.SeededEnd | goplus/src/blocks/goplus/with-group.tsx:133-139 | a group end changes only the tree, and keeps the states reachable |
| WithGroup.SeededOther | goplus/src/blocks/goplus/with-group.tsx:140-149 | inputs and fields change only the tree, and keep the states reachable |
| WithGroup.ShallowPathsAgree | goplus/src/blocks/goplus/with-group.tsx:127 | while the parent path holds at most one index (in particular whenever at most one group is open), the path as written (innermost first) and the path read outermost first give the same step |
| WithGroup.SpinePush | goplus/src/blocks/goplus/with-group.tsx:122-132 | with the path read outermost first, opening a group writes its fresh state into the innermost open group's shadow, as seeding the open spine with the new group would |
| WithGroup.SpineClose | goplus/src/blocks/goplus/with-group.tsx:133-139 | closing the innermost open group under any tag leaves the spine's seeding unchanged |
| WithGroup.SpineTree | goplus/src/blocks/goplus/with-group.tsx:120-150 | seeding the open spine level by level equals seeding the tree in which every open group sits in its parent |
| WithGroup.CloseAllTree | goplus/src/blocks/goplus/with-group.tsx:126-132 | each open group was pushed into its parent when it opened, so at the end the tree holds the open groups nested outermost first |
| WithGroup.SeededFeedAllSeeds | goplus/src/blocks/goplus/with-group.tsx:120-178 | with the path read outermost first, the states and the counter seeded while building are exactly `makeInitialGroupStates_` of the finished tree from the same counter |
| WithGroup.SeededFeedAllBuilds | goplus/src/blocks/goplus/with-group.tsx:120-150 | with the corrected path, seeding while building succeeds exactly when the plain build does, and gives the same tree |
| WithGroup.SeededParseBuilds | goplus/src/blocks/goplus/with-group.tsx:82-157 | with the corrected path, once the message passes the range check and interpolates, `parseNodes_` succeeds exactly when the plugin copy's builder does, and its root is the builder's tree |
| WithGroup.SeededParseSeeds | goplus/src/blocks/goplus/with-group.tsx:82-178 | with the path read outermost first, a successful `parseNodes_` leaves `state_.groups` and the counter at the seeding of its own root |
| WithGroup.RestDefinition | goplus/src/blocks/goplus/with-group.tsx:400 | the rest of the definition has every key but `message0` and `args0`, with the same values |
| WithGroup.RestAgainstPluginFilter | goplus/src/blocks/goplus/with-group.tsx:400 | every key the plugin copy forwards is forwarded here too; of the `messageN`/`argsN` keys, which the plugin drops, this copy forwards all but `message0` and `args0`, so `message1` reaches `jsonInit` |
| WithGroup.SeedStep | goplus/src/blocks/goplus/with-group.tsx:121-149 | one iteration of the seeding loop, with its lookup loop and write, computes `SeededFeed` for the path in either order |
| WithGroup.SeedNodes | goplus/src/blocks/goplus/with-group.tsx:120-150 | the seeding loop computes `SeededFeedAll` from an empty root, for the path in either order |
| WithGroup.WithGroupBlock.constructor | goplus/src/blocks/goplus/with-group.tsx:18 | an empty root, no group states, not selected |
| WithGroup.WithGroupBlock.ParseNodes | goplus/src/blocks/goplus/with-group.tsx:82-157 | `root_` and `state_.groups` are the seeded parse of `message0` with the path innermost first, as line 127 takes it; on a throw nothing is assigned |
| IfElseReact.CheckElsePart | goplus/src/blocks/goplus/if-else-react.js:56-61 | a part is empty exactly when its condition and its body are both empty |
| IfElseReact.SurvivingAppend | goplus/src/blocks/goplus/if-else-react.js:68-77 | filtering splits over concatenation, keeping the order |
| IfElseReact.SurvivingNonEmpty | goplus/src/blocks/goplus/if-else-react.js:68-77 | every kept part is non-empty and records whether its condition is empty |
| IfElseReact.SurvivingExactly | goplus/src/blocks/goplus/if-else-react.js:68-77 | kept ids come from the old parts, and every non-empty old part is kept |
| IfElseReact.SurvivingIdempotent | goplus/src/blocks/goplus/if-else-react.js:68-77 | filtering twice with the same inputs changes nothing more |
| IfElseReact.SurvivingDistinct | goplus/src/blocks/goplus/if-else-react.js:68-77 | filtering keeps the ids distinct |
| IfElseReact.AfterChangeIdsOk | goplus/src/blocks/goplus/if-else-react.js:63-94 | part ids stay distinct, the shadow id is never a part's, and every id was drawn from `uid()` |
| IfElseReact.PartsView | goplus/src/blocks/goplus/if-else-react.js:105-124 | each part renders four inputs |
| IfElseReact.PartsViewAt | goplus/src/blocks/goplus/if-else-react.js:105-124 | the i-th part's four inputs sit at positions 4i to 4i+3 |
| IfElseReact.RenderLayout | goplus/src/blocks/goplus/if-else-react.js:96-159 | the layout: the `if` pair; then each part's condition (shown when selected or filled), its `...` (shown otherwise) and its body; then the shadow part, shown only when selected; then a `...` shown only when unselected |
| IfElseReact.RenderSelection | goplus/src/blocks/goplus/if-else-react.js:96-159 | selected, every input except `...` is shown; unselected, the shadow part is hidden |
| IfElseReact.IfElseBlock.constructor | goplus/src/blocks/goplus/if-else-react.js:50 | an empty state with a freshly drawn shadow id |
| IfElseReact.IfElseBlock.OnChange | goplus/src/blocks/goplus/if-else-react.js:63-94 | the new parts and shadow are `AfterChange` of the old ones, and the id invariant is kept |
| IfElse.NameParts | goplus/src/blocks/goplus/if-else.js:35-36 | numbered condition and body names are distinct for distinct numbers and never equal each other |
| IfElse.NamesExclude | goplus/src/blocks/goplus/if-else.js:33-42 | a later pair's names are not among the earlier pairs' |
| IfElse.GetElseIfCount | goplus/src/blocks/goplus/if-else.js:31-44 | the count is the number of leading filled pairs: pairs 1..count are filled and pair count+1 is not |
| IfElse.FilledPairsBound | goplus/src/blocks/goplus/if-else.js:31-44 | the count never exceeds the number of connected inputs, so the unbounded loop ends |
| IfElse.ElseIfViews | goplus/src/blocks/goplus/if-else.js:67-76 | n pairs render 2n inputs |
| IfElse.ElseIfViewsAt | goplus/src/blocks/goplus/if-else.js:67-76 | the i-th pair renders `ELSE_IF_COND_i` and `ELSE_IF_BODY_i` |
| IfElse.RenderLayout | goplus/src/blocks/goplus/if-else.js:53-100 | the `if` pair, then pairs 1..count (and one more while selected) in order, then `ELSE_BODY` exactly when there is an else or the block is selected |
| IfElse.IfElseBlock.constructor | goplus/src/blocks/goplus/if-else.js:12-29 | every state entry is absent |
| IfElse.IfElseBlock.OnChange | goplus/src/blocks/goplus/if-else.js:46-51 | the count of leading filled pairs, and whether `ELSE_BODY` holds a block; the selection is untouched |

## Left out

- Non-ASCII `toUpperCase` is left out. `Text.ToUpperAscii` upper-cases only ASCII letters, so a string-table key with other letters may be looked up differently.
- The string table is a map from an upper-cased key to the tokens it contributes. Recursively tokenizing a string entry (`parsing.ts:120-127`) is therefore the table's content, not a call.
- `validateTokens_` is a host method and is not part of this model. Only its argument-range check is modelled, with the message `Message index out of range.`.
- `stringToFieldJson_` and `isInputKeyword_` are host functions. They are the `Host` parameter; which strings give no field is the host's choice.
- The JSON values of a definition are text, arrays or falsy (`GroupPlugin.Json`). `GroupPlugin.DefOk` excludes what the engine cannot read: a `messageN` that is not a string (falsy, an array, and numbers and objects, which are not represented); an `argsN` that is a non-empty string; and an array under `implicitAlignN` or `lastDummyAlignN`.
- `GroupPlugin.Json`: an element of an `argsN` array is a string or an element object (`Interpolation.Arg`); `null` and other falsy elements are not represented. In the source such an element is pushed as it is. The backward search of `index.tsx:59-64` throws when it reads its `type`, and if that search stops before reaching it, the builder loop at `index.tsx:105` ends at it and drops the elements after it.
- `GroupPlugin.GroupBlock.ParseMessage`: the root is unchanged when it throws. The source has already pushed the nodes built before the throw into `root_`, and the exception then aborts `parseNodes_`. `GroupBlock.ParseNodes` states only the root it would keep.
- Running out of ids in `uid()` cannot happen in the model, because its counter is unbounded.
- React, the renderer, the `key` props, `console` output and `queueRender` are left out. Rendering is modelled as the flat list of slots or inputs with their `visible` values; an input without a `visible` prop is shown.
- The render context's `idx` is the group's position among its parent's children. In a well-formed tree this equals the group's `idx`, which is what `GroupRender.Render` passes.
- A state that `getGroupState_` does not find renders nothing, as in the source. The warning is not modelled.
- `helpers.js` is left out: `setState_`, `saveExtraState`, `loadExtraState`, the selection mixin and the emptiness mixin. Selection is an `isSelected` field, and emptiness is the `Probe` or `connected` parameter. A state loaded by `loadExtraState` may lack `shadowElseId`; `IfElseReact.IfElseBlock` always has one, because `init` always draws it.
- The with-group copy's `interpolateArgumentsWithGroup_`, `makeInitialGroupStates_`, `getGroupState_`, `onChange_` and `getGroupedName` (`with-group.tsx:21-80, 162-186, 252-348`) are the same code as the plugin's. They are modelled once, by `Interpolation` and `GroupState`.
- The with-group copy's `createBlockDefinitionsFromJsonArrayWithGroup` (`with-group.tsx:416-435`) is the plugin's loop and is modelled by `GroupPlugin.CreateBlockDefinitions`. Only the filtering of the definition differs, and that is `WithGroup.RestDefinition`.
- `jsonInit`, `Blockly.Extensions.apply` and the `window.b` debug hook are Blockly host calls and are left out.
- `WithGroup.WithGroupBlock.ParseNodes`: on a throw the model leaves `nextUid` where it was. In the source, `uid()` (line 128) has already advanced once for each group opened before the throw.
- `GroupRender.Render`: a child's context `idx` for a field or input inside an input is not modelled, since it only feeds React keys.

## Findings

| source | as written | input that shows it | evidently intended | confidence | as-written member | corrected member |
|---|---|---|---|---|---|---|
| goplus/src/blocks/goplus/with-group.tsx:127 | the parent path is taken from the stack innermost first, and `getCurrGroupStates` walks it from the root states (lines 107-118) | the message `[x[x[x]]]`, where the host turns `x` into a field: the third start walks `[1, 0]` from the root, where there is no entry 1, and throws `Invalid idx 1 for group states` | walk the parent groups outermost first, so that each nested group's state is seeded inside its parent's shadow | not executed | WithGroup.NestedSeedingThrows | WithGroup.SeededFeedAllSeeds |
