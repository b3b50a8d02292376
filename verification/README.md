# Proofs about the YANG library

The library compiles YANG schemas (RFC 7950) and moves data between trees that follow a schema. This project models
its hardest parts in Dafny and proves what they promise. `dafny verify dfyconfig.toml` checks everything.

| component | files | main results |
|---|---|---|
| expansion of `uses`, circular groupings included | SchemaText, DefinitionArena, ResolverRun, ResolverState, ResolverSharing, ResolverSteps, ResolverGraph, GroupingResolver, ResolverExamples, ResolverPitfall | the finite graph that the resolver builds unfolds, to every depth, like the infinite textual expansion; it succeeds exactly when the text has no unknown grouping and no name conflict; it ends on every input and leaves the groupings as they were; two texts that it gets wrong |
| edits of data trees | DataSchema, SchemaNames, MetaIterator, EditSpec, EditPaths, EditStep, EditLaws, EditRun, EditCases, EditWalk, Store, Editor | the walk that changes a tree of Go maps in place succeeds exactly if an update finds every container, list and outermost item that it visits, and an insert none of those at its root; it tells its root, bubbling, and each node that it enters once, in a balanced bracket word; it leaves what its steps make of any target, which is a recursive merge if the target holds one case of every choice at most; an upsert is idempotent then, and keeps it so; which cases it leaves in a target that holds several, exactly |
| the channel pipe | DataTree, Pipe, PipeLimits, PipeProtocol, PipeReader, PipeErrors, PipeRuns, PipeNodes | the schemas of which all data come through, exactly; with these the tree comes through in every interleaving of writer and reader, nothing is received after the end, every run ends with the reader served; data that a Close with an error cuts short are never taken for a tree; the writer's Close then waits for ever if and only if the last ask of the reader was a hit |
| JSON | JsonText, JsonWriter, JsonString | the event-driven writer emits exactly the JSON of the tree, chosen cases included; reading chooses the same cases and gives the tree back; every sequence of code points comes back through its escapes |
| if-feature expressions | IfFeature, IfFeatureReading, IfFeatureRight, IfFeatureErrors | every expression of the grammar is evaluated as the one in which whatever follows an `or` has run into its brackets; for expressions that name no feature twice, which of them are right for all features; a blank at the end is an error, and so is a missing operand |
| field selectors | PathSelector, PathMatcher | the compiler yields the paths a selector stands for if and only if every group follows a step; matching a compiled selector is matching the selector |
| the key index of slices | KeyIndex | any run of operations through the cached sorted index gets the replies of a plain list |
| lexer | LexerText, LexerGrammar, LexerTokens, LexerForms, LexerStatements, LexerGaps, LexerPrinted, LexerReading, LexerFailures, Lexer | statements of a grammar, written with any blanks and closed comments, are read as just their tokens, and what is read are such statements; a keyword is an error exactly if what follows cannot be its argument; all tokens are delivered in order exactly if each statement has fewer than 64; what never returns |
| identities | Identity | compiled in any order, each identity has the bases that its statements name, all of them, and `derived` is the inverse; Derived() is the reflexive and transitive closure |

How the model is made:

- Code that changes things in place is a class or a method with the same fields and loops, proved against a
  specification function; the functions have their own lemmas. Objects whose links form a graph that is rewired (schema
  definitions, identities) are cells of an arena with numbers for references. Segments of selectors and the Go maps that
  an edit changes are heap objects.
- Values of leafs, keys and texts of errors are opaque. A value that only compares (list keys) has an arbitrary total
  order. Errors that the modelled code itself detects are results; errors and panics of callbacks are not modelled.
- `uses` ids, names of groupings and names of identities are resolved by lookups of other code; the model starts from
  the result of the lookup, and a name that nothing has is a case of it.

Conditions that the theorems need, and why:

- `SchemaText.Clean`: no grouping contains itself directly, no list meets a `uses` twice, counting those met through
  groupings, and two lists that meet the same `uses` are equal, or flatten to the same definitions while nothing further
  down in them meets what they meet. Nested groupings used in several places are clean (`ResolverExamples.NestedIsClean`),
  circular ones too (`ResolverExamples.CircularIsCovered`). The resolver shares by the id of a `uses`
  (meta/resolver.go:372-376), so the node that comes second gets all children of the first one: with lists that differ it
  loses its own (`ResolverExamples.SpoiledIsWrong`), and a node that is shared from within and becomes a duplicate itself
  afterwards has passed on what it had until then (`ResolverPitfall.LateIsWrong`). `ResolverGraph.DuplicateIsRight` says
  when one duplicate comes out right. A converse in terms of the text is not stated: a later pair for the same duplicate
  overwrites what an earlier one did, so a text can come out right by the order of its pairs.
- `SchemaNames.Plain`: names are distinct within a container, those in choices and their cases included (section 7.9.2 of
  RFC 7950). Edits and JSON need it; other containers may use the names again.
- `EditSpec.Proper`: before the edit at most one case of every choice of the target has a definition directly in it that
  holds data, and no data are held under the name of a choice. `Editor.Editor.Edit` does not need it, the merge
  (`EditRun.EditedIsMerge`) and the laws in EditLaws do; an insert is the merge without it (`EditRun.InsertIsMerge`).
  Without it an upsert may leave other cases, and a second one may drop more of them: `EditCases.CasesLeft` and
  `EditCases.SettledExactly` say exactly when. What holds data only in a choice nested in a case is not seen
  (nodeutil/reflect.go:294-304), so such a case can stay beside another one: `EditLaws.NestedCaseStays`, and exactly
  `EditLaws.CaseCleared`.
- `Pipe.Clear`: the pipe has no message for the end of a container or list, so no message that can come next may match
  a definition that is missing, or something inside one that has ended. `PipeLimits.ComesThroughExactly` shows that for
  all other schemas some data do not come through. The reading node cannot choose a case, so those with choices are
  among them; the writing node and JSON handle choices.
- `JsonText.Keyed`: data use a name for a leaf or a child as the schema does, and list items are held under their keys.
- `IfFeatureRight.PrecedenceExactly` is about expressions that name no feature twice; with repetitions an expression can
  be right by chance, such as `(a or a) and a`, and `IfFeatureReading.EvaluatesReread` still says what it evaluates to.

## Model

| member | source | states |
|---|---|---|
| GroupingResolver.Resolver.Resolve | meta/resolver.go:20-30 | For every text: the definitions of all groupings are untouched afterwards, and memory is what the run of `ResolverRun.Resolves` leaves. For a clean text: it succeeds if and only if at every depth of the expansion each `uses` names a grouping and no two siblings share a name; then the graph at the root unfolds at every depth into the textual expansion, exactly the duplicates are marked recursive, a master is a duplicate of an earlier pair at most and of none if lists that meet the same `uses` are equal, and following only unmarked nodes never circles. |
| GroupingResolver.Resolver.DataDef | meta/resolver.go:317-322 | The list of a node, or of a grouping used directly by it, is added in order and the run ends whatever circles the groupings form, by the number of `uses` ids not yet registered and then the definitions left; on failure the text below is not sound. |
| GroupingResolver.Resolver.AddDataDef | meta/resolver.go:354-442 | One definition: after it the node's children agree with one more stretch of the flattened text; a name conflict is reported only if the text has one. |
| GroupingResolver.Resolver.AddUses | meta/resolver.go:361-384 | A `uses` seen before ends the list it stands in and records master and duplicate; a new one is replaced by clones; an unknown grouping is reported. |
| GroupingResolver.Resolver.AddClones | meta/resolver.go:379-386 | A new `uses` is registered to this node, and clones of its grouping are added to the same node, whose own direct `uses` are replaced likewise. |
| GroupingResolver.Resolver.Enter | meta/resolver.go:424-428 | The children of a new container or list are taken off, resolved and put back. |
| GroupingResolver.Resolver.FillInRecursiveDefs | meta/resolver.go:446-454 | Of a clean text: no conflict arises, afterwards every node agrees with its flattened list and exactly the duplicates are marked, the others being as they were; of any text: pair after pair is filled in up to the first conflict. |
| GroupingResolver.Resolver.FillInOne | meta/resolver.go:447-452 | One duplicate is emptied, marked and filled; a conflict arises exactly if two definitions of the master have the same name. |
| GroupingResolver.Resolver.CloneDefs | meta/resolver.go:456-465 | Clones lie in new cells and say the same text; nothing that was there changes. |
| GroupingResolver.Resolver.Clone | meta/core_gen.go:822-850 | A deep copy of a definition in new cells. |
| GroupingResolver.Resolver.AddDataDefinition | meta/core_gen.go:636-659 | The definition is appended exactly if no sibling has its name. |
| GroupingResolver.Resolver.PopDataDefinitions | meta/core_gen.go:661-668 | The children are handed out and the node is left empty. |
| ResolverGraph.UnfoldIsExpand | meta/resolver.go:354-465 | If every node agrees with its flattened list, the cyclic graph and the textual expansion are the same tree at every depth. |
| ResolverGraph.CompleteIsSound | meta/core_gen.go:651-659 | Such a graph without name conflicts shows that the text has none at any depth. |
| ResolverSharing.MasterIsComplete | meta/resolver.go:372-379 | A master's list means the same as its duplicate's, and it is a duplicate of no pair recorded with it or later, so that it is complete when it is copied; if lists that meet the same `uses` are equal it is no duplicate at all. |
| ResolverSharing.ShareMatches | meta/resolver.go:371-376 | In a clean text a node that meets a `uses` again flattens to the same definitions as the node to which it is registered, and unless their lists are equal nothing below it meets what it meets. |
| ResolverSharing.RegisterKeeps | meta/resolver.go:379 | Registering a `uses` keeps the resolver's invariant: what is registered to a node are the first ids that its list meets, through groupings too. |
| ResolverSharing.ShareKeeps | meta/resolver.go:372-376 | So does recording a duplicate. |
| ResolverGraph.FillCompletes | meta/resolver.go:446-454 | Filling in the next pair completes every duplicate that no later pair fills in again. |
| ResolverGraph.FilledIsForward | meta/resolver.go:449 | Walks that stop at recursive marks end, and exactly the duplicates are marked. |
| ResolverGraph.DuplicateIsRight | meta/resolver.go:446-454 | Whatever list a duplicate was read from: filled from a complete master it is right if and only if both lists flatten to the same definitions. |
| GroupingResolver.Resolver.constructor | meta/resolver.go:20-24 | A resolver starts with nothing registered and nothing shared. |
| ResolverExamples.SpoiledIsWrong | meta/resolver.go:371-379 | For a text in which two containers with different lists use a grouping that uses another one directly: every run succeeds, and one container has lost a leaf of its own. |
| ResolverExamples.CircularIsCovered | meta/resolver.go:354-465 | A text with a circular grouping, met through another grouping, that meets all conditions of the theorem on Resolve. |
| ResolverExamples.NestedIsClean | meta/resolver.go:354-465 | A grouping that uses another one directly, used by two containers: the text is clean though different lists meet the inner `uses`. |
| ResolverPitfall.LateIsWrong | meta/resolver.go:371-379 | A text whose lists that meet the same `uses` all flatten to the same: every run succeeds, and a container has two of its three children, as its master became a duplicate after it had been shared from inside itself. |
| MetaIterator.ContainerMetaList.constructor | node/container_meta_list.go:21-58 | A new iterator has exactly the flattening of the definitions ahead of it, every choice, nested to any depth, replaced by its chosen case or by nothing. |
| MetaIterator.ContainerMetaList.NextMeta | node/container_meta_list.go:60-64 | It yields the first definition that is left, never a choice, and at the end nothing. |
| MetaIterator.ContainerMetaList.LookAhead | node/container_meta_list.go:66-96 | Looking ahead loses and repeats nothing, and ends. |
| DataSchema.Choose | nodeutil/reflect.go:294-304 | The case that holds data, and none exactly if no case does. |
| Editor.Editor.Edit | node/edit.go:25-30 | Of any target, whatever cases it holds: an update succeeds if and only if the target holds every container, list and outermost list item of the source that is visited, at every depth, and adds or removes none of them; an insert if and only if the target holds none of the containers, lists and items visited at the root; an upsert always. At a list that is a condition on the two sets of keys, and the union is left. The target becomes what the steps of the walk make of it (`EditRun.Edited`). The calls of beginEdit and endEdit are a balanced word on success and can be closed on failure; with EditRoot and bubbling the root is told of the begin and, on success, of the end, and each container, list and item visited is told once without bubbling. |
| Editor.Editor.Enter | node/edit.go:32-62 | The same below the root, for the node that is entered; those entered below it are told once each. |
| Editor.Editor.Walk | node/edit.go:40-57 | Definition by definition the target is what the steps of those visited have made of it. |
| Editor.Editor.Leaf | node/edit.go:64-94 | A leaf: the source's value, else the default where defaults apply, written after the data of another case is dropped; else nothing changes. |
| Editor.Editor.Node | node/edit.go:136-207 | A container or list: conflict, not found, or the child edited in turn. |
| Editor.Editor.Rows | node/edit.go:209-298 | A list becomes the union by key, in whatever order the source yields its items. An insert succeeds if and only if the lists have no key in common, an update if and only if the target has all keys of the source. |
| Editor.Editor.NextRow | node/edit.go:218-297 | One turn of the loop: after any items the list is what the items so far have made of it, and the first item that is not allowed ends it. |
| Editor.Editor.Row | node/edit.go:243-286 | One item: refused if and only if an insert finds its key in the target, or an update does not; below it the strategy is upsert whatever it was above. |
| Editor.Editor.ClearOnDifferentChoiceCase | node/edit.go:96-113 | The data of the case that the target holds is deleted if it is not the case wanted, and nothing else is. |
| Editor.Editor.ClearChoiceCase | node/edit.go:115-134 | Everything that a walk over the target visits in a case is deleted, through choices nested in it. |
| Editor.Editor.Delete | node/selection.go:334-375 | A child is deleted between a begin and an end for its path, without EditRoot, that bubble up to the root. |
| Editor.Editor.ChooseCase | nodeutil/reflect.go:294-304 | The loop over the cases finds what `Choose` says. |
| EditLaws.MergedLeaf | node/edit.go:73-92 | After an edit a visited leaf has the source's value, else the default if an insert or upsert made its container, else what it had. |
| EditLaws.UpsertChildren | node/edit.go:163-204 | The children after an upsert are those of the target that are not dropped and those of the source that are visited. |
| EditLaws.UpsertChild | node/edit.go:163-204 | And each child of the source is merged into the target's child of that name, or into a new one. |
| EditLaws.CaseSwitched | node/edit.go:96-134 | Writing to one case of a choice leaves no data directly in any other case. |
| EditLaws.CaseCleared | node/edit.go:96-134 | Of another case a name, however deeply nested, keeps its data if and only if no definition directly in the case held any, or the walk over the target does not visit the name. |
| EditLaws.NestedCaseStays | node/edit.go:96-113 | A target that holds data of one case only in a nested choice has data of two cases after an upsert of the other. |
| EditLaws.UpdateKeepsChildren | node/edit.go:191-195 | A successful update neither adds nor removes a child. |
| EditLaws.OneCaseKept | node/edit.go:96-134 | An upsert keeps at most one case of every choice of a container populated, those nested in cases included. |
| EditLaws.UpsertKeepsProper | node/edit.go:96-134 | At every depth. |
| EditLaws.UpsertIdempotent | node/edit.go:32-298 | Upserting the same source once more changes nothing. |
| EditLaws.InsertConflict | node/edit.go:168-171 | An insert at a container fails exactly if some container or list is present in both roots. |
| EditLaws.InsertChildren | node/edit.go:163-207 | A successful insert leaves every child of the target alone and adds those of the source. |
| EditLaws.InsertCopies | node/edit.go:163-207 | Those are copies, with defaults, that depend on the source only. |
| EditPaths.UpdateSucceeds | node/edit.go:176-195 | Whether an update succeeds, by paths: if and only if each container, list and outermost item that the walk over the source visits is in the target. |
| EditPaths.UpdateKeeps | node/edit.go:176-207 | A successful update adds and removes none of them, at every depth outside of list items that it visits. |
| EditPaths.InsertSucceeds | node/edit.go:168-171 | Whether an insert succeeds: if and only if the target holds none of the containers, lists and items at the root of the walk. |
| EditPaths.ListKeys | node/edit.go:243-286 | At a list: an insert succeeds if and only if the keys are disjoint, an update if and only if those of the source are among those of the target; the keys become the union. |
| EditPaths.BelowIs | node/edit.go:25-62 | The paths of the nodes that are entered are exactly those of the containers, lists and items that the walk over the source visits, at any depth. |
| EditStep.MergeStep | node/edit.go:40-57 | The merge of one more definition is one step of the walk; for insert and update whatever the target holds. |
| EditWalk.WalkNext | node/edit.go:40-57 | A step of the walk goes from what the definitions visited so far make of the target to what one more makes of it. |
| EditRun.EditedIsMerge | node/edit.go:32-298 | If the target holds one case of every choice at most, at every depth, the steps of the walk are the recursive merge. |
| EditRun.InsertIsMerge | node/edit.go:32-298 | An insert that succeeds is the merge into whatever target. |
| EditRun.EditedLeaf | node/edit.go:73-92 | Of any target: after an edit a visited leaf has the source's value, else the default if an insert or upsert made its container, else what it had. |
| EditRun.EditedChildIs | node/edit.go:163-204 | Of any target: a visited child that the source holds is the target's child, or a new one, edited in turn; others stay. |
| EditRun.NotYet | node/edit.go:96-207 | Of any target: when the walk comes to a definition its data are those held at the start. |
| EditCases.CasesLeft | node/edit.go:96-134 | Of any target: after writing definitions of one case, another one ahead of it keeps its data if and only if at least as many cases with data come before it as definitions were written, a later one if and only if any comes before it. |
| EditCases.SettledExactly | node/edit.go:96-134 | Of any target: the same upsert done again finds the same cases with data if and only if the first one left none ahead of the case written to. |
| Store.GoMap.SetField | nodeutil/reflect.go:334-342 | A leaf is written and nothing else changes. |
| Store.GoMap.Remove | nodeutil/reflect.go:315-318 | A name is deleted with whatever it held. |
| Store.GoMap.Create | nodeutil/reflect.go:311-313 | A new, empty map under a name. |
| Store.EventLog.Tell | node/selection.go:302-312 | The loop tells the selected node, and if it bubbles each ancestor in turn, only the first of them with EditRoot. |
| Store.EventLog.BeginEdit | node/selection.go:294-313 | One more edit is open, and its nodes have been told. |
| Store.EventLog.EndEdit | node/selection.go:315-332 | The edit that was opened last, with the same path and flags, is closed, and its nodes have been told. |
| Store.ToldIs | node/selection.go:294-332 | One call tells the node, and if it bubbles each of its ancestors from its parent to the root, these without EditRoot. |
| Store.RootsAre | node/selection.go:302-312 | As many nodes are told with EditRoot as there are calls with it. |
| Store.CanBeClosed | node/edit.go:32-62 | What has been told without a mismatched end can be completed to a balanced word, by ending the edits left open from the last to the first. |
| Store.PrefixOpens | node/edit.go:32-62 | What can be completed has no mismatched end. |
| DataTree.SeenIsAll | node/edit.go:40-57 | A walk along the schema, into the chosen case of every choice, sees exactly the data that fit the schema. |
| Pipe.PullPushed | nodeutil/pipe.go:70-129 | The reader takes exactly the messages of the data pushed, whatever comes after them, and rebuilds the data. |
| Pipe.RoundTrip | nodeutil/pipe.go:66-131 | A tree that fits its schema comes out of the pipe as it went in. |
| PipeLimits.ComesThroughExactly | nodeutil/pipe.go:66-131 | All data of a schema come through if and only if no message that can come next matches a definition that may be missing, a list is not followed by the item of another one, and there are no choices. |
| PipeLimits.BadFails | nodeutil/pipe.go:70-100 | For every other schema, data that the reader rebuilds wrong, refuses or panics on. |
| PipeProtocol.EveryInterleaving | nodeutil/pipe.go:29-64 | In every run of writer and any reader: consumed is a beginning of received, received of sent; nothing follows the end, which is never consumed; the reply to an ask is the first message not yet consumed if it matches, a miss if not, and at the end a miss with the error given to Close; the replies are those of a sequential run; no send or receive crashes on the closed channel. |
| PipeProtocol.NeverStuck | nodeutil/pipe.go:29-37 | While the reader wants something, some step is possible. |
| PipeProtocol.StepKeeps | nodeutil/pipe.go:29-64 | Every step of either side keeps the invariant of the channel and the reader. |
| PipeReader.TreeComesThrough | nodeutil/pipe.go:66-131 | With the walk along the schema as reader, in every interleaving and with any number of calls of Close: it is never refused, and when it asks no more it holds exactly the tree pushed. |
| PipeReader.AloneReadsLog | nodeutil/pipe.go:70-100 | Run sequentially the walk asks and is answered exactly as reading prescribes. |
| PipeErrors.ErrorReaches | nodeutil/pipe.go:51-100 | A pipe that is closed with an error after any messages: in every interleaving a walk that asks beyond them ends with exactly this error, and before that none is reported. |
| PipeErrors.CutIsRefused | nodeutil/pipe.go:51-100 | Data of a schema that comes through, cut short anywhere by a Close with an error: in every interleaving the walk never holds a tree, and when it asks no more it has this error. |
| PipeErrors.CutFails | nodeutil/pipe.go:70-100 | So the reading of such data fails with this error. |
| PipeErrors.PulledCut | nodeutil/pipe.go:70-100 | Whatever can be read whole: cut short behind the first `k` messages it is read the same if reading stops before them, and fails with the error of Close otherwise. |
| PipeRuns.StepsAre | nodeutil/pipe.go:29-64 | In every run, of any reader, the number of steps is that of the asks, the answers and the sends. |
| PipeRuns.RunsAreBounded | nodeutil/pipe.go:66-131 | So no run is longer than two steps for each ask of the walk and one for each message. |
| PipeRuns.EndReceived | nodeutil/pipe.go:51-64 | When the walk has all it wants, the end has been received if and only if the walk asks once more after the last of the data. |
| PipeRuns.RunsEnd | nodeutil/pipe.go:29-64 | A run in which no step is possible any more: the reader holds exactly the tree, and the writer is through if and only if the walk asked once more; else its Close waits for ever. |
| PipeRuns.MissesLast | nodeutil/pipe.go:70-100 | Which data make the last reply of the walk a miss: none whose last definition is a leaf they have, or a container that ends so. |
| PipeRuns.WriterWaits | nodeutil/pipe.go:51-64 | One leaf: a run that ends with the writer still offering the end. |
| PipeNodes.PullNode.Peek | nodeutil/pipe.go:29-37 | A message is received only if none is held, and stays held; the end closes the channel. |
| PipeNodes.PullNode.Consume | nodeutil/pipe.go:47-49 | The held message is gone and those behind it are next. |
| PipeNodes.PullNode.Reply | nodeutil/pipe.go:70-100 | A match is consumed; anything else stays, and at the end the reply is a miss with the error that was given to Close. |
| PipeNodes.PullNode.ReadObject | nodeutil/pipe.go:70-100 | The reading walk gets what `Pulled` says, which is a panic as soon as a choice is looked ahead at. When it meets an end with an error it fails with that error and returns no tree; it fails with nothing else. |
| PipeNodes.PushNode.WriteObject | nodeutil/pipe.go:101-129 | The writing walk sends exactly the messages of the tree, those of chosen cases included. |
| JsonText.ReadPrinted | nodeutil/json_wtr.go:82-153 | Text is read as the JSON it was printed from, whatever follows; so it is balanced and delimited right. |
| JsonText.TreeOfJson | nodeutil/json_rdr.go:94-136 | The reader's nodes give back what a walk sees of the tree: from the members alone they choose the cases that the writer has visited. |
| JsonText.OfferedIsVisited | nodeutil/json_rdr.go:97-115 | A walk over the reader visits the same definitions as the walk that wrote the members, through choices nested to any depth. |
| JsonText.RoundTrip | nodeutil/json_rdr.go:56-136 | The text of a tree that fits its schema is read back as that tree. |
| JsonWriter.WriteContainer | nodeutil/json_wtr.go:48-80 | The insert writes exactly the JSON text of the tree in schema order, the chosen case of every choice included, with defaults below the root. |
| JsonWriter.WriteList | nodeutil/json_wtr.go:54-79 | A list as root becomes an object with that list only. |
| JsonWriter.Container.Insert | nodeutil/json_wtr.go:82-153 | One node's members, with commas between them and none in front of the first. |
| JsonWriter.Container.InsertWalk | node/edit.go:40-57 | The members of the definitions that the iterator yields. |
| JsonWriter.Container.InsertRows | nodeutil/json_wtr.go:140-151 | The items of a list, likewise. |
| JsonWriter.Container.OnChild | nodeutil/json_wtr.go:99-117 | Comma unless first, name, opening brace or bracket, and a node that has written nothing yet. |
| JsonString.RoundTrip | nodeutil/json_wtr_str.go:22-91 | Unescaping what was written for the UTF-8 of any sequence of code points, up to U+10FFFF and without surrogates, gives the same bytes back, with HTML escaped or not. |
| JsonString.UnescapeEscape | nodeutil/json_wtr_str.go:55-64 | For any bytes the result is the string with U+FFFD for each byte that is part of no character (`SanitizedIs`); in particular the text is well-formed, without bare quotes or backslashes. |
| JsonString.SizeOfEncoded | nodeutil/json_wtr_str.go:55-64 | Where the UTF-8 of a code point comes next the decoder takes just these bytes. |
| JsonString.SizeIsEncoded | nodeutil/json_wtr_str.go:55-64 | And it takes nothing else as a character. |
| JsonString.SanitizedIs | nodeutil/json_wtr_str.go:55-64 | What comes back is the same character if one comes next, else U+FFFD for one byte. |
| JsonString.EscapeFirst | nodeutil/json_wtr_str.go:22-91 | Each character is written by itself, whatever follows. |
| JsonString.AsciiIsWritten | nodeutil/json_wtr_str.go:27-54 | How each of the first 128 characters is written, byte for byte. |
| JsonString.OthersAreWritten | nodeutil/json_wtr_str.go:55-82 | All other characters are written as they are, but for U+2028 and U+2029. |
| JsonString.EscapeIsClean | nodeutil/json_wtr_str.go:27-54 | No control character in the text, and none of `&`, `<`, `>` if HTML is escaped. |
| JsonString.Buffer.WriteString | nodeutil/json_wtr_str.go:22-91 | The loop with its window loses and repeats no byte. |
| IfFeatureReading.EvaluatesReread | meta/core.go:768-818 | Every expression of the grammar is evaluated, without an error, as its rereading: what follows an `or` runs into its brackets, and those close at the next closing bracket or at the end. |
| IfFeatureReading.RunFactor | meta/core.go:790-818 | Within any expression a factor does to the stack what the rereading says, and what follows goes into its open brackets. |
| IfFeatureReading.BlankIsError | meta/core.go:824-852 | An expression is an error if and only if blanks come last. |
| IfFeatureRight.PrecedenceExactly | meta/core.go:790-818 | An expression that names no feature twice is right, `not` before `and` before `or`, under all features if and only if wherever an `and` follows, a false operand, and wherever an `or` follows, a true one passes through the brackets still open. |
| IfFeatureRight.Precedence | meta/core.go:790-818 | With that condition it is right whatever names are repeated. |
| IfFeatureRight.ClosedAnd | meta/core.go:790-818 | What follows an `and` is joined to the operand inside the brackets that are still open. |
| IfFeatureRight.ClosedOr | meta/core.go:790-818 | So is what follows an `or`. |
| IfFeatureRight.NegatedOr | meta/core.go:794-808 | `not (t1 or t2) and f` is evaluated right if and only if `f` holds. |
| IfFeatureRight.NegatedOrExample | meta/core.go:794-808 | `not (a or b) and c` without features evaluates to true, which is wrong. |
| IfFeatureRight.AndOrAndIsRight | meta/core.go:794-808 | `a and (b or c) and d` is right under all features. |
| IfFeature.TokensOfText | meta/core.go:824-852 | However tokens are spaced, they are read as written, provided no blank comes last. |
| IfFeature.Evaluator.Next | meta/core.go:824-852 | It takes one token and always moves forward. |
| IfFeature.Evaluator.Eval | meta/core.go:790-818 | The recursive loop does what `Run` says, and ends on every input. |
| IfFeature.Evaluator.Evaluate | meta/core.go:768-780 | The verdict: an error for a missing or a superfluous operand, else the operand. |
| IfFeatureErrors.WrongCountIsError | meta/core.go:768-818 | Tokens whose brackets close no more than was opened are an error unless there is exactly one operand more than there are `and` and `or` together. |
| IfFeatureErrors.LeftOutIsError | meta/core.go:854-862 | An expression of the grammar from which any one feature is left out is an error, whatever the features are. |
| PathSelector.CompilesRight | node/path_matcher.go:86-159 | The compiled paths are those the selector stands for, in order, if and only if every group follows a step of its alternative. |
| PathSelector.CompilesWritten | node/path_matcher.go:55-84 | The same for the written form of every selector. |
| PathSelector.CodeAltsRight | node/path_matcher.go:118-159 | Concatenation is the cross product and `;` is append. |
| PathSelector.CodeAltsAtMost | node/path_matcher.go:118-133 | A group that follows no step loses names. |
| PathSelector.AltsEndsAre | node/path_matcher.go:187-202 | Matching the selector directly is matching one of its paths. |
| PathMatcher.PathMatchExpression.Parsex | node/path_matcher.go:86-116 | The compiler's loop over linked segments yields the paths of `Parse`, and ends. |
| PathMatcher.PathMatchExpression.AddSubExpression | node/path_matcher.go:118-133 | The paths become the cross product, and no path made earlier changes. |
| PathMatcher.PathMatchExpression.AddNextExpression | node/path_matcher.go:135-137 | The paths are appended. |
| PathMatcher.PathMatchExpression.AddSegment | node/path_matcher.go:139-159 | Every path gets one segment more. |
| PathMatcher.SegSlice.Copy | node/path_matcher.go:36-53 | The copy has the same names and shares no segment. |
| PathMatcher.SegSlice.Len | node/path_matcher.go:26-34 | The number of segments from tail to head. |
| PathMatcher.Lexer.Next | node/path_matcher.go:66-80 | It takes one token and moves forward. |
| PathMatcher.ParsePathExpression | node/path_matcher.go:55-59 | A selector is compiled from its text. |
| PathMatcher.SliceMatches | node/path_matcher.go:204-233 | True exactly if the path's names follow the base in the candidate; a candidate that is less deep than the path crashes it. |
| PathMatcher.PathMatches | node/path_matcher.go:170-185 | The paths are tried in order; without paths everything matches. |
| PathMatcher.CompiledMatches | node/path_matcher.go:170-233 | With a candidate deep enough a compiled selector never crashes, and matches exactly if the selector itself matches from the base on. |
| KeyIndex.ListNode.Run | nodeutil/reflect.go:179-223 | Any run of appends, each followed by the writing of its key, of deletes, lookups and row reads, with equal keys and with or without a function to tell: each reply is one that a plain list allows, which for equal keys is any of them, up to a crash. |
| KeyIndex.RunIsPlain | nodeutil/reflect.go:179-223 | If the keys of the run are distinct, that is exactly what scanning a plain list replies. |
| KeyIndex.ListNode.Find | nodeutil/reflect.go:193-211 | Through the cached index a key is found exactly if some item has it, and if keys are distinct where a scan finds it. |
| KeyIndex.ListNode.Delete | nodeutil/reflect.go:201-209 | Exactly the item of the key goes, the others keep their order, the index is dropped; without a function to tell it crashes. |
| KeyIndex.ListNode.New | nodeutil/reflect.go:185-192 | An item is appended, with its key leafs unset or not, and the index is dropped. |
| KeyIndex.ListNode.SetKey | nodeutil/reflect.go:185-192 | The key of the appended item is written while there is no index. |
| KeyIndex.ListNode.Row | nodeutil/reflect.go:212-220 | The item of a row and its key, or none. |
| KeyIndex.ListNode.BuildKeys | nodeutil/reflect.go:149-162 | The index is sorted and holds every position with its key. |
| KeyIndex.Search | nodeutil/reflect.go:132-139 | Binary search finds the first entry that is not less. |
| KeyIndex.FoundRight | nodeutil/reflect.go:138-147 | Where the search ends the key is found if and only if some item has it. |
| KeyIndex.CompareThrough | val/util.go:38-49 | Comparing keys value by value is transitive. |
| KeyIndex.EqualIs | val/util.go:26-36 | Keys compare equal exactly if they are. |
| KeyIndex.DeletedKeys | nodeutil/reflect.go:203-205 | With distinct keys, removing one leaves exactly the others. |
| Lexer.LexDump | parser/lexer.go:785-803 | For every input: it ends with an error, hangs or crashes exactly as `LexerText.Text` says; up to there the tokens are delivered in order; of a text that is read to its end all tokens are delivered if and only if each statement has fewer than 64. If the input is the printed form of some statements of the grammar, with any gaps, there is no error, and if these are short enough just their tokens are delivered. Conversely what is delivered without an error are the tokens of statements of which the input, but for gaps, consists. |
| LexerPrinted.PrintedIsRead | parser/lexer.go:468-724 | Statements of the grammar - a keyword with a name, with a string that is bare, quoted or joined, with a number, a boolean or another fixed word, a count, a deviation, a body, an end, an extension with arguments - printed with any blanks and closed comments behind each token are read as just these tokens, with their types, and the gaps are what is skipped. |
| LexerPrinted.StatementRead | parser/lexer.go:468-731 | The same for one statement at any place of a text. |
| LexerPrinted.DescriptionIsRead | parser/lexer.go:629-672 | `description "a b";` gives three tokens, the second of them a string. |
| LexerReading.ReadIsPrinted | parser/lexer.go:468-724 | Whatever is read to its end is printed from statements of the grammar, with gaps. |
| LexerReading.StatementIs | parser/lexer.go:468-731 | What is read as one statement are the tokens of a statement of the grammar. |
| LexerFailures.KeywordFails | parser/lexer.go:487-701 | A text that goes on with a keyword behind some statements fails just behind this keyword if and only if what follows cannot be the argument of the keyword: no name, none of the fixed words, neither a count nor a number, no `{`, or a quote that is never closed. |
| LexerFailures.NamesOfKeywords | parser/lexer.go:297-326 | Where the name of an extension begins with a keyword, no extension statement is read. |
| LexerFailures.OpenExtensionHangs | parser/lexer.go:704-721 | A text that ends within an extension statement is never left. |
| LexerGaps.SkipExactly | parser/lexer.go:254-281 | Exactly blanks and closed comments are skipped, up to where no other begins, `/*/` being closed too; the loop never ends if and only if they lead to a `/*` that is not closed, and reads beyond the text if and only if they lead to a `//` without an end of line. |
| LexerForms.FormRead | parser/lexer.go:472-701 | Where a keyword comes next its own form is found: none that is tried before can be taken for it. |
| Lexer.Lexer.NextToken | parser/lexer.go:750-764 | The next token that waits; a new statement is read only when none does; what has been read and what lies ahead stay the same text, and whether a token is lost is decided by the statements ahead. |
| Lexer.Lexer.constructor | parser/lexer.go:771-782 | A new lexer has the whole text ahead, behind the blanks and comments at its beginning. |
| Lexer.PushHolds | parser/lexer.go:745-748 | A pushed token is behind the others that wait, as long as fewer than 64 do. |
| Lexer.PushOverflows | parser/lexer.go:745-748 | The 64th token makes the ring look empty. |
| Lexer.PopHolds | parser/lexer.go:739-743 | The oldest token is taken and the others wait in order; head and tail meet exactly if none waits. |
| Lexer.Lexer.PushToken | parser/lexer.go:745-748 | One more token waits, or the ring overflows. |
| Lexer.Lexer.PopToken | parser/lexer.go:739-743 | The oldest token that waits. |
| Lexer.Lexer.Emit | parser/lexer.go:733-737 | The text since `start` becomes a token, and all blanks and comments behind it are skipped, or it never returns. |
| Lexer.Lexer.AcceptBlanks | parser/lexer.go:254-281 | The loops end where the blanks and comments end; a `/*` without an end makes them endless, a `//` in the last line makes them index out of range. |
| Lexer.Lexer.AcceptKeyword | parser/lexer.go:297-326 | A keyword is taken exactly if it is next; else nothing changes. |
| Lexer.Lexer.AcceptIdent | parser/lexer.go:446-466 | An identifier is taken exactly if its characters are next, as far as they go, and with a prefix exactly if there is one colon among them. |
| Lexer.Lexer.AcceptNumber | parser/lexer.go:389-421 | A number is taken exactly if digits, signs or points as its type allows come next, and its token is all of them; else nothing changes. |
| Lexer.Lexer.AcceptString | parser/lexer.go:340-382 | A string from quote to quote, escapes included, with all that are joined to it by `+`, or up to the next blank, `;` or `{`; an error exactly if a closing quote is missing, also that of a joined one. |
| Lexer.Lexer.AcceptArgs | parser/lexer.go:487-701 | What follows the keyword of a statement, argument by argument, up to the first that is missing. |
| Lexer.Lexer.AcceptExtension | parser/lexer.go:704-721 | The name of an extension, then numbers and strings up to `;` or `{`; it is an error if there is no such name or a string has no end, and endless exactly if the input ends among them. |
| Lexer.Lexer.LexBegin | parser/lexer.go:468-724 | The tokens of one statement from this position on, those before an error included; an error is reported exactly if the statement is wrong, and at the end of the input nothing is read. |
| LexerText.TextIsPieces | parser/lexer.go:733-737 | A text that is read is what is skipped first and then its tokens, each with what is skipped behind it, without gap or overlap, and each skipped text is all of the blanks and comments at its place. |
| LexerText.StatementEnded | parser/lexer.go:468-731 | Of the tokens of a statement the last one is `;`, `{` or `}`, and no other one is. |
| LexerText.StatementShort | parser/lexer.go:468-724 | A statement begins with a keyword or the name of an extension; only those with joined strings and extension statements have more than three tokens. |
| LexerText.PlainTextFits | parser/lexer.go:739-748 | So a text without joined strings and extension statements never overflows the ring. |
| LexerText.CoversBoth | parser/lexer.go:733-737 | Further tokens continue the input where those before them end. |
| Identity.Compiler.Identity | meta/compile.go:204-230 | Everything an identity is derived from is compiled, once; circles end; a newly compiled one has all the bases that it names, and `derived` stays the inverse of `base`, with multiplicities. |
| Identity.Compiler.CompileAll | meta/compile.go:204-230 | In any order: success exactly if every base can be found, and then each identity has as many bases as it names, the `k`-th being what the `k`-th name says, and is among the derived of each, as often as it names it. |
| Identity.LinkKeeps | meta/compile.go:223-224 | Adding an edge on both sides keeps the two inverse to each other. |
| Identity.DerivedIsInverse | meta/compile.go:223-224 | One is among the derived of another as often as it names the other as a base. |
| Identity.Compiler.Derived | meta/core.go:736-747 | The names of the identities that reach this one through bases, itself included, and no others; under each name one of them, so with distinct names exactly these. |
| Identity.ClosureIsReach | meta/core.go:742-747 | What the recursion gathers is the reflexive and transitive closure. |

## Left out

- GroupingResolver.Resolver.Resolve: that the graph is the expansion is stated for clean texts, a condition that is sufficient; of other texts, some of which come out right, `ResolverRun.Resolves` says what happens in memory. Refine, augment, deviations, if-feature, when, actions, notifications and choices are not part of it, and names of groupings are taken as already looked up (meta/resolver.go:467-510).
- Definitions are cells of an arena in place of Go objects, those of a module laid out parent first, those of groupings below them; links to parents are left out.
- Editor.Editor.Edit: lists have single string keys and no order in the target, which is a Go map; the items of the source come in any order. A name stands either for a leaf or for a child throughout a tree.
- Editor.Editor.ClearChoiceCase: a choice in the case is asked for what it holds before anything is deleted; Go asks while it deletes, which makes no difference as names are used once.
- Editor.Editor.ChooseCase: Go asks the cases of a choice in the order of a map, which may change from call to call, the model in that of a sequence, which may be any but stays; where at most one case is populated the order makes no difference.
- Conversion of values, `when`, constraints, triggers and errors returned by nodes are not modelled; a node that fails is not part of any edit.
- PipeReader.TreeComesThrough: the walk inserts into something that accepts everything; a Close with an error is the subject of PipeErrors. Defaults that the reading walk fills in for leafs it does not receive are left out; of data that come through none is missing.
- JsonText.RoundTrip: leafs are strings; numbers, enumerations, leaf-lists, pretty-printing and encoding/json itself are left out, the last being a reader of tokens here. The key of a list item is any function of the list and the item; a key that cannot be read from an item is left out (nodeutil/json_rdr.go:77-84).
- JsonString.Unescape: surrogate pairs are not read, as they are never written.
- IfFeature.Evaluator.Evaluate: texts that are no expression of the grammar get what `Run` says of them, which is an error if operands are missing (`IfFeatureErrors.WrongCountIsError`); a closing bracket without an opening one ends the evaluation without an error. `IfFeatureRight.PrecedenceExactly` has no counterpart for expressions that name a feature twice, for which `IfFeatureReading.EvaluatesReread` says what they evaluate to.
- PathMatcher.SliceMatches: paths have definitions at every segment, so that comparing them without keys compares lengths (node/path.go:104-119, node/path.go:144-152).
- KeyIndex.ListNode.BuildKeys: the sort of the Go library is any sort; the model inserts one by one. Keys do not change while there is an index.
- Identity.Compiler.Derived: bases do not form a circle, or the recursion would not end.
- Lexer.LexDump: characters stand for decoded runes, and which of them are blanks, letters and digits is left open; the printed form (`LexerGrammar.Usual`) needs letters to include `a` to `z`, blanks to be neither letters nor digits, and none of these to be punctuation.
- LexerPrinted.PrintedIsRead: a bare string begins no comment and, where a number may stand, not like a number; a number with a plus sign does not follow a quoted string in an extension, to which it would be joined; the name of an extension begins with no keyword (`LexerGrammar.Clean`).
- Lexer.Lexer.NextToken: after an error it returns none of the tokens of the wrong statement; Go may still hand them out, from a ring to which the error has been appended (parser/lexer.go:162-169), before its callers look at the error.
- Generated parsers, loading of modules, Go structs through reflection, and the thin delegating nodes (Diff, Tee, Dump and the like).
