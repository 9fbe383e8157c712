# A verified model of Geany's LSP client

Dafny modules that model the harder parts of the LSP client plugin for Geany and of the JSON
library it ships, and prove what those parts keep. `dafny verify dfyconfig.toml` checks
everything.

## What is modelled

**The symbol tree** (`Symbols`, `LineTree`, `SymbolTables`, `RowStore`, `Survival`,
`SymbolTree`).
`update_symbols` turns the rows of the symbol tree into those of a new symbol list in two
passes. The tree store is the list of its rows in pre-order, each with its depth and an
identity that is never reused; handles to rows are identities. The balanced trees of GLib are
binary search trees of any shape, and list links are items with their own identity.

**Text, edits and synchronisation** (`Text`, `Splice`, `Sorting`, `Layouts`, `EditPlaces`,
`TextEdits`, `DocumentSync`). A text is a sequence of code points with UTF-8 and UTF-16 widths.
Text edits are applied backwards to a buffer that changes under them, and each is resolved in
the buffer as it is by then; `Simultaneous` says what LSP 3.17 means by a list of edits, and
`EditPlaces` what both leave at each place of the text. The synchronisation is a run of editor events against one server whose copies
are rebuilt from the messages sent; a message that breaks the protocol has no result, so the
theorem also says that none does.

**Semantic tokens** (`SemanticTokens`). The cached array, deltas applied to it, and the
relative encoding of positions, against a server whose arrays are known. `Selections` is about
places picked out of a sequence in order.

**The JSON library** (`JsonTree`, `JsonParser`, `JsonDocument`, `JsonErrors`, `JsonGenerator`, `JsonObject`,
`JsonEquality`, `JsonHash`, `JsonBuilder`, `JsonPathCompile`, `JsonPathWalk`, `VariantTypes`,
`VariantJson`). Parser and printer meet at tokens; doubles are reals that printing and
scanning preserve. The grammar of RFC 8259, sections 2 to 5, is a datatype of parse trees with
the tokens each derives. Containers under construction live in a heap, because the builder
attaches a container before it is filled. Variants carry the type strings the code builds them
with.

**Servers and completion** (`ServerLifecycle`, `Completion`). Processes, timers and responses
are events that come in any order; the pipeline from the parsed items to the shown list is
followed step by step.

Where the source changes things in place there is a class or a method with a loop, proved
against a function or predicate that says what it does; the laws are lemmas about those.

## Where the code and what is said of it differ

- The search for a parent row with `lower` set keeps the root of the tree when no earlier line
  is strictly nearer, so it can return a later line (`LineTree.LowerMeetsIntentIff`).
- Text edits with one start are applied in array order: insertions come out reversed, and the
  end of a replacement behind them is resolved in the inserted text, so that it deletes that
  instead of its range. LSP 3.17, section "Text Edit[]", allows such lists. They are handled
  right whatever the texts exactly if no two starts are equal (`TextEdits.AnyTextsMeetStandardIff`);
  for given texts `TextEdits.MeetsStandardIff` says when.
- A semantic token edit without `data` is skipped, although the standard allows it
  (`SemanticTokens.PatchIsMeantIff`).
- Empty member names are accepted by the parser: the scanner yields an empty string for them,
  not a null pointer, so the error for missing names is never given.
- In the lenient mode a document may hold further containers after its root; they are parsed
  and dropped (`JsonDocument.LoadsIff`).
- An integer and the double equal to it never hash equally, and two trees equal to a third need
  not be equal if different integers of theirs meet a double in it
  (`JsonHash.EqualTreesFeedTheSameIff`, `JsonEquality.TransitiveIff`).
- Versions of documents are counted without sign and sent as signed numbers, so they fall back
  after 2^31 (`DocumentSync.VersionsIncreaseIff`).
- `..*` and `...name` match nothing (`JsonPathWalk.OtherDescentsFindNothing`), and `..[` is
  refused (`JsonPathCompile.BracketAfterDescentRefused`).
- A wildcard of a path that meets a node of another kind takes that node as a result, and the
  rest of the path is not applied (`JsonPathWalk.StoppedWalk`).
- An initialize answer that arrives during a shutdown opens the gate for callbacks again; no
  ordinary callback can get through because none is waiting (`ServerLifecycle.LateAnswerOpensGate`).
- The filter text of a completion item is read but never stored, so filtering goes by the
  label, and an item whose filter text matches can be dropped
  (`Completion.MatchingFilterTextIsKeptIff`).
- Items with and without sort text in one list can make the comparison go round in a circle, in
  either sort (`Completion.PassTransitiveIff`).

Parameters stand for what is not in the repository or is a library's: icons, rounding of
integers to doubles, hash functions of strings and numbers, reading numbers from strings,
validity of object paths and signatures, case folding and lowercasing.

## Model

| member | source | states |
|---|---|---|
| `SymbolTree.UpdateSymbols` | lsp/src/lsp-symbol-tree.c:536-675 | For any starting forest and any list, the rows afterwards hold exactly the listed symbols as multisets. Row by row: a row stays, with identity, depth, parent and entry, exactly if the row above it stays and the list has its entry once more than rows of it stayed before it, whatever the lines; every other row is gone. If the list has every entry as often as the rows, all stay. New rows are placed by their scopes, under the row found for their own line, the latest first; a forest whose rows sat under the right scopes still does; an unchanged list changes no row |
| `Survival.AllSurvive` | lsp/src/lsp-symbol-tree.c:573-624 | If every entry is listed at least as often as there are rows of it, every row survives, whatever the lines |
| `Survival.SurvivesIffListed` | lsp/src/lsp-symbol-tree.c:573-624 | Where no two rows are the same entry, a row survives exactly when it and every row above it are still listed |
| `Survival.NextSurvivesIff` | lsp/src/lsp-symbol-tree.c:584-586 | In the middle of the walk: the next row survives exactly when the links that are left hold one of its entry |
| `SymbolTree.BuildTables` | lsp/src/lsp-symbol-tree.c:551-566 | The first index mirrors the list, the second has a key for every wanted parent and no row yet |
| `SymbolTree.FirstPass` | lsp/src/lsp-symbol-tree.c:572-625 | The pre-order walk ends, has visited every surviving row, and rows kept plus symbols left over are the list |
| `SymbolTree.VisitRow` | lsp/src/lsp-symbol-tree.c:573-624 | Each turn keeps the whole invariant of the walk and brings the end closer, even when a removal takes unvisited descendants; and it does one of three things: a row whose entry is still listed stays and takes over a listed symbol of its entry, one whose entry is not goes with its descendants and nothing else goes, one without a symbol is passed over |
| `SymbolTree.KeepRow` | lsp/src/lsp-symbol-tree.c:592-618 | A kept row gets an equal symbol, the link leaves the list and the index together, and the row becomes findable as a parent |
| `SymbolTree.VisitListed` | lsp/src/lsp-symbol-tree.c:587-621 | A row whose entry is still listed stays, takes the nearest listed symbol of the entry, whatever its line, and the walk moves to the next row |
| `SymbolTree.VisitObsolete` | lsp/src/lsp-symbol-tree.c:585-586 | A row whose symbol is gone is removed with its descendants, nothing else is, and the walk stays at the same place |
| `SymbolTree.VisitBlank` | lsp/src/lsp-symbol-tree.c:578-579 | A row without a symbol is left alone |
| `SymbolTree.LookupListed` | lsp/src/lsp-symbol-tree.c:584 | The link found is one of the same entry with a line as near as any, and none is found only if none is listed |
| `SymbolTree.UpdateParents` | lsp/src/lsp-symbol-tree.c:376-394 | After a row is entered every saved handle still denotes a live row with the full name it is filed under, and no handle is lost |
| `SymbolTree.LookupParent` | lsp/src/lsp-symbol-tree.c:397-414 | The handle found is live and has the wanted full name; it is the one filed under the line the tree search returns |
| `SymbolTree.ChooseParent` | lsp/src/lsp-symbol-tree.c:638-648 | The parent chosen has the symbol's scope as its full name, and no row of that name is nearer for the symbol's own line, by the search for an earlier line; none is chosen only if no row has that name |
| `SymbolTree.AddSymbol` | lsp/src/lsp-symbol-tree.c:629-671 | Adding one left-over symbol makes exactly one fresh row, the first child of that parent or of none; it keeps the multiset balance, the scopes, the placement and both properties of the handles |
| `SymbolTree.SecondPass` | lsp/src/lsp-symbol-tree.c:629-671 | All left-over symbols are added; nothing changes if none is left over |
| `SymbolTree.InsertionPlaced` | lsp/src/lsp-symbol-tree.c:655-663 | Inserting a row under a row named by its scope leaves every new row well placed |
| `SymbolTree.RemovalInherits` | lsp/src/lsp-symbol-tree.c:316-333 | Removing a row with its descendants leaves the other rows their identity, depth, parent and entry |
| `SymbolTree.IconsFollowKinds` | lsp/src/lsp-symbol-tree.c:597-612 | Equality ignores icons; if icons are a function of the kind the rows hold the listed symbols icon and all |
| `SymbolTables.SymbolTable.Insert` | lsp/src/lsp-symbol-tree.c:430-445 | The index holds exactly one link more, even if another with the same entry and line is there |
| `SymbolTables.SymbolTable.Lookup` | lsp/src/lsp-symbol-tree.c:448-467 | An item is returned exactly when one of the same entry remains, and it is a nearest one by line |
| `SymbolTables.SymbolTable.Remove` | lsp/src/lsp-symbol-tree.c:470-493 | The index holds exactly this link less; an emptied line leaves the tree |
| `LineTree.Search` | lsp/src/lsp-symbol-tree.c:335-360 | On a search tree of any shape the walk with `lower` false ends on a key of least distance; with `lower` true the result is characterised exactly |
| `LineTree.LowerMeetsIntentIff` | lsp/src/lsp-symbol-tree.c:335-360 | With `lower` the result is the nearest line at or before the wanted one exactly when the root is not after it, or some line before it is strictly nearer than the root |
| `LineTree.LowerCanReturnALaterLine` | lsp/src/lsp-symbol-tree.c:335-360 | A tree in which the search with `lower` returns a later line although an earlier one exists |
| `LineTree.Insert` | lsp/src/lsp-symbol-tree.c:376-394 | The tree stays a search tree and holds the same pairs with one set |
| `LineTree.Remove` | lsp/src/lsp-symbol-tree.c:484-490 | The tree stays a search tree and holds the same pairs with one gone |
| `RowStore.AnyNext` | lsp/src/lsp-symbol-tree.c:280-313 | The iterator moves to the next row in pre-order, over the descendants if asked to |
| `RowStore.TreeStore.RemoveRow` | lsp/src/lsp-symbol-tree.c:316-332 | The row goes with everything below it, and the iterator stands on the row that followed |
| `RowStore.TreeStore.InsertFirstChild` | lsp/src/lsp-symbol-tree.c:655-663 | A fresh row becomes the first child of its parent and nothing else moves |
| `RowStore.ParentAfterRemoval` | lsp/src/lsp-symbol-tree.c:316-332 | Rows that stay keep their parents |
| `RowStore.ParentAfterInsertion` | lsp/src/lsp-symbol-tree.c:655-663 | Rows that were there keep their parents |
| `RowStore.LastChildEndsWithParent` | lsp/src/lsp-symbol-tree.c:280-313 | A row without a next sibling ends where its parent ends, so climbing misses no row |
| `Symbols.EqualMeansSameCore` | lsp/src/lsp-symbol.c:194-202 | Symbol equality is equality of all fields but the icon; the bucket key fixes the full name and the scope |
| `Text.ConversionsMeetStandard` | lsp/src/lsp-utils.c:38-54 | At every code point of LF text the two conversions give and take the position of LSP 3.17, section "Position", in UTF-16 code units |
| `Text.ValidPositionRoundTrip` | lsp/src/lsp-utils.c:38-54 | On valid positions the conversions are inverse to each other |
| `Text.PositionsOrdered` | lsp/src/lsp-utils.c:448-459 | Positions are ordered as the places they point at |
| `Text.Utf16OffsetToBytes` | lsp/src/lsp-signature.c:107-119 | The loop stops at the first code point that reaches the offset in code units and returns its byte offset |
| `Text.EndIsFoundLater` | lsp/src/lsp-utils.c:46-54 | The end of a stretch, resolved again after text was inserted in front of the stretch, is found behind the place of the insertion |
| `Text.EndIsReached` | lsp/src/lsp-utils.c:46-54 | And it is found within the inserted text and the stretch, so what follows is not touched |
| `Splice.BackwardsIsSimultaneous` | lsp/src/lsp-semtokens.c:391-397 | Edits applied last start first have the effect of applying all at once to the original, whatever the order of the array, if starts differ |
| `Splice.BackwardsIsSimultaneousReversed` | lsp/src/lsp-semtokens.c:391-397 | With equal starts the texts of edits that only insert come out in reverse order and nothing else differs |
| `Splice.ReversalHarmlessIff` | lsp/src/lsp-utils.c:480-491 | Reversing the texts inserted at a place changes nothing exactly when they read the same both ways |
| `Splice.SimultaneousUnordered` | lsp/src/lsp-utils.c:480-491 | The meaning of edits with different starts does not depend on their order |
| `TextEdits.SortedFromTheBack` | lsp/src/lsp-utils.c:448-483 | After sorting no edit starts behind one before it, and the edits are the same as before |
| `TextEdits.SortingKeepsGroups` | lsp/src/lsp-utils.c:483 | The edits that start at one place keep their array order |
| `TextEdits.Buffer.DeleteRange` | lsp/src/lsp-utils.c:421 | The bytes of the range go |
| `TextEdits.Buffer.InsertText` | lsp/src/lsp-utils.c:431 | The text is inserted at the byte position |
| `TextEdits.ApplyTextEdit` | lsp/src/lsp-utils.c:405-445 | One edit replaces what lies between the places its positions lead to in the text as it is, wherever these are |
| `TextEdits.ValidIsReplaced` | lsp/src/lsp-utils.c:405-445 | If the edit is valid in the text that is exactly its range |
| `EditPlaces.Step` | lsp/src/lsp-utils.c:485-491 | Applying the next edit from the back, resolved in the changed text, to what the others leave gives what all of them leave, place by place; this holds for insertions and for a replacement behind insertions at its start |
| `TextEdits.NextEdit` | lsp/src/lsp-utils.c:485-491 | One turn of the loop: the edit starts where it did in the original, and leaves what the edits up to it leave |
| `TextEdits.SortedIsDescending` | lsp/src/lsp-utils.c:483 | A legal list, sorted, can be run from the back: edits with one start are insertions but for the last |
| `TextEdits.ApplySorted` | lsp/src/lsp-utils.c:485-491 | The loop over the sorted array leaves what the edits leave place by place |
| `TextEdits.ApplyTextEdits` | lsp/src/lsp-utils.c:462-494 | The whole operation on every list that LSP 3.17, section "Text Edit[]", allows: edits that do not overlap, with any number of insertions and then one replacement or deletion at a start |
| `TextEdits.MeetsStandardIff` | lsp/src/lsp-utils.c:462-494 | For every legal list the result is the standard's if at every place the replacement covers as much as it should and the texts left there read as they should; and only then, unless covering too little at one place makes up for too much at another |
| `TextEdits.MixedOnceMeetsStandardIff` | lsp/src/lsp-utils.c:462-494 | The same as an equivalence without exception if at most one start is shared by insertions and a replacement, so in particular if only insertions share starts |
| `TextEdits.AnyTextsMeetStandardIff` | lsp/src/lsp-utils.c:462-494 | A list of ranges is handled as the standard says whatever the texts exactly when no two ranges have the same start |
| `TextEdits.DistinctStartsMeetStandard` | lsp/src/lsp-utils.c:462-494 | With different starts the result is that of LSP 3.17, section "Text Edit[]", for every array order |
| `TextEdits.TwoInsertionsComeOutReversed` | lsp/src/lsp-utils.c:462-494 | Two insertions at one place come out in the wrong order |
| `TextEdits.ReplacementAfterInsertionDeletesIt` | lsp/src/lsp-utils.c:462-494 | An insertion and then a replacement at one start: the replacement deletes the inserted text instead of its range |
| `TextEdits.MistakesCanMakeUp` | lsp/src/lsp-utils.c:462-494 | A list for which the result is the standard's although the edits at neither place do what they mean |
| `EditPlaces.AgreeIff` | lsp/src/lsp-utils.c:462-494 | What applying the edits leaves and what they mean, compared place by place |
| `DocumentSync.LspServer.GetNextDocVersionNum` | lsp/src/lsp-sync.c:80-87 | A 32-bit unsigned counter per document, shared by all servers |
| `DocumentSync.LspServer.DidOpenDocument` | lsp/src/lsp-sync.c:99-143 | The document is open afterwards; opening an open one does nothing; with fewer than 50 on the list nothing is closed, the document goes to its end and exactly one message is sent, its opening with this text; a full list first closes its oldest entry |
| `DocumentSync.LspServer.DidCloseDocument` | lsp/src/lsp-sync.c:146-175 | The document is not open afterwards, and is off the list; a message is sent only if it was open |
| `DocumentSync.LspServer.DidChangeDocument` | lsp/src/lsp-sync.c:217-274 | Exactly one change message more, with range and range length in incremental mode or with the full text; nothing is opened or closed |
| `DocumentSync.LspServer.OnEditorNotify` | lsp/src/lsp-main.c:707-773 | Open before the edit, then a deletion before and an insertion after it in incremental mode, and the whole text after it in full mode |
| `DocumentSync.LspServer.SendChange` | lsp/src/lsp-main.c:735-773 | Which of the four notifications sends a change, and with what |
| `DocumentSync.EveryRun` | lsp/src/lsp-main.c:707-773 | Over every run of edits, openings, closings and restarts in either mode: no message breaks the protocol, every copy of an open document equals the buffer, the list is the open set once each with at most 50 entries, oldest first, and versions count up by one |
| `DocumentSync.StepKeeps` | lsp/src/lsp-main.c:707-773 | Every event keeps that invariant |
| `DocumentSync.EditReachesServer` | lsp/src/lsp-main.c:735-753 | After an insertion while a server runs, the server's copy is the new buffer |
| `DocumentSync.DeletionReachesServer` | lsp/src/lsp-main.c:754-773 | The same after a deletion |
| `DocumentSync.InsertionRange` | lsp/src/lsp-main.c:735-750 | An empty range at the insertion point, taken from the changed buffer, points at the same place of the unchanged copy |
| `DocumentSync.DeletionRange` | lsp/src/lsp-main.c:754-761 | The range taken before the deletion covers exactly the deleted text, and the range length is its number of code units |
| `DocumentSync.EvictsOldest` | lsp/src/lsp-sync.c:110-113 | An opening that finds the list full closes the open document opened longest ago, and nothing else |
| `DocumentSync.OpenUntilClosed` | lsp/src/lsp-sync.c:99-175 | In every run, an open document stays open until it is closed, is the oldest on a full list when another opens, or the server restarts |
| `DocumentSync.VisibleIsOpen` | lsp/src/lsp-main.c:707-735 | A document shown while a server runs is open there afterwards |
| `DocumentSync.VersionsIncreaseIff` | lsp/src/lsp-sync.c:80-134 | The versions sent for a document, which go out as signed 32-bit numbers, strictly increase exactly as long as fewer than 2^31 were sent |
| `DocumentSync.VersionFallsBackIff` | lsp/src/lsp-sync.c:217-240 | From one version to the next the number falls back exactly where the sign changes |
| `SemanticTokens.GuardNeverFires` | lsp/src/lsp-semtokens.c:155-161 | On legal edits applied backwards the bounds check never refuses one |
| `SemanticTokens.PatchIsMeant` | lsp/src/lsp-semtokens.c:334-413 | A delta whose edits all carry data, are in bounds, apart and with different starts patches the cache to the array meant by LSP 3.17, section "Semantic Tokens" |
| `SemanticTokens.PatchIsMeantIff` | lsp/src/lsp-semtokens.c:361-397 | With edits that lack data the result is the one meant exactly when each of those deletes nothing |
| `SemanticTokens.DeletionWithoutDataIsLost` | lsp/src/lsp-semtokens.c:369-388 | A pure deletion sent without data, which is skipped |
| `SemanticTokens.SortedLegal` | lsp/src/lsp-semtokens.c:325-396 | Sorted, the edits of a legal delta run backwards through the array: each ends at or before the start of the one applied before it |
| `SemanticTokens.TokenCache.ApplyEdit` | lsp/src/lsp-semtokens.c:155-161 | Removing and inserting in place is the guarded splice |
| `SemanticTokens.TokenCache.ProcessDeltaResult` | lsp/src/lsp-semtokens.c:334-413 | After a legal delta whose edits without data delete nothing the cache is the array meant, under the new result id; a malformed one drops the cache |
| `SemanticTokens.TokenCache.ProcessFullResult` | lsp/src/lsp-semtokens.c:283-322 | The cache is the array and result id of the response |
| `SemanticTokens.TokenCache.Callback` | lsp/src/lsp-semtokens.c:416-448 | A response with data is full, any other a delta |
| `SemanticTokens.TokenCache.SendRequest` | lsp/src/lsp-semtokens.c:451-520 | A delta is asked for exactly when there is a cached array with a result id, the server supports deltas and no full answer is forced, and it names that id; otherwise the request is for a range or in full |
| `SemanticTokens.StepAgrees` | lsp/src/lsp-semtokens.c:334-413 | Each response keeps the cached array equal to the server's array for the cached result id |
| `SemanticTokens.EveryRunFromStart` | lsp/src/lsp-semtokens.c:334-413 | Over every run with one request outstanding and legal answers the cache equals the server's array for its result id |
| `SemanticTokens.DecodeEncode` | lsp/src/lsp-semtokens.c:212-263 | Decoding the relative encoding of tokens in order gives their absolute positions back |
| `SemanticTokens.EncodeDecode` | lsp/src/lsp-semtokens.c:212-263 | Every array is, up to an incomplete group at its end, the encoding of the tokens it decodes to |
| `SemanticTokens.MarksAreAt` | lsp/src/lsp-semtokens.c:236-252 | The marks cover, in order, exactly the tokens whose type has a style |
| `SemanticTokens.ProcessTokens` | lsp/src/lsp-semtokens.c:196-263 | Of the tokens that an array encodes, exactly those whose type has a style get a mark, in order: it starts where the token does, ends on the same line, its length further on, and has the lowest shown custom style with the type or else the default one |
| `SemanticTokens.StyleIndex` | lsp/src/lsp-semtokens.c:117-131 | The lowest shown custom style with the type wins, then the default style |
| `JsonParser.ContainerParsesIff` | lsp/deps/json-glib/json-parser.c:510-833 | Parsing a container succeeds with a value and a rest exactly when the consumed tokens derive a container of RFC 8259, sections 2 to 5, that means this value and is nested at most 1024 deep |
| `JsonParser.ElementParses` | lsp/deps/json-glib/json-parser.c:510-833 | Whatever derives within the depth is parsed, with its meaning, and exactly that prefix is consumed |
| `JsonParser.ParsedElementDerives` | lsp/deps/json-glib/json-parser.c:510-833 | Whatever is parsed derives, within the depth |
| `JsonErrors.FailsIff` | lsp/deps/json-glib/json-parser.c:420-833 | Parsing fails with an error exactly when the text goes wrong with it at some place: what stands there decides the error, and what stands before it is the start of a document. A comma before the closing bracket and nothing else gives the trailing-comma error, for instance |
| `JsonErrors.FaultFails` | lsp/deps/json-glib/json-parser.c:420-833 | At such a place the parser fails, with that error |
| `JsonErrors.FindFault` | lsp/deps/json-glib/json-parser.c:420-833 | Where the parser fails there is such a place |
| `JsonParser.DerivationIsUnique` | lsp/deps/json-glib/json-parser.c:510-833 | The grammar is unambiguous and prefix-free |
| `JsonParser.ScanElement` | lsp/deps/json-glib/json-parser.c:420-507 | The element branch of both loops behaves as the parse function, error codes included |
| `JsonParser.ScanArray` | lsp/deps/json-glib/json-parser.c:510-642 | The loop over a stateful scanner behaves as the parse function |
| `JsonParser.ScanObject` | lsp/deps/json-glib/json-parser.c:645-833 | The loop over a stateful scanner behaves as the parse function |
| `JsonDocument.LoadsIff` | lsp/deps/json-glib/json-parser.c:836-1146 | A document loads exactly when it is one value and, in the lenient mode, any number of containers after it, which leave no trace; an empty one loads in the lenient mode only |
| `JsonDocument.StrictLoadsIff` | lsp/deps/json-glib/json-parser.c:836-1146 | In strict mode exactly the single values load, so there always is a root |
| `JsonErrors.LoadFailsIff` | lsp/deps/json-glib/json-parser.c:836-1146 | Loading fails with an error exactly when the text is empty in strict mode, or goes wrong with it, or has a statement that is refused with it, behind values that would load |
| `JsonDocument.Parser.Statement` | lsp/deps/json-glib/json-parser.c:836-953 | One statement: which token starts what, and which errors a second value gives |
| `JsonDocument.Parser.Load` | lsp/deps/json-glib/json-parser.c:1023-1146 | The refusal of empty documents in strict mode, which keeps or clears the last root, and the statement loop |
| `JsonTree.MeaningOfTree` | lsp/deps/json-glib/json-object.c:179-204 | A tree with unique member names is what its own parse tree means, member order included |
| `JsonTree.SetMemberUnique` | lsp/deps/json-glib/json-object.c:179-204 | Setting a member keeps the names different |
| `JsonTree.TokensReachDepth` | lsp/deps/json-glib/json-parser.c:510-833 | The nesting depth is the highest bracket count of the tokens |
| `JsonGenerator.DumpScans` | lsp/deps/json-glib/json-generator.c:281-472 | What is printed in any style with white space for indentation reads as the tokens of the tree |
| `JsonGenerator.RoundTripIff` | lsp/deps/json-glib/json-generator.c:281-472 | Parsing what was printed gives the tree back, member order included, pretty or compact, exactly when it is nested at most 1024 deep |
| `JsonGenerator.CompactIsTokens` | lsp/deps/json-glib/json-generator.c:281-472 | Without pretty-printing there is no white space at all |
| `JsonGenerator.PrettyIsLaidOut` | lsp/deps/json-glib/json-generator.c:281-472 | A pretty text is laid out as its tokens alone demand: each child and each closing bracket on a line of its own, indented by the number of containers around it; a blank on either side of a colon; an empty array in one piece |
| `JsonGenerator.Generator.WriteNode` | lsp/deps/json-glib/json-generator.c:281-331 | The recursive printer appends what the printing function says |
| `JsonGenerator.Generator.WriteArray` | lsp/deps/json-glib/json-generator.c:389-429 | Brackets, elements, separators and indentation; an empty array has nothing inside |
| `JsonGenerator.Generator.WriteObject` | lsp/deps/json-glib/json-generator.c:432-472 | The same for objects; an empty pretty one is indented inside |
| `JsonGenerator.Generator.AppendIndentation` | lsp/deps/json-glib/json-generator.c:290-297 | The indentation loop, with its bound in 32 bits |
| `JsonObject.Object.SetMemberInternal` | lsp/deps/json-glib/json-object.c:179-204 | The queue afterwards holds exactly the table's own strings, and the contents are the old ones with one member set in its place or at the end |
| `JsonObject.Object.SetMemberValue` | lsp/deps/json-glib/json-object.c:256-275 | The same through the public setter |
| `JsonObject.Object.RemoveMember` | lsp/deps/json-glib/json-object.c:918-938 | The contents are the old ones without the member |
| `JsonObject.Object.FindInQueue` | lsp/deps/json-glib/json-object.c:198-200 | The name is found exactly when the table has it |
| `JsonObject.ReplaceKey` | lsp/deps/json-glib/json-object.c:190-203 | Replacing the queue's string is needed: the old one is no longer owned |
| `JsonObject.RunInInsertionOrder` | lsp/deps/json-glib/json-object.c:179-204 | After any sequence of set and remove the members are exactly the names now set, with their last values, ordered by when each was first inserted |
| `JsonEquality.EqualIff` | lsp/deps/json-glib/json-node.c:1465-1555 | Two trees are equal exactly when they mean the same with objects read as maps; for all trees without doubles, and for all trees of which no two integers round to one double |
| `JsonEquality.EquivalenceWithoutDoubles` | lsp/deps/json-glib/json-node.c:1465-1555 | On trees without doubles equality is reflexive, symmetric and transitive |
| `JsonEquality.OrderIsIgnored` | lsp/deps/json-glib/json-object.c:1031-1076 | Objects that differ in member order only are equal, whatever numbers they hold |
| `JsonEquality.EqualReflexive` | lsp/deps/json-glib/json-node.c:1465-1555 | Every tree equals itself |
| `JsonEquality.EqualSymmetric` | lsp/deps/json-glib/json-node.c:1465-1555 | Equality is symmetric on all trees |
| `JsonEquality.TransitiveIff` | lsp/deps/json-glib/json-node.c:1465-1555 | Of three trees, the first two and the last two equal, the outer ones are equal exactly when at no place different integers of theirs meet a double in the middle |
| `JsonEquality.TransitiveThroughoutIff` | lsp/deps/json-glib/json-node.c:1512-1550 | Over all trees equality is transitive exactly when no two integers round to one double |
| `JsonEquality.EqualNodes` | lsp/deps/json-glib/json-node.c:1465-1555 | The comparison as written |
| `JsonEquality.EqualArrays` | lsp/deps/json-glib/json-array.c:802-838 | The index loop |
| `JsonEquality.EqualObjects` | lsp/deps/json-glib/json-object.c:1031-1076 | Sizes, then all names, then all values |
| `JsonHash.EqualTreesHashEqually` | lsp/deps/json-glib/json-node.c:1421-1448 | Equal trees hash equally if numbers at corresponding places, by index and by name, have one type |
| `JsonHash.EqualTreesFeedTheSameIff` | lsp/deps/json-glib/json-node.c:1421-1448 | Of equal trees exactly those feed the hash the same values, types, indices and names whose corresponding numbers have one type; and what feeds it the same hashes the same |
| `JsonHash.SameInputIff` | lsp/deps/json-glib/json-node.c:1421-1448 | Trees feed the hash the same exactly when they are equal with numbers of one type |
| `JsonHash.EqualNumbersHashEquallyIff` | lsp/deps/json-glib/json-value.c:188-230 | An integer never hashes like the double it equals: of equal numbers the hashes agree exactly when both are of one type |
| `JsonHash.OrderDoesNotShow` | lsp/deps/json-glib/json-object.c:996-1017 | The hash of an object does not depend on the order in which its table iterates |
| `JsonHash.Hasher.HashNode` | lsp/deps/json-glib/json-node.c:1421-1448 | The recursive hash |
| `JsonHash.Hasher.HashArray` | lsp/deps/json-glib/json-array.c:762-784 | The loop over the elements with their indices |
| `JsonHash.Hasher.HashObject` | lsp/deps/json-glib/json-object.c:996-1017 | The loop over the members in an arbitrary order |
| `JsonBuilder.TraversalRebuilds` | lsp/deps/json-glib/json-builder.c:356-613 | Replaying the traversal of any container tree with unique member names gives a root that is exactly that tree |
| `JsonBuilder.BuildsIff` | lsp/deps/json-glib/json-builder.c:308-613 | A sequence of calls gives a root exactly when it is that of one container, each begin with its end and each member with its name, and the root is the tree of these calls |
| `JsonBuilder.TreeBuilds` | lsp/deps/json-glib/json-builder.c:356-613 | From any builder that is ready for a value, the calls of a subtree add exactly that subtree, repeated names merged, and disturb nothing else |
| `JsonBuilder.EveryRun` | lsp/deps/json-glib/json-builder.c:356-613 | In every reachable state each open container is attached in the one below it, references only go forward, and the root exists just when something was built and nothing is open |
| `JsonBuilder.RootOnlyAtTheEnd` | lsp/deps/json-glib/json-builder.c:308-323 | In a run that succeeds the root is missing until the last call |
| `JsonBuilder.RootStops` | lsp/deps/json-glib/json-builder.c:361-363 | A builder with a root refuses every call |
| `JsonBuilder.ResolveFrame` | lsp/deps/json-glib/json-builder.c:370-394 | A finished subtree does not change when later calls fill its ancestors |
| `JsonBuilder.Builder.BeginObjectCall` | lsp/deps/json-glib/json-builder.c:356-395 | The call does its step or refuses without effect |
| `JsonBuilder.Builder.EndObjectCall` | lsp/deps/json-glib/json-builder.c:409-434 | The call does its step or refuses without effect |
| `JsonBuilder.Builder.BeginArrayCall` | lsp/deps/json-glib/json-builder.c:450-488 | The call does its step or refuses without effect |
| `JsonBuilder.Builder.EndArrayCall` | lsp/deps/json-glib/json-builder.c:502-527 | The call does its step or refuses without effect |
| `JsonBuilder.Builder.SetMemberNameCall` | lsp/deps/json-glib/json-builder.c:547-562 | The call does its step or refuses without effect |
| `JsonBuilder.Builder.AddValueCall` | lsp/deps/json-glib/json-builder.c:580-613 | The call does its step or refuses without effect |
| `JsonBuilder.Builder.GetRoot` | lsp/deps/json-glib/json-builder.c:308-323 | The root is the tree of the first container, and missing while anything is open |
| `VariantTypes.NextTypeIsFirst` | lsp/deps/json-glib/json-gvariant.c:617-671 | For every type whose brackets nest at most 256 deep the scan takes exactly its type string and leaves what follows |
| `VariantTypes.TypePasses` | lsp/deps/json-glib/json-gvariant.c:628-655 | Inside brackets the scan passes over a whole type as over one character |
| `VariantTypes.TypeStringsArePrefixFree` | lsp/deps/json-glib/json-gvariant.c:617-671 | No type string starts another |
| `VariantTypes.Cursor.NextCompleteType` | lsp/deps/json-glib/json-gvariant.c:617-671 | The cursor moves in place to where the scan says, and the copy is the stretch passed over |
| `VariantTypes.Cursor.SkipBrackets` | lsp/deps/json-glib/json-gvariant.c:628-655 | The loop with the explicit stack stays inside its 256 entries |
| `VariantJson.RoundTrip` | lsp/deps/json-glib/json-gvariant.c:228-369 | Reading back what was printed for a value, with its own type, gives the value with nested nothings collapsed and repeated keys merged |
| `VariantJson.RoundTripIff` | lsp/deps/json-glib/json-gvariant.c:228-369 | That is the value itself exactly when no maybe holds a nothing and no dictionary repeats a key |
| `VariantJson.SerializePrints` | lsp/deps/json-glib/json-gvariant.c:228-369 | What a value prints as, by index: a dictionary has one member for each key, in the order of their first entries, with the value of their last; integers are cut to 64 bits with sign |
| `VariantJson.TypedHasType` | lsp/deps/json-glib/json-gvariant.c:1086-1236 | Every successful conversion has the type asked for |
| `VariantJson.TypedIff` | lsp/deps/json-glib/json-gvariant.c:800-1236 | A tree converts to a value exactly when it stands for it at that type: integers cut to the width, an integer as a double, "true", "false" and numbers read from strings, null as nothing, and so on by index through containers |
| `VariantJson.CanonIff` | lsp/deps/json-glib/json-gvariant.c:228-369 | Nothing is collapsed or merged exactly under that condition |
| `VariantJson.Wrap` | lsp/deps/json-glib/json-gvariant.c:1132-1178 | Conversion to a width: in range, and the identity on values in range |
| `VariantJson.Recurse` | lsp/deps/json-glib/json-gvariant.c:1086-1236 | The conversion agrees with the one by structure of the type, and on success the cursor is past exactly one type in spite of the compensating steps back |
| `VariantJson.ReadTuple` | lsp/deps/json-glib/json-gvariant.c:529-614 | Elements and component types run out together, or the conversion fails |
| `VariantJson.ReadMaybe` | lsp/deps/json-glib/json-gvariant.c:674-716 | Null is nothing, anything else a value of the inner type |
| `VariantJson.ReadArray` | lsp/deps/json-glib/json-gvariant.c:719-797 | All elements are of the element type |
| `VariantJson.ReadDictionary` | lsp/deps/json-glib/json-gvariant.c:997-1083 | All members become entries, in member order |
| `VariantJson.ReadEntry` | lsp/deps/json-glib/json-gvariant.c:924-994 | An object with one member becomes one entry |
| `VariantJson.ParseEntrySignature` | lsp/deps/json-glib/json-gvariant.c:906-921 | The types of an entry, its key and its value |
| `VariantJson.ReadBasic` | lsp/deps/json-glib/json-gvariant.c:1103-1205 | Which letter reads which kind |
| `VariantJson.Deserialize` | lsp/deps/json-glib/json-gvariant.c:1270-1286 | The whole conversion for a valid signature: the result is the value that the tree stands for at that type, if there is one, and it has the type |
| `JsonPathCompile.Compile` | lsp/deps/json-glib/json-path.c:365-691 | The pointer loop; every path it accepts has a node behind each recursive descent |
| `JsonPathCompile.CompiledIsWellFormed` | lsp/deps/json-glib/json-path.c:401-424 | What follows a recursive descent in a compiled path is another one, a member wildcard or a member name |
| `JsonPathCompile.BracketAfterDescentRefused` | lsp/deps/json-glib/json-path.c:401-441 | A bracket right after a descent is refused, whatever follows |
| `JsonPathCompile.WrittenCompiles` | lsp/deps/json-glib/json-path.c:365-691 | Compiling an expression written for a path, in any of the ways to write its steps, gives that path |
| `JsonPathCompile.MalformedIsRejected` | lsp/deps/json-glib/json-path.c:418-667 | A dot without a name, or a bracket with an ill-ended number, makes the expression refused behind any written steps |
| `JsonPathCompile.BadStartIsRejected` | lsp/deps/json-glib/json-path.c:382-399 | An expression that starts with neither root nor step, or goes on with anything but a step behind the root, is refused |
| `JsonPathCompile.StepCompiles` | lsp/deps/json-glib/json-path.c:401-655 | A written step adds its node and the scan goes on behind it |
| `JsonPathCompile.TakeTurn` | lsp/deps/json-glib/json-path.c:382-667 | One turn of the outer loop |
| `JsonPathCompile.TakeNumber` | lsp/deps/json-glib/json-path.c:475-655 | Indices and sets |
| `JsonPathCompile.ScanName` | lsp/deps/json-glib/json-path.c:424-427 | The end of a name after a dot |
| `JsonPathCompile.ScanSet` | lsp/deps/json-glib/json-path.c:545-571 | The loop over a set of indices |
| `JsonPathWalk.DescentFindsOutermost` | lsp/deps/json-glib/json-path.c:748-801 | A descent to a name goes on from exactly the members of that name not inside another one, in document order |
| `JsonPathWalk.DescentCollects` | lsp/deps/json-glib/json-path.c:748-801 | `..name` collects exactly those members |
| `JsonPathWalk.StepGoesOn` | lsp/deps/json-glib/json-path.c:700-883 | Any other step goes on from the nodes it chooses, one after another: a member or an element if it is there, all children in order, or the elements of a set in the order of its indices |
| `JsonPathWalk.OneStepFindsChosen` | lsp/deps/json-glib/json-path.c:700-883 | `$.name`, `$[2]`, `$[1,3]`, `$.*` and `$[*]` find exactly the nodes so chosen; a wildcard at a node of another kind finds that node |
| `JsonPathWalk.StoppedWalk` | lsp/deps/json-glib/json-path.c:813-860 | A wildcard that meets a node of another kind takes that node as a result, whatever the rest of the path says |
| `JsonPathWalk.OtherDescentsFindNothing` | lsp/deps/json-glib/json-path.c:748-801 | A descent followed by a wildcard or another descent finds nothing |
| `JsonPathWalk.LookAhead` | lsp/deps/json-glib/json-path.c:750 | The node looked at behind a descent always exists |
| `JsonPathWalk.ElementStepIsStrict` | lsp/deps/json-glib/json-path.c:729-746 | The bound check lets the length itself through, and that finds nothing |
| `JsonPathWalk.NothingBelowNothing` | lsp/deps/json-glib/json-path.c:694-923 | Walking on from a missing node finds nothing |
| `JsonPathWalk.Results.WalkNode` | lsp/deps/json-glib/json-path.c:694-923 | The recursive walk appends what the walk function says |
| `JsonPathWalk.Match` | lsp/deps/json-glib/json-path.c:941-959 | The matches of a path |
| `ServerLifecycle.OneOwner` | lsp/src/lsp-server.c:144-262 | In every reachable state every live process is owned by exactly one of the slots and the shutdown list, and every other server by a slot or a timer |
| `ServerLifecycle.AtMostTenProcesses` | lsp/src/lsp-server.c:138-184 | Between two initialisations no file type uses more than ten processes, whatever crashes |
| `ServerLifecycle.CounterIsSpawns` | lsp/src/lsp-server.c:896-908 | The counter behind that bound is the number of processes actually spawned in the run since the slots were made |
| `ServerLifecycle.FreedForGood` | lsp/src/lsp-server.c:108-135 | A server that was freed never exists again |
| `ServerLifecycle.CallbackGate` | lsp/src/lsp-rpc.c:454-484 | An ordinary callback runs only while its server exists, is initialised and is not being shut down |
| `ServerLifecycle.GateStaysOpen` | lsp/src/lsp-rpc.c:454-484 | The converse: once initialized with success, the callbacks of a client run, whatever happens, until its server is shut down or freed |
| `ServerLifecycle.ReturnedRuns` | lsp/src/lsp-server.c:1149-1164 | The server returned is the one in the slot, running and not starting, and returning it changes nothing |
| `ServerLifecycle.StartsIff` | lsp/src/lsp-server.c:1160-1202 | A start that is tried gives the server a new process, with a client being initialized, or gives it up for good; where none is tried nothing starts |
| `ServerLifecycle.CrashIsFollowedBy` | lsp/src/lsp-server.c:144-184 | After a crash the slot has a new server, started or given up, with one more restart; the old one waits for its timer |
| `ServerLifecycle.ShutdownIsFollowedBy` | lsp/src/lsp-server.c:148-155 | A server that stops while being shut down is freed and the others stay as they are |
| `ServerLifecycle.AllAreStopped` | lsp/src/lsp-server.c:1421-1430 | Stopping all puts each running server on the shutdown list with its gate shut and frees the idle ones |
| `ServerLifecycle.AllAreMade` | lsp/src/lsp-server.c:1496-1525 | An initialisation gives each file type an idle server that did not exist before |
| `ServerLifecycle.LateAnswerOpensGate` | lsp/src/lsp-server.c:601-608 | An initialize answer after the shutdown began opens the gate again, when nothing ordinary is open |
| `ServerLifecycle.StepKeeps` | lsp/src/lsp-server.c:108-262 | Every event keeps the invariant of ownership, client table, gate and budget |
| `ServerLifecycle.CrashKeeps` | lsp/src/lsp-server.c:158-183 | So does a crash, restart or giving up included |
| `ServerLifecycle.StopAllKeeps` | lsp/src/lsp-server.c:1421-1430 | So does stopping all servers |
| `ServerLifecycle.GetOrStartKeeps` | lsp/src/lsp-server.c:1149-1207 | So does starting a server on first use |
| `ServerLifecycle.StopOneMore` | lsp/src/lsp-server.c:256-262 | Stopping servers one by one is stopping them all at once |
| `ServerLifecycle.Plugin.ProcessHasStopped` | lsp/src/lsp-server.c:144-184 | The handler of a stopped process |
| `ServerLifecycle.Plugin.StartLspServer` | lsp/src/lsp-server.c:858-933 | A spawn that fails uses up all restarts; one that succeeds registers the client and closes the gate |
| `ServerLifecycle.Plugin.StopAndFreeServer` | lsp/src/lsp-server.c:237-262 | A running server goes on the shutdown list, another is freed |
| `ServerLifecycle.Plugin.StopAllServers` | lsp/src/lsp-server.c:1421-1430 | The table is taken away first, then its servers are stopped |
| `ServerLifecycle.Plugin.InitAllServers` | lsp/src/lsp-server.c:1496-1525 | One new server for each file type |
| `ServerLifecycle.Plugin.GetOrStartForFt` | lsp/src/lsp-server.c:1149-1207 | A server is returned exactly when it is in the slot of the file type, has a process and is not starting; a start is tried exactly when it is idle, is used, has fewer than ten restarts, a start is wanted and there is a command |
| `ServerLifecycle.Plugin.FreeServer` | lsp/src/lsp-server.c:108-127 | The server is gone and no client in the table leads to it any more |
| `ServerLifecycle.Plugin.FreeServerAfterDelay` | lsp/src/lsp-server.c:130-135 | The timer frees a server that still exists |
| `ServerLifecycle.Plugin.InitializeCb` | lsp/src/lsp-server.c:601-636 | Success opens the gate, failure leaves it closed |
| `ServerLifecycle.Plugin.CallCb` | lsp/src/lsp-rpc.c:454-484 | A server missing from the client table counts as starting or shutting down |
| `Completion.CompareIsKeyOrder` | lsp/src/lsp-autocomplete.c:521-580 | The chain of tests compares like one lexicographic key, when both items carry a sort text or the labels decide |
| `Completion.KeyOrderIsTotal` | lsp/src/lsp-autocomplete.c:521-580 | The order by keys is a total preorder |
| `Completion.TestsInOrder` | lsp/src/lsp-autocomplete.c:521-580 | The tests of the comparison, each counting only if those before it do not tell the items apart |
| `Completion.DeltaIsFirst` | lsp/src/lsp-autocomplete.c:440-446 | The first place where a string occurs in another, or -1 |
| `Completion.CompareIsAlphabetical` | lsp/src/lsp-autocomplete.c:573-577 | The first difference decides, or the length |
| `Completion.PassSorts` | lsp/src/lsp-autocomplete.c:521-580 | If all items carry a sort text, or none does, a pass leaves them in the order of the comparison |
| `Completion.FirstPassTransitiveIff` | lsp/src/lsp-autocomplete.c:573-577 | The comparison of the first pass is transitive on a list exactly when every item without sort text divides the others consistently |
| `Completion.PassTransitiveIff` | lsp/src/lsp-autocomplete.c:521-580 | The comparison of either pass is transitive on a list exactly when every item without sort text divides consistently those that fit the prefix as well as it does |
| `Completion.MixedSortTextsCanCycle` | lsp/src/lsp-autocomplete.c:573-577 | Three items on which the comparison goes round in a circle |
| `Completion.ShownInOrder` | lsp/src/lsp-autocomplete.c:697-733 | The shown list is in the order of the second pass, when all or none carry a sort text |
| `Completion.ShownOncePerLabel` | lsp/src/lsp-autocomplete.c:706-726 | No display label is shown twice, each stands for the first unfiltered item with it in the order of the first pass, and none is missing |
| `Completion.DisplayedIs` | lsp/src/lsp-autocomplete.c:128-151 | What is shown of an item is its text up to the first line break, with the first question mark and the first tab turned into blanks |
| `Completion.PlainIsShown` | lsp/src/lsp-autocomplete.c:128-151 | A text of one line without these is shown as it is |
| `Completion.DifferentTextsAreBothShown` | lsp/src/lsp-autocomplete.c:706-726 | Two unfiltered items with different such texts are both represented in the list, by different entries that read like them |
| `Completion.FirstPresentText` | lsp/src/lsp-autocomplete.c:112-125 | The text of an item is its label if preferred, else the text of its edit, else the text to insert, else the label |
| `Completion.ContainingIsKept` | lsp/src/lsp-autocomplete.c:481-504 | A name that contains the prefix is never dropped |
| `Completion.MatchingLabelIsKept` | lsp/src/lsp-autocomplete.c:507-518 | An item whose lowercased label contains the lowercased prefix is never filtered |
| `Completion.MatchingFilterTextIsDropped` | lsp/src/lsp-autocomplete.c:667-683 | An item whose filter text alone matches is dropped: the filter text is read but never kept |
| `Completion.MatchingFilterTextIsKeptIff` | lsp/src/lsp-autocomplete.c:481-518 | An item whose lowercased filter text contains what was typed is never dropped, whatever is typed, exactly when the filter text has no letter more often than the label and no pair of neighbouring characters that the label lacks |
| `Completion.FilterTextWouldNotMatterIff` | lsp/src/lsp-autocomplete.c:507-518 | Ignoring the filter text makes no difference, whatever is typed, exactly when it has the letters of the label and the same pairs of neighbouring characters |
| `Completion.GetLetterCounts` | lsp/src/lsp-autocomplete.c:462-472 | The 26 counters grow by the letters of the string |
| `Completion.CountIsMultiplicity` | lsp/src/lsp-autocomplete.c:462-472 | The count of a letter is its multiplicity |
| `Completion.ShouldFilterLoop` | lsp/src/lsp-autocomplete.c:481-504 | The test as written |
| `Completion.FilterSymbol` | lsp/src/lsp-autocomplete.c:507-518 | No prefix filters nothing; otherwise the label decides |
| `Completion.DedupeAndFilter` | lsp/src/lsp-autocomplete.c:709-726 | The loop with the set of labels keeps exactly the first unfiltered item of each |
| `Completion.ProcessResponse` | lsp/src/lsp-autocomplete.c:697-741 | A list is shown unless it is empty or its one entry is no snippet and is what was typed already; it is the sorted, filtered and deduplicated list |
| `Sorting.SortIsSorted` | lsp/src/lsp-autocomplete.c:697 | A stable sort by a total preorder sorts |
| `Sorting.SortIsStable` | lsp/src/lsp-utils.c:483 | Elements that compare equal keep their order |

## Left out

- Widgets, menus, dialogs, indicator drawing, the status bar and logging.
- Process spawning, pipes, the JSON-RPC transport, files and URIs: they appear as events or not at all.
- The JSON scanner and the spelling of strings, numbers and doubles inside a token, NaN and signed zero included; parser and printer are modelled at the level of tokens.
- CR and CRLF line ends: Scintilla's line rules are not part of this model, texts have LF line ends and positions are valid in the text they were made for.
- TextEdits.ApplyTextEdit: where inserted text has made a position invalid, counting goes on over line breaks and past the second half of a surrogate pair, like the loop at lsp/src/lsp-signature.c:107-119; what Scintilla itself does there is not part of this model.
- Differences between positions or starts beyond 31 bits, which the sort functions narrow to `gint`.
- Snippets and the cursor position after a text edit.
- `compare_symbol_parent_first`: it is not transitive, so the second pass is proved for any order of the list.
- Sorting by the tree store itself while it is updated, and row folding: the store keeps the order in which rows are inserted.
- Pointer identity of symbols: list links have their own identity, equal symbols are told apart by it.
- TextEdits.ApplyTextEdits: is stated for lists whose edits are valid in the text and which LSP 3.17, section "Text Edit[]", allows.
- TextEdits.MeetsStandardIff: one direction excepts lists in which one replacement covers too little and another too much; TextEdits.MistakesCanMakeUp shows that they have to be excepted.
- DocumentSync.EveryRun: is stated for one server and for edits on code point boundaries; whether a document belongs to the server is not modelled.
- SemanticTokens.EveryRunFromStart: is stated for one outstanding request at a time, since responses carry no tag.
- Lexer keywords made from tokens, and drawing of their indicators.
- JsonHash.EqualTreesHashEqually: has no converse, since hashes of different values may coincide; what is equivalent is that the hash is fed the same.
- JsonDocument.LoadsIff: speaks of tokens, so a text that is not valid UTF-8 is outside it, and a text of white space only is one without tokens.
- `var name = value` documents of the lenient parser, sealing and cached hashes, reference counting, and parse signals.
- JsonEquality.EqualNodes: the shortcut for identical pointers is left out; it changes nothing, since every tree equals itself.
- JsonEquality.EqualObjects: takes the members in queue order, while the table's order is arbitrary; the result is a conjunction either way.
- JsonGenerator.RoundTripIff: is stated for indentation characters that are white space; the setter accepts any character.
- JSONPath slices, and quoted names without a closing quote and one character more.
- JsonPathCompile.WrittenCompiles: is stated for names that can be written after a dot or in quotes, and for sets of at least two indices; after a descent only the dotted form exists.
- JsonPathWalk.StepGoesOn: is stated for arrays of fewer than 2^32 elements, which is all the library's arrays can hold.
- JsonErrors.FailsIff: speaks of the error code, not of the message or the position that goes with it.
- Variants of type `v`, dictionary keys other than strings, and deserialising without a signature.
- VariantTypes.NextTypeIsFirst: says nothing of brackets nested deeper than 256, for which the stack has no room.
- JSON readers, GObject serialisation and boxed types.
- Servers shared between file types by `use`, projects for which the client is switched off, and configuration loading.
- ServerLifecycle.CallbackGate: speaks of ordinary requests; the callbacks of initialize and shutdown requests are not gated, by design.
- The blocking wait for servers to stop, and the timers that kill a process: they only make a process stop earlier.
- Completion requests, snippets, resolving of items, and parsing of the response.
- Completion.MatchingLabelIsKept: is stated for the label; for the filter text, which the program does not keep, Completion.MatchingFilterTextIsKeptIff says when the same holds.
