# A verified model of the document core

This project models the parts of the repository that read, edit, store and export a page, and proves
what they promise one another. Every claim is a Dafny contract; `dafny verify dfyconfig.toml` covers the
whole project.

**The flat outline and its forest.** A page stores text blocks as flat siblings; parenthood is the
`indent` level. `Forest` defines the tree a sequence of levels stands for: the parent of a block is the
nearest earlier block that is shallower. `Outline` holds the editor's subtree commands with their loops,
`OutlineTheorems` says which edit of the forest each of them is, and `Edits` holds the facts about level
sequences they rest on. `Reader` and `ReaderTheorems` model the server's tree reader, a class with the
source's lists, index and stack, on arbitrarily nested documents; `ReaderText` says what text it reports, in
terms of the pieces a block's inline content is made of, and `ReaderWarnings` what it skips and clamps.
`RoundTrip` writes forests and reads
them back, and `NestedRoundTrip` does so for blocks whose children are stored in both ways, inside their
element and after it. `CommandsRead` says what the reader reports before and after a command.
`Numbering`, `Collapse`, `BlockIds` and `BlockRepair` are the editor's other readers of the
same encoding. Well-formed means: the first level is 0, each level is at most one more than the one
before, and none passes the cap of 32. The editor compares raw levels and the reader clamps them, so
the two agree exactly on well-formed runs (`ReaderAgreesIffWellFormed`).

**The document store.** `StoreSpec` is the store as a state machine over opens, releases, local edits,
server frames, disconnects, authentications and fatal errors. A Y.Doc is a set of edits, an entry has a
serial for its identity, and the connection is a ready flag with a `fate` that decides which sends
succeed. `StoreTheorems` proves what every run keeps, for every fate and whatever frames arrive; the one
assumption is that the server does not hand out a handle that is live. `StoreEvents` says what a page holds
by the events alone: its document is the union of what was stored when its entry was made, the edits made on
it, and what every step 2 and update brought under a handle live for it since; its handle, role, status and
flag are likewise told by events. `Store` is the class with its maps, each method proved to take the step of
the machine.

`StoreSync` says what is handed over. The state carries a log whose contents no step reads: frames that
were or were not sent, handles taken, edits the server named, and losses of the connection. From the log
alone follows which edits of a page the server has. A store is safe when every document taken for synced
holds only those. The source means that releasing never drops an unsynced edit, and that is not so in
every run, because a step 2 sets the flag whatever was sent. Callers may open and release pages at any time,
and in a given state some opens and releases lose an edit, one that by the log the server does not have,
exactly when the store is not safe (`StoreRelease.SafeIffNothingCanBeLost`). No state of a run can lose an
edit that way exactly when every step 2 of the run finds, by the log, all that its document holds with the
server (`RunLosesNothingIff`). This is about what callers could do at each moment: a run that fails the
condition may still lose nothing, when what is missing is handed over before the release
(`LateReplySavesTheEdit`). If the server sends step 2 for a handle only after its step 1 was answered, the
condition means exactly that no update failed to be sent between that answer and step 2 and is still
outstanding (`PromisedRunLosesNothingIff`), which holds when no send on a ready connection fails
(`SureSendsAreCareful`). Two runs in `StoreLoss` lose an edit: one without the server's promise, one with it
and a failed send.

**Diff, archive, authorship.** `Diff` is the word diff over an LCS table, and `DiffOutput` reads its output.
`Crc`, `Bytes`, `Zip`, `ZipTheorems` and `ZipWriter` are the table-driven CRC-32 and the ZIP writer, with a
reader that follows sections 4.3.7, 4.3.12 and 4.3.16 of PKWARE's APPNOTE.TXT; `CrcCheck` proves the residue
and the check value that fix the checksum's constants. `Authorship` extracts who wrote what.

**Inline Markdown.** `Markdown` is the writer of inline marks, `MarkdownReader` says what the reader computes
and `InlineReader` is its loop. `MarkdownTheorems` says what is read of every input. `MarkdownRoundTrip` and
`MarkdownCode` settle one marked text, `MarkdownNesting` a link and a mark inside a mark, and `MarkdownPlain`
which texts are read as they stand. The main law is about any number of ops, each under any of bold,
emphasis, strikethrough and code. `MarkdownTraces` proves that the reader follows every trace of the writer
whose delimiters stand where it takes them, and `MarkdownParagraph` which ops have such a trace
(`OpsComeBackIff`); `MarkdownLinks` puts a link around them.

Where the code promises less than one might expect, the exact condition is proved:

- Indenting has no cap, so it keeps well-formedness exactly when no level of the subtree passes 32 (`IndentWellFormedIff`).
- Indenting undoes outdenting exactly when the block had no later sibling to adopt (`IndentUndoesOutdentIff`).
- The archive reads back exactly when every encoded name is under 2^16 bytes; the writer does not check this (`ZipRoundTripIff`).
- A stored forest is read back as it was exactly when every block has an id, no indent passes 32 and no block that holds XML children is at depth 32 or more (`MixedForestRoundTripIff`).
- No state of a run can lose an edit by opens and releases exactly when every step 2 finds all its document holds with the server (`RunLosesNothingIff`).
- After an answered step 1, a step 2 keeps the store safe exactly when no edit whose send failed since is outstanding (`Step2SafeIff`, `PromisedRunSafeIff`).
- A written link reads back exactly when it has a text, its address has no white space and no closing parenthesis, and its title is absent, or non-empty without an odd run of backslashes directly before a quote, a line end or the end (`LinkReadsBackIff`).
- A written code text reads back exactly when it is not empty and holds neither a backslash nor a backtick (`CodeReadsBackIff`).
- A written bold, emphasised or struck text reads back exactly when it does not end in a backslash or, for `**` and `~~`, in their own character (`MarkReadsBackIff`).
- Ops under any of bold, emphasis, strikethrough and code, each text able to stand under its marks and no bold emphasis directly before emphasis alone, come back exactly when the writer moves no white space out of a mark, every op has text and no two neighbours have the same marks (`OpsComeBackIff`).
- A link inside a mark comes back with both exactly when other text stands beside it under the mark; alone, the mark does not close and its delimiter is text (`LinkInsideMarkIsReadIff`, `LinkAloneLosesItsMark`).
- A text is read as it stands exactly when none of its characters acts, by the tests of the reader's branches (`TextIsReadAsItIsIff`).

The reader ignores containers nested deeper than 32 and caps an indent at 32, each on its own, so the
bound proved for a block's depth is twice the cap (`DepthBound`). Where the comment on deletion says it
refuses to empty the document, the code replaces the last subtree with an empty paragraph; the model
follows the code.

## Model

| member | source | states |
|---|---|---|
| `Forest.SubtreeIsInterval` | packages/editor/src/blockOps.ts:85-110 | the run after a block that is deeper than it is the block and all its descendants in the forest of nearest shallower predecessors, and nothing else |
| `Forest.ParentOneLevelUp` | packages/editor/src/blockOps.ts:85-110 | on a stepped sequence every parent is exactly one level up |
| `Outline.BlockRangeAt` | packages/editor/src/blockOps.ts:92-119 | the loop finds the end of the subtree, and nothing for an index outside the parent |
| `Outline.ShiftIndents` | packages/editor/src/blockOps.ts:130-148 | the loop shifts the levels of a run, never below 0, and returns it otherwise unchanged |
| `Outline.IndentBlockSubtree` | packages/editor/src/blockOps.ts:162-180 | refusals and the new sequence |
| `Outline.OutdentBlockSubtree` | packages/editor/src/blockOps.ts:183-198 | refusals and the new sequence |
| `Outline.MoveBlockUp` | packages/editor/src/blockOps.ts:207-254 | the walk back to the preceding run, refusals, the new sequence and the moved block's index |
| `Outline.MoveBlockDown` | packages/editor/src/blockOps.ts:257-291 | refusals, the new sequence and the moved block's index |
| `Outline.DuplicateBlockSubtree` | packages/editor/src/blockOps.ts:301-323 | the copies, without ids, directly after the subtree |
| `Outline.DeleteBlockSubtree` | packages/editor/src/blockOps.ts:333-358 | the run is removed; a parent that would be left empty gets an empty paragraph |
| `OutlineTheorems.IndentRefusedIffNoSibling` | packages/editor/src/blockOps.ts:162-169 | on stepped input indenting is refused exactly when the block has no previous sibling |
| `OutlineTheorems.IndentIsReparenting` | packages/editor/src/blockOps.ts:162-180 | indenting makes the block the last child of its previous sibling, and every other block keeps its parent |
| `OutlineTheorems.IndentWellFormedIff` | packages/editor/src/blockOps.ts:162-180 | the result is well-formed exactly when no level of the subtree passes the cap, which the command does not check |
| `OutlineTheorems.IndentPassesTheCap` | packages/editor/src/blockOps.ts:162-180 | a well-formed run whose last block, at the cap, indents to level 33 |
| `OutlineTheorems.OutdentIsReparenting` | packages/editor/src/blockOps.ts:183-198 | outdenting moves the block to its grandparent; the later siblings become its children and no other parent changes |
| `OutlineTheorems.OutdentKeepsWellFormed` | packages/editor/src/blockOps.ts:183-198 | outdenting keeps well-formedness |
| `OutlineTheorems.OutdentUndoesIndent` | packages/editor/src/blockOps.ts:162-198 | outdenting at the same index after an indent restores the sequence |
| `OutlineTheorems.IndentUndoesOutdentIff` | packages/editor/src/blockOps.ts:162-198 | the other order restores it exactly when the block had no later sibling to adopt |
| `OutlineTheorems.OutdentAdoptsForGood` | packages/editor/src/blockOps.ts:162-198 | a root with two children: outdenting the first and indenting it again leaves the second below it |
| `OutlineTheorems.ExchangeTheorem` | packages/editor/src/blockOps.ts:207-291 | exchanging two adjacent sibling subtrees is a permutation that keeps every block's parent and level and keeps well-formedness |
| `OutlineTheorems.MoveUpExchangesSiblings` | packages/editor/src/blockOps.ts:200-254 | moving up succeeds exactly when there is a previous sibling, and exchanges the two subtrees |
| `OutlineTheorems.MoveDownExchangesSiblings` | packages/editor/src/blockOps.ts:256-291 | moving down succeeds exactly when there is a next sibling, and exchanges the two subtrees |
| `OutlineTheorems.MoveDownUndoesMoveUp` | packages/editor/src/blockOps.ts:207-291 | moving down from the new index restores the sequence |
| `OutlineTheorems.MoveUpUndoesMoveDown` | packages/editor/src/blockOps.ts:207-291 | moving up from the new index restores the sequence |
| `OutlineTheorems.DuplicateInsertsSibling` | packages/editor/src/blockOps.ts:293-323 | the copy is an isomorphic subtree standing as the next sibling; every original keeps its parent and level |
| `OutlineTheorems.DeleteKeepsSurvivors` | packages/editor/src/blockOps.ts:325-358 | survivors keep their parents and levels, the result is well-formed and never empty |
| `Reader.HasBlockChildren` | packages/core/src/doc/blockTree.ts:393-401 | the loop finds whether an element holds a block child |
| `Reader.TreeReader.constructor` | packages/core/src/doc/blockTree.ts:291-296 | an empty listing satisfies the reader's invariant |
| `Reader.TreeReader.List` | packages/core/src/doc/blockTree.ts:352-370 | listing one block keeps the listing linked and, for distinct ids, the children lists and the index exact |
| `Reader.TreeReader.Visit` | packages/core/src/doc/blockTree.ts:297-379 | reading a container appends the labels and warnings its nesting and indents call for |
| `Reader.TreeReader.VisitBlock` | packages/core/src/doc/blockTree.ts:334-378 | the indent stack holds levels 0,1,…,n-1 before and after each block; depth is the container's plus the effective indent |
| `Reader.LabelDepths` | packages/core/src/doc/blockTree.ts:297-379 | no label is deeper than twice the cap |
| `ReaderTheorems.ReadBlockTree` | packages/core/src/doc/blockTree.ts:291-385 | for every nested document: the labels in preorder, positions equal to indices, each parent the nearest earlier shallower block, and for distinct ids `childIds` the ordered inverse of `parentId` |
| `ReaderText.TextIsSpoken` | packages/core/src/doc/blockTree.ts:178-223 | for every sequence of inline pieces nested within the cap, with blocks between them: the text is the pieces' texts in document order, a mention saying "@" and its name and a block nothing |
| `ReaderText.BlockSays` | packages/core/src/doc/blockTree.ts:352-370 | wherever a block stands in its container, the text listed for it is what its pieces say |
| `ReaderWarnings.OddIndents` | packages/core/src/doc/blockTree.ts:265-274 | a missing, unreadable or negative indent is read as none, and one beyond 32 as 32 |
| `ReaderWarnings.StrayIsReported` | packages/core/src/doc/blockTree.ts:308-332 | text and elements without a block id are left out of the listing, and each is reported unless it is blank text |
| `ReaderWarnings.DeepContainers` | packages/core/src/doc/blockTree.ts:297-305 | a container deeper than 32 is not read and is reported once; one at 32 is read |
| `ReaderWarnings.ColumnsAreRead` | packages/core/src/doc/blockTree.ts:372-378 | columns are entered as containers also when they hold no block, other elements only when they hold one |
| `ReaderWarnings.ClampedAreReported` | packages/core/src/doc/blockTree.ts:334-346 | in a run of blocks exactly those read at another level than their indent are reported, each with both levels |
| `ReaderTheorems.LinkedParents` | packages/core/src/doc/blockTree.ts:291-385 | a reported parent precedes its child and is exactly one level shallower |
| `ReaderTheorems.ReportedParent` | packages/core/src/doc/blockTree.ts:291-385 | for distinct ids the reported id names exactly the parent of the forest |
| `ReaderTheorems.ReportedIsAncestor` | packages/core/src/doc/blockTree.ts:291-385 | following reported parents reaches exactly the ancestors |
| `ReaderTheorems.SubtreesAreIntervals` | packages/core/src/doc/blockTree.ts:291-385 | each reported subtree is a contiguous interval of the listing |
| `ReaderTheorems.DepthBound` | packages/core/src/doc/blockTree.ts:297-341 | depth never exceeds twice the cap |
| `ReaderTheorems.UnclampedIsSilent` | packages/core/src/doc/blockTree.ts:335-346 | a run that needs no clamping is read without an indent warning |
| `ReaderTheorems.ReaderAgreesIffWellFormed` | packages/core/src/doc/blockTree.ts:335-346 | the server reads the levels the editor stores if and only if the run is well-formed |
| `ReaderTheorems.ClampedLevelsDisagree` | packages/core/src/doc/blockTree.ts:335-346 | levels 5 and 3: the server shows the second block below the first, and for the editor neither is below anything |
| `ReaderTheorems.ReaderParentsAreOutlineParents` | packages/core/src/doc/blockTree.ts:334-372 | on a well-formed run the parents the server reports are the ones the editor's commands preserve |
| `CommandsRead.WellFormedIsReported` | packages/core/src/doc/blockTree.ts:291-385 | for a well-formed run every listed block has the stored id, type, text and level, and the parent of the forest of levels |
| `CommandsRead.MoveKeepsTheReportedTree` | packages/editor/src/blockOps.ts:207-291 | after a move up or down the server lists the same ids, each with the same parent and depth |
| `CommandsRead.MoveSwapsChildren` | packages/editor/src/blockOps.ts:207-291 | in the reported children of their parent the two siblings change places, and every other block's list of children is as it was |
| `CommandsRead.DeleteKeepsTheReportedTree` | packages/editor/src/blockOps.ts:333-358 | after a delete the server lists exactly the blocks outside the reported subtree, in the order they had, each with its parent and depth |
| `CommandsRead.IndentIsReported` | packages/editor/src/blockOps.ts:162-180 | after an indent that keeps to the cap the server reports the block below its previous sibling, its subtree one level deeper, and everything else as before |
| `CommandsRead.OutdentIsReported` | packages/editor/src/blockOps.ts:183-198 | after an outdent the server reports the block below its grandparent, its later siblings below it, its subtree one level up, and everything else as before |
| `RoundTrip.RegrowPreorder` | packages/core/src/doc/blockTree.ts:334-372 | a forest can be regrown from its preorder listing |
| `RoundTrip.PreorderRegrow` | packages/core/src/doc/blockTree.ts:334-372 | every stepped listing is the preorder of a forest |
| `RoundTrip.StoredListingIsRead` | packages/core/src/doc/blockTree.ts:423-469 | a stepped listing within the cap, written with indents, is read back as itself without an indent warning |
| `RoundTrip.ForestRoundTrip` | packages/core/src/doc/blockTree.ts:423-469 | writing a forest no deeper than the cap and reading it gives the same forest |
| `RoundTrip.PreorderParentsAreNearest` | packages/core/src/doc/blockTree.ts:334-372 | in a preorder listing the nearest shallower block is the tree's parent |
| `RoundTrip.StoredForestParents` | packages/core/src/doc/blockTree.ts:423-469 | the parents reported for a stored forest are the forest's |
| `NestedRoundTrip.MixedReadsBackIff` | packages/core/src/doc/blockTree.ts:334-469 | the blocks of one container, whose children are stored inside their elements, after them, or both, are listed as the forest they stand for iff they fit |
| `NestedRoundTrip.MixedForestRoundTripIff` | packages/core/src/doc/blockTree.ts:291-469 | so for a page: its listing is the forest's preorder iff every block has an id, no indent passes the cap and no block with XML children is at the cap or beyond; then it regrows to the same forest and no indent is clamped |
| `NestedRoundTrip.ShallowFits` | packages/core/src/doc/blockTree.ts:302-306 | a forest with ids and no block deeper than the cap fits, whichever way each child is stored |
| `NestedRoundTrip.MixedForestParents` | packages/core/src/doc/blockTree.ts:334-378 | the parents reported for such a page are the forest's |
| `RoundTrip.NormalisedReadsTheSame` | packages/core/src/doc/blockTree.ts:335-372 | for arbitrary raw indents at every nesting level, rewriting the effective ones and reading again changes nothing and warns of nothing |
| `Numbering.ComputeListNumbers` | packages/editor/src/listNumbers.ts:48-82 | on every document in document order the counter array gives exactly the specified items; entering a column restarts the counts and leaving it does not |
| `Numbering.RunningStep` | packages/editor/src/listNumbers.ts:53-79 | what one block does to every open run: truncate, increment, or leave |
| `Numbering.NumberCountsSiblings` | packages/editor/src/listNumbers.ts:48-82 | an item's number is 1 plus the count of consecutive immediately preceding siblings in the forest that are numbered |
| `Numbering.FlatNumbers` | packages/editor/src/listNumbers.ts:53-79 | without columns an item's number is the one in the whole run |
| `Numbering.ColumnRestarts` | packages/editor/src/listNumbers.ts:53-62 | after a column the numbers are those of the blocks behind it alone, until the next column |
| `Numbering.NumberHereCountsSiblings` | packages/editor/src/listNumbers.ts:53-79 | the same between columns, in the forest of the blocks since the last column; nothing is asked of the levels of later blocks |
| `Numbering.ItemsAreNumberedBlocks` | packages/editor/src/listNumbers.ts:66-78 | every numbered block gets one item, in order, and nothing else does |
| `Collapse.HiddenBlockPositions` | packages/editor/src/collapse.ts:53-75 | a block is listed iff a collapsed toggle is its ancestor in the forest; the list is in order without repeats, and as long as the number of hidden blocks |
| `Collapse.HiddenChildCount` | packages/editor/src/collapse.ts:81-99 | the count is the number of descendants |
| `Collapse.OneShownHolder` | packages/editor/src/collapse.ts:53-75 | a hidden block lies under exactly one collapsed toggle that is itself shown |
| `Collapse.CountsAddUp` | packages/editor/src/collapse.ts:53-99 | the counts on the shown collapsed toggles add up to the number of hidden blocks |
| `BlockIds.RepairedIsIdentified` | packages/editor/src/blockIds.ts:57-78 | with fresh ids every block ends with a non-empty id of its own |
| `BlockIds.FirstHolderKeeps` | packages/editor/src/blockIds.ts:66-75 | the first holder of an id keeps it |
| `BlockIds.SecondPassFindsNothing` | packages/editor/src/blockIds.ts:57-103 | a second pass, with any generator, collects nothing |
| `BlockIds.PatchedIsRepaired` | packages/editor/src/blockIds.ts:98-108 | patching the collected positions gives the ids of the rebuilding form, although only one of them remembers the ids it makes |
| `BlockIds.RebuildRelabels` | packages/editor/src/blockIds.ts:136-163 | the recursion changes ids and nothing else |
| `BlockRepair.SetIdRelabels` | packages/editor/src/blockIds.ts:104-108 | setting the attribute at a position changes the node there and no other |
| `BlockRepair.PatchingIsRebuilding` | packages/editor/src/blockIds.ts:57-163 | the plugin form and the rebuilding form give the same document |
| `BlockRepair.RebuildIdentifies` | packages/editor/src/blockIds.ts:136-163 | on documents: all blocks identified, only ids changed, unchanged exactly when nothing was wrong, stable under another pass |
| `BlockRepair.DuplicateKeepsOriginalIds` | packages/editor/src/blockOps.ts:293-320 | after a duplicate anywhere in the document, repair leaves every original block its id, also where blocks inside the copies repeat ids |
| `BlockRepair.DuplicateIsWithCopies` | packages/editor/src/blockOps.ts:301-323 | the copies meant there are those of the modelled duplicate command |
| `BlockRepair.UnfixedIsIdentified` | packages/editor/src/blockIds.ts:57-78 | nothing is collected exactly when every block has an id of its own |
| `BlockRepair.FixCollector.Callback` | packages/editor/src/blockIds.ts:64-75 | what the traversal's callback does to the fixes, the ids seen and the generator |
| `BlockRepair.FixCollector.Descendants` | packages/editor/src/blockIds.ts:57-78 | the traversal collects the specified fixes |
| `BlockRepair.AppendTransaction` | packages/editor/src/blockIds.ts:98-117 | nothing is appended iff every block has an id of its own; otherwise the patched document, equal to the rebuilt one |
| `BlockRepair.Rebuilder.RebuildAll` | packages/editor/src/blockIds.ts:136-163 | the recursion with its mutable set gives the specified document |
| `StoreTheorems.StepKeeps` | packages/client/src/store.ts:234-617 | every step keeps the invariant, whichever sends fail, provided only that the server does not reissue a live handle: iteration order, mutually inverse handle maps, requests only for held entries without a handle, references counted, every unreleased handle on the very entry held for its page, shown as synced only with flag and live handle, request ids never reused |
| `StoreTheorems.RunKeeps` | packages/client/src/store.ts:234-617 | so does every run |
| `StoreEvents.HeldPageIsTold` | packages/client/src/store.ts:272-617 | over every run: a held page's document is exactly what was stored, edited and received under its live handles since its entry was made, and its handle, role, status and synced flag are what the events say |
| `StoreEvents.DocToldIff` | packages/client/src/store.ts:447-472 | an edit is in that document iff some event since the entry was made brought it |
| `StoreEvents.StepRecords` | packages/client/src/store.ts:334-425 | which frames each event but an AuthAck sends or fails to send, and what it records |
| `StoreEvents.DroppedIff` | packages/client/src/store.ts:589-617 | a page is dropped exactly when its last reference is released and it is taken for synced |
| `StoreTheorems.ReachableInv` | packages/client/src/store.ts:234-617 | every reachable state satisfies the invariant |
| `StoreTheorems.HandlesShareOneDocument` | packages/client/src/store.ts:529-587 | in every run two unreleased handles are on the same entry iff they are of the same page, and that entry is held |
| `StoreSync.HasIffCarried` | packages/client/src/store.ts:343-351 | what the log shows the server to have of a page is exactly what some record since the last loss of the connection carries: a frame that was sent, or edits the server named, under a handle issued for the page |
| `StoreSync.StepTraced` | packages/client/src/store.ts:234-617 | every step keeps the log in agreement with the maps, and every step but a step 2 keeps the store safe (a document taken for synced holds only edits the server has), whichever sends fail |
| `StoreSync.Step2SafeIffCarried` | packages/client/src/store.ts:447-472 | a step 2 on a live handle keeps the store safe iff every edit of the document is in a frame sent, or named by the server, since the connection was last lost, or named by this step 2 |
| `StoreSync.Step2SafeIff` | packages/client/src/store.ts:447-472 | after an answered step 1 that is: iff no edit whose send failed since that answer is outstanding |
| `StoreSync.RunSafeIff` | packages/client/src/store.ts:447-472 | over every run: all states are safe iff every step 2 meets that condition |
| `StoreSync.PromisedRunSafeIff` | packages/client/src/store.ts:447-472 | over every run in which step 2 comes only after an answered step 1: all states are safe iff no step 2 finds a failed send outstanding |
| `StoreSync.NothingIsLost` | packages/client/src/store.ts:589-617 | in every run that meets the condition a document is discarded only by a release, each of its edits is in a frame that was sent or was named by the server since the connection was last lost, and no handle on it is left; which states can lose an edit is `StoreRelease.SafeIffNothingCanBeLost` |
| `StoreRelease.SafeIffNothingCanBeLost` | packages/client/src/store.ts:581-617 | in every state that keeps the invariant and agrees with its log, as all states of all runs do: some opens and releases discard a document holding an edit the server does not have iff the store is not safe |
| `StoreRelease.RunLosesNothingIff` | packages/client/src/store.ts:447-472 | over every run from the start: no state can lose an edit by opens and releases iff every step 2 finds, or names, all its document holds with the server |
| `StoreRelease.PromisedRunLosesNothingIff` | packages/client/src/store.ts:447-472 | over every run in which step 2 comes only after an answered step 1: iff no step 2 finds a failed send outstanding |
| `StoreRelease.LateReplySavesTheEdit` | packages/client/src/store.ts:447-472 | a run with an early step 2, after which a release would lose the edit, and in which the reply that follows hands it over, so that its release loses nothing |
| `StoreLoss.SureSendsAreCareful` | packages/client/src/connection.ts:392-402 | if no send on a ready connection fails, the server's promise alone makes every run such a run |
| `StoreLoss.SureSendsLoseNothing` | packages/client/src/store.ts:589-617 | so then no discarded document held an edit the server does not have |
| `StoreLoss.UnansweredStep2LosesAnEdit` | packages/client/src/store.ts:447-472 | a run in which step 2 comes before step 1 was answered: the release discards an edit no frame carried |
| `StoreLoss.FailedSendLosesAnEdit` | packages/client/src/store.ts:343-351 | a run in which the server keeps its promise and one update is not sent on a ready connection: step 2 sets the flag again and the release discards that edit |
| `StoreTheorems.StaleAnswersAreIgnored` | packages/client/src/store.ts:418-421 | answers to requests made before a reconnect change nothing, for ever |
| `StoreTheorems.AuthenticationRequestsAll` | packages/client/src/store.ts:402-416 | after every authentication each held document has exactly one tracked outstanding open request, or its send failed |
| `Store.Connection.Send` | packages/client/src/connection.ts:387-390 | a frame is refused unless the connection is ready |
| `Store.DocumentStore.constructor` | packages/client/src/store.ts:185-194 | the empty store is the initial state |
| `Store.DocumentStore.RequestOpen` | packages/client/src/store.ts:382-400 | the new state, also when the send fails |
| `Store.DocumentStore.Open` | packages/client/src/store.ts:272-380 | a held page gains a reference and a handle on its entry; another page gets an entry with a serial of its own, a handle and a request |
| `Store.DocumentStore.OnLocalUpdate` | packages/client/src/store.ts:334-352 | the new state of an edit without handle, sent, and not sent |
| `Store.DocumentStore.ReleaseEntry` | packages/client/src/store.ts:589-617 | references counted down; unsynced documents kept; synced ones closed and dropped from all maps |
| `Store.DocumentStore.Release` | packages/client/src/store.ts:581-585 | a handle releases at most once |
| `Store.DocumentStore.OnOpenAck` | packages/client/src/store.ts:418-445 | a tracked request gains its handle and step 1 is sent; any other is ignored |
| `Store.DocumentStore.OnSync` | packages/client/src/store.ts:447-472 | the three messages of the sync protocol, as set difference and union |
| `Store.DocumentStore.OnClosed` | packages/client/src/store.ts:481-488 | the new state |
| `Store.DocumentStore.OnRoleChanged` | packages/client/src/store.ts:490-495 | the new state |
| `Store.DocumentStore.OnError` | packages/client/src/store.ts:497-506 | the new state; request 0 is ignored |
| `Store.DocumentStore.HandleDisconnect` | packages/client/src/store.ts:246-251 | the loop marks every document offline and unsynced |
| `Store.DocumentStore.HandleAuthenticated` | packages/client/src/store.ts:409-416 | the loop re-issues an open for every document without handle or request |
| `Store.DocumentStore.HandleReconnect` | packages/client/src/store.ts:234-243 | the loop forgets handles and requests and re-issues an open for every document |
| `Store.DocumentStore.HandleAuthAck` | packages/client/src/connection.ts:332-353 | authenticated first, then reconnected unless it is the first time |
| `Store.DocumentStore.HandleFatal` | packages/client/src/store.ts:261-270 | the loop drops all handles, requests and roles |
| `Store.DocumentStore.ConnectionFailed` | packages/client/src/client.ts:62-88 | disconnect, then fatal |
| `Diff.WordsConcat` | packages/core/src/doc/diff.ts:51-53 | the words concatenate to the text |
| `Diff.WordsAlternate` | packages/core/src/doc/diff.ts:51-53 | every word is a non-empty run of spaces or of non-spaces, alternating |
| `Diff.LcsIsMaximal` | packages/core/src/doc/diff.ts:76-86 | no common subsequence is longer than the table says |
| `Diff.LcsTable` | packages/core/src/doc/diff.ts:76-86 | the table holds the longest common subsequence length of every pair of suffixes |
| `Diff.FillRow` | packages/core/src/doc/diff.ts:79-86 | one row, from the end, with the rest of the table unchanged |
| `Diff.Walk` | packages/core/src/doc/diff.ts:88-113 | the walk emits the script, merged as it goes |
| `Diff.ScriptKeepsLcs` | packages/core/src/doc/diff.ts:97-113 | the unchanged words are a common subsequence of the greatest length |
| `Diff.DiffWords` | packages/core/src/doc/diff.ts:63-115 | the method computes the specified diff, within and beyond the limit |
| `Diff.DiffReadsBothTexts` | packages/core/src/doc/diff.ts:63-115 | for all texts: same and removed give the old text, same and added the new one, and no two adjacent runs have one kind |
| `Diff.DiffRemovesFirst` | packages/core/src/doc/diff.ts:63-115 | for all texts: in the output no added run is directly followed by a removed one |
| `Diff.LongTextsAreReplaced` | packages/core/src/doc/diff.ts:67-74 | beyond 400 words on a side the old text is removed whole and the new one added whole |
| `DiffOutput.PushedWords` | packages/core/src/doc/diff.ts:88-113 | cut into words again, the unchanged runs of the output are the words the walk kept |
| `DiffOutput.DiffKeepsTheMost` | packages/core/src/doc/diff.ts:67-113 | up to 400 words a side, the words of the unchanged runs of the output are a common subsequence of the two texts' words, and none is longer |
| `Crc.ShiftByLinear` | packages/core/src/archive/packStored.ts:34-38 | the eight-step shift is linear over xor |
| `Crc.FeedIsShift` | packages/core/src/archive/packStored.ts:34-38 | feeding bits one at a time equals adding them at once and stepping |
| `Crc.TableStep` | packages/core/src/archive/packStored.ts:42-46 | one lookup does what feeding eight bits does |
| `Crc.MakeTable` | packages/core/src/archive/packStored.ts:32-40 | each table entry is its index stepped eight times |
| `Crc.Crc32` | packages/core/src/archive/packStored.ts:42-46 | the table-driven loop computes the bit-by-bit reflected CRC with polynomial 0xEDB88320 of every byte sequence |
| `CrcCheck.Residue` | packages/core/src/archive/packStored.ts:32-46 | every byte sequence followed by its own checksum, low byte first, has the checksum 0x2144DF1C |
| `CrcCheck.CheckValue` | packages/core/src/archive/packStored.ts:32-46 | the checksum of "123456789" is 0xCBF43926 |
| `Bytes.DecodeEncode` | packages/core/src/archive/packStored.ts:95-122 | a value is read back from its little-endian bytes as its remainder modulo the width, as a `DataView` stores it |
| `Bytes.LaidField` | packages/core/src/archive/packStored.ts:95-122 | a field of a record written field by field is read back, truncated to its width |
| `Zip.LocalReads` | packages/core/src/archive/packStored.ts:95-108 | all eleven fields of a local header (APPNOTE 4.3.7) |
| `Zip.CentralReads` | packages/core/src/archive/packStored.ts:110-124 | all fields of a directory record, and the extra and comment lengths left at zero (APPNOTE 4.3.12) |
| `Zip.EndReads` | packages/core/src/archive/packStored.ts:129-134 | all fields of the end record, and the comment length left at zero (APPNOTE 4.3.16) |
| `ZipTheorems.EntryStands` | packages/core/src/archive/packStored.ts:88-126 | each recorded offset is the true position of its local header |
| `ZipTheorems.ArchiveFits` | packages/core/src/archive/packStored.ts:57-58 | within the limits and with names under 2^16 bytes every offset and size fits 32 bits |
| `ZipTheorems.DirectoryIsRead` | packages/core/src/archive/packStored.ts:88-126 | the directory is read back record by record |
| `ZipTheorems.NamesReadAreShort` | packages/core/src/archive/packStored.ts:110-124 | whatever the bytes, no name of 2^16 bytes or more is ever read |
| `ZipTheorems.ZipRoundTripIff` | packages/core/src/archive/packStored.ts:76-145 | within the two limits the writer checks, a reader that compares each local header with its directory record recovers exactly the packed names and bodies in order iff every encoded name is under 2^16 bytes |
| `ZipTheorems.LongNameIsLost` | packages/core/src/archive/packStored.ts:76-145 | one entry with a name of 2^16 bytes is packed and does not read back |
| `ZipWriter.SetUint` | packages/core/src/archive/packStored.ts:95-134 | writing one field changes its bytes and no others |
| `ZipWriter.WriteRecord` | packages/core/src/archive/packStored.ts:95-134 | a buffer written field by field |
| `ZipWriter.WriteEntries` | packages/core/src/archive/packStored.ts:88-126 | bodies, directory and running offset in one pass |
| `ZipWriter.Assemble` | packages/core/src/archive/packStored.ts:136-145 | the parts concatenated into one buffer |
| `ZipWriter.PackStored` | packages/core/src/archive/packStored.ts:76-145 | the two refusals, the archive, and when it reads back |
| `Markdown.UnescapeEscape` | packages/core/src/doc/inlineMarkdown.ts:29-31 | dropping the escapes gives the text |
| `Markdown.MarksAre` | packages/core/src/doc/inlineMarkdown.ts:71-76 | the marks wanted are the op's attributes that name a mark and are not null |
| `Markdown.OuterMarksFirst` | packages/core/src/doc/inlineMarkdown.ts:71-76 | of two marks on one op a link opens first, then bold, emphasis, strikethrough and code |
| `Markdown.TraceIsNested` | packages/core/src/doc/inlineMarkdown.ts:67-128 | the marks written nest and all close; each core is written under exactly its op's marks; without delimiters the text is left |
| `Markdown.MarksHugTheWords` | packages/core/src/doc/inlineMarkdown.ts:80-127 | a mark opens directly before a core and closes directly after one, cores have no white space at their edges, and no mark closes only to open again |
| `Markdown.UnmarkedIsEscaped` | packages/core/src/doc/inlineMarkdown.ts:67-128 | ops without marks are written as their escaped text |
| `Markdown.WriteTurn` | packages/core/src/doc/inlineMarkdown.ts:102-122 | the three inner loops write one turn of the trace |
| `Markdown.OpsToMarkdown` | packages/core/src/doc/inlineMarkdown.ts:67-128 | the method writes the rendering of the trace, and the escaped text when nothing is marked |
| `InlineReader.HasCloser` | packages/core/src/doc/inlineMarkdown.ts:170-178 | the search loop finds whether a later delimiter can close |
| `InlineReader.Scanner.Flush` | packages/core/src/doc/inlineMarkdown.ts:143-149 | the buffer becomes an op under the open marks and counts for each of them |
| `InlineReader.Scanner.Toggle` | packages/core/src/doc/inlineMarkdown.ts:152-161 | a mark opens or closes and its delimiter is passed |
| `InlineReader.Scanner.Acts` | packages/core/src/doc/inlineMarkdown.ts:162-179 | whether a delimiter opens its mark, or closes it |
| `InlineReader.Scanner.TakeDelimiter` | packages/core/src/doc/inlineMarkdown.ts:227-252 | which of the three delimiters is taken, or none |
| `InlineReader.Scanner.TakeLink` | packages/core/src/doc/inlineMarkdown.ts:210-225 | the link's text is read by itself and put under the open marks and the link |
| `InlineReader.Scanner.Pass` | packages/core/src/doc/inlineMarkdown.ts:181-256 | one pass of the loop |
| `InlineReader.MergeOps` | packages/core/src/doc/inlineMarkdown.ts:271-281 | the merging loop |
| `InlineReader.MarkdownToOps` | packages/core/src/doc/inlineMarkdown.ts:138-282 | the class computes the reader's specification, on which the following laws are proved |
| `MarkdownTheorems.MergedIs` | packages/core/src/doc/inlineMarkdown.ts:271-281 | merging changes no letter and no letter's marks, and neighbours end with different marks |
| `MarkdownTheorems.ScannedSound` | packages/core/src/doc/inlineMarkdown.ts:181-256 | at every pass only characters of the input were taken, in order, under marks the reader makes |
| `MarkdownTheorems.ReadIsSound` | packages/core/src/doc/inlineMarkdown.ts:138-282 | for every input: the text is a subsequence of it, ops are non-empty, neighbours differ in marks, and only the five marks appear, a link's address without white space or `)` |
| `MarkdownTheorems.MatchedTitle` | packages/core/src/doc/inlineMarkdown.ts:211-215 | a title the link pattern finds has no odd run of backslashes before a quote, a line end or the end |
| `MarkdownTheorems.LinkMatches` | packages/core/src/doc/inlineMarkdown.ts:211-215 | the link pattern finds the whole of a link the writer wrote iff its address has no white space and no `)` and its title is absent, or non-empty without an odd run of backslashes before a quote, a line end or the end |
| `MarkdownTheorems.OneMarkIsWritten` | packages/core/src/doc/inlineMarkdown.ts:67-128 | what the writer writes for one op under one mark |
| `MarkdownRoundTrip.PassEscaped` | packages/core/src/doc/inlineMarkdown.ts:184-188 | escaped text is taken as it was, under whatever marks are open |
| `MarkdownRoundTrip.ReadEscaped` | packages/core/src/doc/inlineMarkdown.ts:181-282 | escaped unmarked text comes back as one op |
| `MarkdownRoundTrip.LinkReadsBackIff` | packages/core/src/doc/inlineMarkdown.ts:210-225 | a written link comes back iff its text is not empty and the pattern can hold its address and its title, as for `LinkMatches` |
| `MarkdownRoundTrip.BackslashTitleIsLost` | packages/core/src/doc/inlineMarkdown.ts:50-58 | a title that ends in a single backslash does not come back |
| `MarkdownRoundTrip.CloserOfPair` | packages/core/src/doc/inlineMarkdown.ts:167-178 | the search for a closer of two characters succeeds iff the text does not end in a backslash or in that character |
| `MarkdownRoundTrip.MarkReadsBackIff` | packages/core/src/doc/inlineMarkdown.ts:227-252 | a written bold, emphasised or struck text comes back iff it does not end in a backslash and, for the delimiters of two characters, not in their character |
| `MarkdownRoundTrip.StrongIsEm` | packages/core/src/doc/inlineMarkdown.ts:227-252 | what a bold text that does not come back is read as |
| `MarkdownRoundTrip.PlainLinkTexts` | packages/core/src/doc/inlineMarkdown.ts:50-58 | a link whose title is empty or no text is written without one, and one whose address is no text with an empty one |
| `MarkdownNesting.LinkInsideMarkIsRead` | packages/core/src/doc/inlineMarkdown.ts:210-252 | text, link and text inside a bold, emphasised or struck span are read under the mark, the link's text under both |
| `MarkdownNesting.LinkAloneLosesItsMark` | packages/core/src/doc/inlineMarkdown.ts:143-163 | a link alone inside a mark is no text of the mark: the link is read without it, and the closing delimiter as characters |
| `MarkdownNesting.LinkInsideMarkIsReadIff` | packages/core/src/doc/inlineMarkdown.ts:210-252 | a link inside a mark comes back iff text stands before or after it under the mark |
| `MarkdownNesting.MarkInsideMarkIsRead` | packages/core/src/doc/inlineMarkdown.ts:227-252 | bold, emphasised and struck text inside one another, with text before and after, are read under the outer mark and both |
| `MarkdownTraces.ClearIsRead` | packages/core/src/doc/inlineMarkdown.ts:138-282 | every trace whose delimiters stand where the reader takes them is read as each of its letters under the marks open there |
| `MarkdownParagraph.FittingIsRead` | packages/core/src/doc/inlineMarkdown.ts:67-128 | any number of ops whose texts, marks and stars fit are written so that the reader gives each letter the marks it was written under |
| `MarkdownParagraph.LettersComeBackIff` | packages/core/src/doc/inlineMarkdown.ts:80-127 | their letters and marks come back iff no white space is moved out of a mark |
| `MarkdownParagraph.OpsComeBackIff` | packages/core/src/doc/inlineMarkdown.ts:60-282 | the very ops come back iff moreover each has text and no two neighbours have the same marks |
| `MarkdownParagraph.FourStarsAreMisread` | packages/core/src/doc/inlineMarkdown.ts:227-252 | bold emphasis directly before emphasis, then bold: what the writer writes for three ops is read with other words and marks |
| `MarkdownLinks.LinkAroundIsRead` | packages/core/src/doc/inlineMarkdown.ts:210-225 | a link around any text that reads without links is read as that text's ops, each under the link as well |
| `MarkdownLinks.LinkIsWrittenAround` | packages/core/src/doc/inlineMarkdown.ts:67-128 | ops under one link are written as they are without it, between its brackets |
| `MarkdownLinks.LinkedOpsComeBack` | packages/core/src/doc/inlineMarkdown.ts:60-282 | any number of marked ops under one link come back, each with its marks and the link |
| `MarkdownPlain.TextIsReadAsItIsIff` | packages/core/src/doc/inlineMarkdown.ts:164-256 | a text is read as one unmarked op iff none of its characters acts: no escape, code, link or delimiter that could open |
| `MarkdownPlain.ArithmeticAndNamesAreText` | packages/core/src/doc/inlineMarkdown.ts:130-137 | stars before spaces and underscores inside words are characters |
| `MarkdownPlain.UnderscoresAreEmphasis` | packages/core/src/doc/inlineMarkdown.ts:244-252 | underscores around escaped text are emphasis, as stars are |
| `MarkdownPlain.SpacedDelimiterIsText` | packages/core/src/doc/inlineMarkdown.ts:179-252 | inside an emphasised or struck span its delimiter after white space does not close it and is a character |
| `MarkdownCode.ScannedEmits` | packages/core/src/doc/inlineMarkdown.ts:181-257 | the loop emits at most a letter for each character it passes, and as many only when it takes every one as it stands |
| `MarkdownCode.CodeReadsBackIff` | packages/core/src/doc/inlineMarkdown.ts:190-208 | a written code text comes back iff it is not empty and holds neither a backslash nor a backtick |
| `MarkdownRoundTrip.MarksAreWritten` | packages/core/src/doc/inlineMarkdown.ts:67-128 | the texts of these laws are the writer's output |
| `Authorship.AuthoredRanges` | packages/editor/src/authorship.ts:45-80 | the ranges are ordered, non-empty, merged, and say of every visible unit who wrote it |
| `Authorship.DescriptionIsUnique` | packages/editor/src/authorship.ts:37-44 | only one list of ranges does that |
| `Authorship.RangesForClients` | packages/editor/src/authorship.ts:88-105 | the result covers exactly what the chosen clients' ranges cover; from ordered ranges it is ordered and nothing touches |
| `Authorship.HighlightIsExact` | packages/editor/src/authorship.ts:45-105 | a unit is covered iff it is visible text by a chosen client |

## Left out

- ProseMirror positions, selections, carets, decorations, DOM and node views: a parent is the sequence of its children and a command is applied at an index. The guards that a sibling is a block are dropped, since the schema admits only blocks there (packages/editor/src/schema.ts:202, 603, 633).
- Attribute values other than id, type, indent and flags: the reader's props and its Markdown rendering of a block are not modelled, and an indent attribute is one of missing, parsed or unreadable.
- Yjs internals and merge: documents are immutable trees for the reader and sets of edits for the store; the sync messages are set difference and union.
- The store's `Entry` objects are records held under their page, with a serial for identity; listeners do not re-enter; awareness, presence, attribution, persistence and logging are not modelled.
- Any claim that a document released while unsynced is freed later, or that synced means the server acknowledged: nothing revisits entries without references, and a successful send leaves the flag set.
- Sockets, timers, pings and the reconnect schedule of the connection; only its AuthAck branch, its ready gate and the order of its fatal events drive the store.
- MarkdownParagraph.OpsComeBackIff: nothing is said of ops where bold emphasis stands directly before emphasis that is not bold; such ops may be misread (`FourStarsAreMisread`) or come back, depending on what follows.
- MarkdownLinks.LinkedOpsComeBack: one link with any ops under it; several links, or a link beside other ops, in one text are stated only for a link inside a mark (`MarkdownNesting`).
- Records compare by their members in order, as their JSON text does; values that have no JSON text are not modelled.
- BlockRepair.FixCollector.Descendants and BlockRepair.Rebuilder.RebuildAll: the generator is a function of the number of calls; that its ids are fresh is a hypothesis of the theorems, and uniqueness of random ids is not modelled.
- TextEncoder and the DOS time of an archive entry: names are bytes and the two time fields are parameters.
- The walk over the linked list of Yjs items is a walk over a sequence.
- `diffVersions`, `mentionsIn`, `linksIn` and the other readers of a page's blocks: they would only add easy members.
- Formulas, fractional indices, colours and themes, roles, search, the server, the web application, the service worker and the command-line tools.
