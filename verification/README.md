# RimStudio kernels: a verified model

RimStudio loads RimWorld mods: it merges their `Defs` files into one document, applies their patch
operations, builds def databases from the result and reports problems on the way. This project models
the parts of that work whose correctness is hardest to see from the code, and proves what they promise.

| file | what it models |
|---|---|
| `Arena.dfy` | the document as an ordered forest with handles that are never issued twice, and its edits |
| `DefScan.dfy` | what `Defs/Type[defName="x"]` selects by scanning the document |
| `DefIndex.dfy` | the `defName` index: two maps that mirror each other |
| `IndexNotes.dfy` | why pending notes and dirty marks keep a stale index honest, edit by edit |
| `UnifiedDoc.dfy` | the merged document with its lazily refreshed index |
| `PatchSpec.dfy` | the meaning of every patch operation: an interpreter that scans and caches nothing |
| `PatchEngine.dfy` | the patch engine, with notes, index, failures and panics, proved against that meaning |
| `PatchTheorems.dfy` | when the index shortcut means what the game means, and whole runs |
| `DocumentMeaning.dfy` | what is seen of a document by handles: children in order, labels, document order |
| `PatchMeaning.dfy`, `PatchRuns.dfy` | what each patch operation does to the document, and how operations compose, told by handles |
| `Database.dfy` | def databases: overriding by name, in mod order |
| `DatabaseMeaning.dfy` | the databases told by the positions of the defs in the document |
| `RateLimit.dfy`, `Jobs.dfy`, `JobTheorems.dfy` | the progress limiter and the job runner protocol, one atomic step per lock region |
| `JobMeaning.dfy`, `JobCalls.dfy` | what every call and every operation of a job does, and what a thread has done when its call returns |
| `JobLocks.dfy` | the same protocol with its locks, owners and waiting threads, proved to refine the atomic one |
| `Sorting.dfy`, `Diagnostics.dfy`, `DiagSinks.dfy` | the diagnostic order and the bounded sink |
| `DiagMeaning.dfy` | the order told field by field, and which reports a sink keeps |
| `Glob.dfy` | the wildcard matcher of the licence check |
| `TypeTable.dfy`, `MetadataTables.dfy` | the assembly type table and the layout of ECMA-335 metadata tables (sections II.22 and II.24.2.6) |
| `TypeMeaning.dfy`, `MetadataMeaning.dfy` | the type table told by where types are defined; coded indexes, row lengths and places told in numbers |
| `LoadPlan.dfy`, `Paths.dfy`, `Versions.dfy`, `Jsonc.dfy` | load plan and text kernels |
| `PathMeaning.dfy`, `VersionMeaning.dfy`, `JsoncMeaning.dfy` | paths, versions and tokens told by characters and positions |
| `PathTheorems.dfy` | when normal forms and folder relations keep what their documentation says |
| `Wrappers.dfy`, `Texts.dfy` | shared containers, lists without repetition, text functions |

## The patch engine

The engine answers `Defs/Type[defName="x"]/...` from a hash index. Edits do not touch the index; they
leave notes (`changed`, `topChanged`), which become dirty marks, which make the next lookup re-read what
is marked. `IndexNotes.Coherent` says what keeps this sound: every handle either agrees with the index,
or some mark or note will make the next refresh re-read it. Each edit is proved to keep it, and so
`PatchEngine.ApplyPatches` ends, for every tree of operations, with every step failing or not and a panic
at any evaluation or edit, with exactly the document and the events of an interpreter that scans.

A panic is a number, the fuse: it burns at every evaluation and before and after every edit, so the
universally quantified starting value stands for every place a panic can strike.

## Two descriptions of every operation

A method and the function that specifies it are two accounts of one operation, and both can be wrong in the
same way. So every operation has a third account that uses neither: the modules whose name ends in `Meaning`
(and `PatchRuns`, `JobCalls`) speak of handles, positions, characters and numbers only. They say which
children stand where after an edit, which def of a name is kept, what a cancel changes and what it leaves,
which of two diagnostics comes first, when a report is sent, which table a tag names. What they use of the
specification is its result.

## Where the code and its documentation differ

- The index looks below the engine's own `Defs` root; the game's expression enters every `Defs` child of
  the document. A patch can add a second one, and then the two disagree
  (`PatchTheorems.ReadingsDiffer` is such a run). They agree on every expression exactly when no other
  `Defs` child of the document holds a named element (`IndexReadingExact`), and patches that neither insert
  a top-level `Defs` nor rename anything to `Defs` can never break that (`RunsAgree`).
- "Cancelling implies a cancelled token" fails when an ended job's terminal event finds no receiver only
  after its id was taken over by a new job (`JobTheorems.LateDelivery`). It holds in a run exactly when that
  never happens (`TokensExact`), which takes a whole retention time between the end record and its delivery
  (`StrangerNeedsRetention`).
- Merging diagnostic sinks is documented as independent of order and partition. That needs every source
  either to keep at least as many samples as the target or to have dropped nothing; the condition is exact
  (`DiagSinks.MergeExact`).
- The `truncated` flag of a diagnostic summary is documented to say that some code had more diagnostics than
  kept samples. The loop looks at codes that have samples only, so a code that was counted but never kept,
  merged in from a sink of cap zero, goes unnoticed (`DiagSinks.CountedNotKept`). The flag tells the truth
  exactly when the cap is zero, or every counted code has samples, or a code with samples is short
  (`DiagSinks.DiagSink.Summary`).
- `strip_trailing_commas` removes one comma before a closing bracket, so `[1,,]` becomes `[1,]`. Its output
  is free of trailing commas exactly when the source has no two commas with only white space between them
  before a closing bracket (`Jsonc.CommasTwice`).
- `build_database` accounts for every member exactly once exactly when no mod with members stands twice in
  the order (`Database.ConservationExact`; `TwiceInOrder` shows a def that replaces itself).
- `normalize_path` promises that Windows style paths lose their backslashes. A leading `//` counts as
  Windows style, but nothing is converted after it: `//server\share` keeps its backslash
  (`PathTheorems.MixedSlashes`). A normal form is free of backslashes exactly when the text starts with a
  drive letter or `\\`, or none of the segments that survive the walk holds one (`BackslashesGone`), where a
  segment survives exactly when from it on there are always more names than `..` (`PlacesSurvive`). After
  a drive letter or `\\` the result is always the documented one (`ConvertedAsDocumented`). After `//` it is
  exactly when both readings are refused alike or leave the same surviving segments
  (`DoubleSlashAsDocumented`); without any `..` that means no backslash at all (`NoClimbAsDocumented`), with
  one it can go either way (`LostByClimbing`, `HarmlessBackslash`).
- `path_relation` compares components and forgets the root: `//a` and `/a` count as the same folder, so do
  `C:/x` and `/c:/x`, and `//a` counts as containing `/a/b` (`PathTheorems.SameIsNotEqual`, `DriveMixedUp`,
  `NestedMixedUp`). The relation is the real one exactly when the roots agree or the two folders are not
  mixed up, a condition on roots and segments that never holds of two drives (`RelationExact`). So what
  the check of custom folders passes is valid, and a valid list is refused only for a mixed-up pair
  (`SilentExactly`).
- A test of the version parser says that a revision without a build does not parse back
  (version.rs:471); it does (`Versions.CanonicalParses`).
- A failing `AddModExtension` leaves the empty element it created and no note. That is harmless: no name
  can change (`IndexNotes.SilentCoherent`).

## Model

| member | source | states |
|---|---|---|
| `DefScan.ScanMembers` | crates/rimstudio-defs/src/index.rs:103-131 | a scan finds a handle exactly when it is a top-level element and one of its `defName` children names a key of its element name |
| `DefScan.ScanInOrder` | crates/rimstudio-defs/src/index.rs:115-131 | matches come in strict document order |
| `DefScan.OrderedListingUnique` | crates/rimstudio-defs/src/index.rs:115-131 | two strictly ordered listings of the same handles are equal, so order and membership fix a lookup |
| `DefIndexing.DefIndex.Build` | crates/rimstudio-defs/src/index.rs:29-37 | a fresh index holds the live names of every node, both maps mirrored and duplicate-free |
| `DefIndexing.DefIndex.Add` | crates/rimstudio-defs/src/index.rs:39-56 | exactly the names of the added node join, no other node changes |
| `DefIndexing.DefIndex.Forget` | crates/rimstudio-defs/src/index.rs:58-71 | exactly the node leaves, from both maps |
| `DefIndexing.DefIndex.Reindex` | crates/rimstudio-defs/src/index.rs:73-83 | the node's names become its live names, also when it is gone or no longer top-level |
| `DefIndexing.DefIndex.LookupKeys` | crates/rimstudio-defs/src/index.rs:115-131 | an index that agrees with the document answers keys exactly as a scan does, order included |
| `DocumentMeaning.ScanMeaning` | crates/rimstudio-defs/src/index.rs:103-131 | the whole expression finds exactly the children of `Defs` elements of the document that carry a wanted name, and below one node exactly those of its children; both in document order |
| `DocumentMeaning.UsableMeaning` | crates/rimstudio-defs/src/merge.rs:220-222 | the indexed root is usable iff it is the first element among the children of the document |
| `DocumentMeaning.ReadingOrder` | crates/rimstudio-core/src/tree/arena.rs:1306-1372 | positions are document order: a node before all below it, a child with all below it before the next child |
| `DocumentMeaning.TextMeaning` | crates/rimstudio-core/src/tree/arena.rs:487-520 | the string value is the text of a text node, and else the texts below joined in order |
| `IndexNotes.EditCoherent` | crates/rimstudio-defs/src/apply.rs:610-623 | an edit of a child list that leaves its note keeps every stale node covered |
| `IndexNotes.MemberCoherent` | crates/rimstudio-defs/src/apply.rs:693-813 | replacing, removing or inserting beside a child, with its note, keeps every stale node covered |
| `IndexNotes.AddedCoherent` | crates/rimstudio-defs/src/apply.rs:631-691 | adding children, with its note, keeps every stale node covered |
| `IndexNotes.ExtensionCoherent` | crates/rimstudio-defs/src/apply.rs:815-856 | reporting the parent instead of the edited `modExtensions` child loses nothing |
| `IndexNotes.SilentCoherent` | crates/rimstudio-defs/src/apply.rs:815-856 | the unreported empty `modExtensions` element changes no name |
| `IndexNotes.AttrsCoherent` | crates/rimstudio-defs/src/apply.rs:858-898 | attribute edits need no note |
| `IndexNotes.FreeCoherent` | crates/rimstudio-defs/src/apply.rs:600-608 | freeing a detached tree needs no note |
| `UnifiedDocument.UnifiedDoc.TopLevelOf` | crates/rimstudio-defs/src/merge.rs:145-158 | the walk up finds the one top-level node that contains the handle, or none |
| `UnifiedDocument.UnifiedDoc.NoteChanged` | crates/rimstudio-defs/src/merge.rs:195-211 | a container note may be dropped for the dirty mark it becomes |
| `UnifiedDocument.UnifiedDoc.NoteTopLevel` | crates/rimstudio-defs/src/merge.rs:213-218 | likewise for a note about a top-level node |
| `UnifiedDocument.UnifiedDoc.RefreshIndex` | crates/rimstudio-defs/src/merge.rs:224-238 | after a refresh the index agrees with the live document about every node |
| `UnifiedDocument.UnifiedDoc.LookupKeys` | crates/rimstudio-defs/src/merge.rs:240-244 | an indexed lookup equals a scan of the live document below `Defs` |
| `PatchEngine.PatchCtx.FlushIndexNotes` | crates/rimstudio-defs/src/apply.rs:209-216 | flushing empties the notes and leaves every stale node marked |
| `PatchEngine.AddTarget` | crates/rimstudio-defs/src/apply.rs:631-691 | one target of `Add`: result, document and coverage |
| `PatchEngine.InsertTarget` | crates/rimstudio-defs/src/apply.rs:693-738 | one target of `Insert` |
| `PatchEngine.ReplaceTarget` | crates/rimstudio-defs/src/apply.rs:740-780 | one target of `Replace` |
| `PatchEngine.RemoveTarget` | crates/rimstudio-defs/src/apply.rs:782-813 | one target of `Remove` |
| `PatchEngine.ExtensionTarget` | crates/rimstudio-defs/src/apply.rs:815-856 | one target of `AddModExtension`, failing imports included |
| `PatchEngine.AttributeTarget` | crates/rimstudio-defs/src/apply.rs:858-898 | one target of the three attribute operations |
| `PatchEngine.SetNameTarget` | crates/rimstudio-defs/src/apply.rs:900-935 | one target of `SetName` |
| `PatchEngine.SelectNodes` | crates/rimstudio-defs/src/apply.rs:552-579 | a selection through the index equals the scan of the live document, or the general evaluation when the index cannot answer |
| `PatchEngine.ApplyLeaf` | crates/rimstudio-defs/src/apply.rs:631-935 | all targets in order, stopping at the first failure; detached nodes are freed unless it panicked |
| `PatchEngine.ApplyOp` | crates/rimstudio-defs/src/apply.rs:403-411 | one operation with its success rewrite has the reference outcome and document whatever was cached |
| `PatchEngine.ApplyWorker` | crates/rimstudio-defs/src/apply.rs:416-535 | every operation class, conditionals and nested operations included |
| `PatchEngine.ApplySequence` | crates/rimstudio-defs/src/apply.rs:416-535 | a sequence stops at the first step that is not a success, and each step selects from what the steps before it left |
| `PatchEngine.RunTopLevel` | crates/rimstudio-defs/src/apply.rs:293-350 | a top-level operation, panicking or not, leaves an honest index and the reference document |
| `PatchEngine.ApplyPatches` | crates/rimstudio-defs/src/apply.rs:267-291 | a whole run ends with the document and the events of the scanning interpreter |
| `PatchTheorems.IndexReadingExact` | crates/rimstudio-defs/src/merge.rs:220-222 | looking below the `Defs` root equals scanning the whole document for all keys iff no other `Defs` child holds a named element |
| `PatchTheorems.ReadingsDiffer` | crates/rimstudio-defs/src/apply.rs:552-579 | a concrete run in which the two readings give different results |
| `PatchTheorems.OpAgrees` | crates/rimstudio-defs/src/apply.rs:416-535 | an operation that brings no `Defs` means the same under both readings and keeps it so |
| `PatchTheorems.RunsAgree` | crates/rimstudio-defs/src/apply.rs:267-291 | whole runs of such operations mean what the game means, through failures and panics |
| `PatchTheorems.PatchMerged` | crates/rimstudio-defs/src/apply.rs:267-291 | patching a freshly merged document with the indexed engine gives the game's reading |
| `PatchTheorems.InsertedOneByOne` | crates/rimstudio-defs/src/apply.rs:711-722 | linking the copies one by one beside the target leaves them reversed, before and after it |
| `PatchTheorems.RenameTakesOver` | crates/rimstudio-defs/src/apply.rs:900-935 | a rename is a new element in the old place with all children; exactly the old element disappears |
| `PatchTheorems.ReplaceExchanges` | crates/rimstudio-defs/src/apply.rs:740-780 | a replacement takes exactly the old subtree out of the arena and puts exactly the new nodes in |
| `PatchMeaning.AddMeaning` | crates/rimstudio-defs/src/apply.rs:661-691 | `Append` leaves the old children followed by the copies, `Prepend` the copies followed by the old children; every other node keeps its children and label; otherwise it raises and nothing changes |
| `PatchMeaning.AddToAttribute` | crates/rimstudio-defs/src/apply.rs:640-660 | a selected attribute is extended by the text at its end or its front, and nothing else changes |
| `PatchMeaning.InsertMeaning` | crates/rimstudio-defs/src/apply.rs:693-738 | the copies stand beside the target in reverse order, after it or before it; every other node keeps its children |
| `PatchMeaning.ReplaceMeaning` | crates/rimstudio-defs/src/apply.rs:740-780 | the copies stand in the place of the target; a target that is gone counts; the document node raises |
| `PatchMeaning.RemoveMeaning` | crates/rimstudio-defs/src/apply.rs:782-813 | the target leaves its parent, nothing else moves |
| `PatchMeaning.ExchangeMeaning` | crates/rimstudio-defs/src/apply.rs:600-608 | after a whole replacement or removal exactly the old tree is gone from the arena |
| `PatchMeaning.SetNameMeaning` | crates/rimstudio-defs/src/apply.rs:900-935 | a new element without attributes stands in the old place with the same children, which keep their subtrees |
| `PatchMeaning.ExtensionMeaning` | crates/rimstudio-defs/src/apply.rs:815-856 | the copies come last in the first `modExtensions` child; a value that cannot be imported changes nothing |
| `PatchMeaning.ExtensionCreates` | crates/rimstudio-defs/src/apply.rs:815-856 | without one a new last child gets them, and it stays, empty, when the value cannot be imported |
| `PatchMeaning.AttributeMeaning` | crates/rimstudio-defs/src/apply.rs:858-898 | which attributes an element has after each mode, in which order; what changes nothing does not count |
| `PatchMeaning.OnlyAddTakesAttributes` | crates/rimstudio-defs/src/apply.rs:693-935 | every other operation raises on a selected attribute |
| `PatchMeaning.ImportMeaning` | crates/rimstudio-core/src/tree/arena.rs:1405-1464 | an import copies the value node by node; its handles are the next ones, in document order |
| `PatchMeaning.ValueMeaning` | crates/rimstudio-defs/src/apply.rs:640-691 | a value has an element iff one of its top-level nodes is one, can be imported iff each is accepted, and its text is that of its top-level texts |
| `PatchRuns.TargetsInOrder` | crates/rimstudio-defs/src/apply.rs:631-935 | targets are edited one after the other until one stops the operation |
| `PatchRuns.FreeMeaning` | crates/rimstudio-defs/src/apply.rs:600-608 | freeing takes away exactly the detached trees of the list and keeps every other tree |
| `PatchRuns.StepsInOrder` | crates/rimstudio-defs/src/apply.rs:416-535 | steps run in order until one is not a success, whose result is that of the sequence |
| `PatchRuns.BranchMeaning` | crates/rimstudio-defs/src/apply.rs:416-535 | which branch a conditional runs, and what it answers without one |
| `PatchRuns.PlainMeaning` | crates/rimstudio-defs/src/apply.rs:416-535 | what operations without steps of their own answer, failures included |
| `PatchRuns.SuccessMeaning` | crates/rimstudio-defs/src/apply.rs:403-411 | the success setting changes results only; failures and panics stay |
| `PatchRuns.SelectMeaning` | crates/rimstudio-defs/src/apply.rs:552-579 | the game enters every `Defs`, the engine looks below its root while that is the document element |
| `PatchRuns.PanicPlaces` | crates/rimstudio-defs/src/apply.rs:293-350 | an edit panics before it with nothing done or after it with everything done, by the fuse, and otherwise is as without one |
| `PatchRuns.PatchesInOrder` | crates/rimstudio-defs/src/apply.rs:267-291 | top-level operations run in order whatever their results, each with its own event |
| `Database.BuildDatabase` | crates/rimstudio-defs/src/build.rs:406-487 | the holes-and-positions loops give the last of each name over the first-per-mod sequence, the consecutive same-name pairs, the skips and the name lookup |
| `Database.AddDef` | crates/rimstudio-defs/src/build.rs:428-436 | one addition: the slot of the replaced def empties, the new one is last |
| `Database.EntriesFacts` | crates/rimstudio-defs/src/build.rs:476-486 | entry names are distinct, no added name is lost, and each entry is the def added last under its name |
| `Database.LookupInverse` | crates/rimstudio-defs/src/build.rs:477-480 | name lookup is the exact inverse of the entries |
| `Database.SkipFacts` | crates/rimstudio-defs/src/build.rs:443-470 | a skipped def's kept def is the first of that name in the same mod |
| `Database.PairFacts` | crates/rimstudio-defs/src/build.rs:428-436 | an overridden def and its successor have no addition of their name between them |
| `Database.ConservationExact` | crates/rimstudio-defs/src/build.rs:413-486 | members equal entries plus replaced plus skipped, as a multiset, iff no mod with members is visited twice |
| `Database.TwiceInOrder` | crates/rimstudio-defs/src/provenance.rs:171-181 | a mod listed twice makes its def replace itself |
| `DatabaseMeaning.EntriesMeaning` | crates/rimstudio-defs/src/build.rs:413-486 | the additions are, by positions in the document, the first of each name in each mod, and everything patches created; an order without repetition puts mods in their order, then what patches created, each in document order; the entries are the last additions of their names, in the same order |
| `DatabaseMeaning.OverriddenMeaning` | crates/rimstudio-defs/src/build.rs:428-436 | the overridden pairs are exactly each addition with the last one of its name before it |
| `DatabaseMeaning.SkippedMeaning` | crates/rimstudio-defs/src/build.rs:443-470 | skipped is exactly every def whose mod has its name earlier in the document, and the kept def is the first one of that mod and name |
| `DatabaseMeaning.EntryIsFirst` | crates/rimstudio-defs/src/build.rs:413-470 | an entry that came from a mod is the first member of its mod and name |
| `DatabaseMeaning.LookupMeaning` | crates/rimstudio-defs/src/build.rs:476-480 | a name has an entry iff a member carries it, and looking it up finds that entry |
| `RateLimit.RateLimiter.Offer` | crates/rimstudio-app/src/jobs.rs:251-263 | one offer: sent, or held back replacing the older held-back record |
| `RateLimit.SendsApart` | crates/rimstudio-app/src/jobs.rs:251-263 | for any clock readings consecutive sends are at least the interval apart |
| `RateLimit.SendsBounded` | crates/rimstudio-app/src/jobs.rs:251-263 | a stretch of sends spans at least one interval less than its number of messages |
| `RateLimit.NothingNewerIsLost` | crates/rimstudio-app/src/jobs.rs:346-367 | with the final flush the deliveries are a subsequence of the reports ending with the last one |
| `RateLimit.SentIff` | crates/rimstudio-app/src/jobs.rs:251-263 | an offer is sent iff nothing was sent before it or its reading is at least the interval after that of the last send before it |
| `RateLimit.DeliveredIff` | crates/rimstudio-app/src/jobs.rs:346-367 | with the final flush the receiver gets exactly the sent offers and the last one |
| `JobTheorems.InvStep` | crates/rimstudio-app/src/jobs.rs:297-381 | every step of every actor keeps registry and jobs sound: ended iff end record complete, unfinished jobs are never pruned |
| `JobTheorems.EventsOfAJob` | crates/rimstudio-app/src/jobs.rs:320-382 | in every interleaving a job's events are started, progress, then exactly one terminal; the progress is the limited reports, and the terminal event and the registry's end record are the first result the work ended with |
| `JobTheorems.OutcomeIsFirstEnd` | crates/rimstudio-app/src/jobs.rs:357-381 | over a run a job's outcome is that of the first end of its work, whatever came later |
| `JobTheorems.SendsGrow` | crates/rimstudio-app/src/jobs.rs:346-381 | events are only appended, and none after the end |
| `JobTheorems.StatesMoveForward` | crates/rimstudio-app/src/jobs.rs:578-600 | a registered job only moves from running to cancelling to ended, and an end state stays |
| `JobTheorems.OneUnfinishedPerId` | crates/rimstudio-app/src/jobs.rs:500-530 | two unfinished jobs never share an id |
| `JobTheorems.TokensExact` | crates/rimstudio-app/src/jobs.rs:321-331 | over a run cancelling means a cancelled token iff no late delivery marks another job's entry |
| `JobTheorems.StrangerNeedsRetention` | crates/rimstudio-app/src/jobs.rs:297-303 | such a late delivery needs a pruning clock at least the retention time past the end record |
| `JobTheorems.PromptRunsAgree` | crates/rimstudio-app/src/jobs.rs:297-381 | runs that deliver terminal events within the retention time never break the token rule |
| `JobTheorems.LateDelivery` | crates/rimstudio-app/src/jobs.rs:321-381 | a concrete run that breaks it |
| `JobMeaning.CancelMeaning` | crates/rimstudio-app/src/jobs.rs:578-590 | cancelling an unfinished, unexpired job makes its state cancelling and cancels its token; beyond expired entries nothing else changes |
| `JobMeaning.CancelTooLate` | crates/rimstudio-app/src/jobs.rs:578-590 | an ended or unknown id changes nothing beyond the removal of expired entries, and the answer tells the two apart |
| `JobMeaning.CancelAllMeaning` | crates/rimstudio-app/src/jobs.rs:592-600 | every unfinished entry becomes cancelling with its token cancelled; every other entry and job stays |
| `JobMeaning.PruneMeaning` | crates/rimstudio-app/src/jobs.rs:297-303 | exactly the entries that ended at least the retention time ago go, and no job changes |
| `JobMeaning.SpawnMeaning` | crates/rimstudio-app/src/jobs.rs:500-543 | an id that is held is refused; a free one gets a running entry and a new job |
| `JobMeaning.StartMeaning` | crates/rimstudio-app/src/jobs.rs:539-543 | the first event of a new job is its start |
| `JobMeaning.DeliverMeaning` | crates/rimstudio-app/src/jobs.rs:320-331 | a delivery appends one event; a lost one cancels the token and marks a running entry |
| `JobMeaning.ReportMeaning` | crates/rimstudio-app/src/jobs.rs:346-355 | a report with no send before it or the interval past the last one is recorded and is the next progress event |
| `JobMeaning.HeldReportMeaning` | crates/rimstudio-app/src/jobs.rs:346-355 | any other report is only remembered in place of an older one |
| `JobMeaning.EndMeaning` | crates/rimstudio-app/src/jobs.rs:357-381 | the end writes the end record and hands over the terminal event, once, when no record is held back |
| `JobMeaning.EndFlushMeaning` | crates/rimstudio-app/src/jobs.rs:357-381 | a held-back last report goes out before it |
| `JobMeaning.OverMeaning` | crates/rimstudio-app/src/jobs.rs:346-381 | after the end of the work reports and further ends change nothing |
| `JobMeaning.OutcomeMeaning` | crates/rimstudio-app/src/jobs.rs:357-381 | a panic is a failure, and only a result or an error that says so is a cancellation |
| `JobLocks.InvNext` | crates/rimstudio-app/src/jobs.rs:320-382 | every acquire, effect and release of every thread keeps the lock owners true to the threads' positions, published jobs quiet when unlocked, and one opener per job |
| `JobLocks.LocksRefine` | crates/rimstudio-app/src/jobs.rs:500-617 | every run of any number of threads with both kinds of lock is a legal run of the atomic protocol with the same state |
| `JobLocks.EventsUnderLocks` | crates/rimstudio-app/src/jobs.rs:320-382 | so under the locks a job nobody serves has handed over exactly what the protocol says |
| `JobLocks.ChangesAreLocked` | crates/rimstudio-app/src/jobs.rs:320-382 | the registry changes only under its lock, a job beyond its cancel flag only under its emitter lock or by its spawner while nobody else can reach it |
| `JobLocks.HoldersWait` | crates/rimstudio-app/src/jobs.rs:320-382 | a holder of the registry waits for nothing, a holder of an emitter at most for the registry, and who waits for an emitter holds nothing |
| `JobLocks.NoCycle` | crates/rimstudio-app/src/jobs.rs:320-382 | in every reachable state no thread waits for itself, directly or through others, and no chain of waiting has more than two links |
| `JobLocks.TwoLinks` | crates/rimstudio-app/src/jobs.rs:346-355 | a reachable state in which a chain of two links occurs |
| `JobLocks.ChainRuns` | crates/rimstudio-app/src/jobs.rs:500-617 | from every thread inside an operation the chain of waiting ends at a thread that can go on |
| `JobLocks.BoundedOperation` | crates/rimstudio-app/src/jobs.rs:320-382 | however the others interleave, an operation ends after at most 32 steps of its own thread |
| `JobLocks.EveryoneReturns` | crates/rimstudio-app/src/jobs.rs:500-617 | from every reachable state the operations under way take boundedly many steps in all, and when none can go on all have returned and all locks are free |
| `JobCalls.CallPerforms` | crates/rimstudio-app/src/jobs.rs:500-617 | a completed call has performed exactly what it consists of, a cancel call exactly one cancel |
| `JobCalls.TaskPerforms` | crates/rimstudio-app/src/jobs.rs:346-381 | a completed report or end has performed that step once and then only steps in the emitter code of its job, however others were interleaved |
| `Diagnostics.OrderLawful` | crates/rimstudio-core/src/diag.rs:259-268 | the sort key is a total order whose ties are equal diagnostics |
| `DiagMeaning.OrderMeaning` | crates/rimstudio-core/src/diag.rs:173-268 | one diagnostic sorts before another iff it is the smaller at the first of the seven fields that differs, smaller spelt out for every field |
| `DiagMeaning.SortedMeaning` | crates/rimstudio-core/src/diag.rs:376-390 | a list is sorted iff no later element sorts before an earlier one |
| `DiagSinks.DiagSink.Push` | crates/rimstudio-core/src/diag.rs:370-374 | counters exact for every sink; samples stay the first `cap` of the sorted reports where they were |
| `DiagSinks.DiagSink.KeepSample` | crates/rimstudio-core/src/diag.rs:376-390 | the early return and the insert-and-truncate both give the bounded sorted list |
| `DiagSinks.DiagSink.Merge` | crates/rimstudio-core/src/diag.rs:394-406 | counters add exactly; samples are those of all reports when the source dropped nothing the target needs |
| `DiagSinks.MergeAll` | crates/rimstudio-core/src/diag.rs:409-415 | merging many sinks equals one sink over all reports |
| `DiagSinks.TopMerged` | crates/rimstudio-core/src/diag.rs:394-406 | merging bounded samples gives the bound of all reports |
| `DiagSinks.MergeExact` | crates/rimstudio-core/src/diag.rs:392-406 | it does so for every target iff the source cap is no smaller or nothing was dropped |
| `DiagSinks.TopPermuted` | crates/rimstudio-core/src/diag.rs:376-390 | samples do not depend on the order of the reports |
| `DiagSinks.SameReportsSameSink` | crates/rimstudio-core/src/diag.rs:392-415 | two sinks of one cap over the same reports agree in every counter and sample |
| `DiagSinks.DiagSink.Summary` | crates/rimstudio-core/src/diag.rs:443-464 | for every sink, whatever it merged, the samples of all codes in one sorted list; the flag says whether a code has more reports than samples iff `FlagTells`, and always does where the samples are the first `cap` of the reports |
| `DiagSinks.CountedNotKept` | crates/rimstudio-core/src/diag.rs:394-464 | a sink whose summary denies the loss of the only report it counted |
| `DiagMeaning.TopMeaning` | crates/rimstudio-core/src/diag.rs:376-390 | of each code as many samples are kept as the cap allows, and no dropped report sorts before a kept one |
| `DiagMeaning.SinkMeaning` | crates/rimstudio-core/src/diag.rs:370-406 | a sink holds the exact counts and, for each code, samples that no dropped report sorts before |
| `DiagMeaning.SeverityMeaning` | crates/rimstudio-core/src/diag.rs:427-463 | the four counters are the numbers of errors, warnings, infos and hints |
| `Sorting.SortedUnique` | crates/rimstudio-core/src/diag.rs:259-268 | a multiset has one sorted listing |
| `Glob.SegmentMatch` | xtask/src/licences.rs:142-172 | the loop that remembers one star is sound and complete for `*` and `?` |
| `Glob.LastStarSuffices` | xtask/src/licences.rs:149-154 | at a new star the earlier ones never need to give anything back |
| `Glob.FitsIffAligned` | xtask/src/licences.rs:142-183 | reading a pattern from the front finds a cutting of the text iff there is one |
| `Glob.GlobMatch` | xtask/src/licences.rs:174-191 | a path matches iff its names can be dealt out to the pattern's names, any run to a `**` |
| `Glob.NameMeaning` | xtask/src/licences.rs:142-172 | a name fits iff it can be cut so that a star takes any stretch, a question mark one character and any other character itself |
| `Glob.PathMeaning` | xtask/src/licences.rs:174-191 | a path fits iff its names can be dealt out so that `**` takes any run and any other pattern one name that fits it |
| `TypeTable.DerivesFrom` | crates/rimstudio-defs/src/assembly.rs:1139-1168 | true iff the root is on the base chain, on any graph with cycles and missing bases; every remembered answer is right; it terminates |
| `TypeTable.CycleAnswersNo` | crates/rimstudio-defs/src/assembly.rs:1151-1157 | a walk that meets itself without the root never reaches it |
| `TypeTable.BuildTypeTable` | crates/rimstudio-defs/src/assembly.rs:1056-1094 | exactly the defined types that reach the root, once each, in first-definition order with the last definition's data |
| `TypeMeaning.MembersMeaning` | crates/rimstudio-defs/src/assembly.rs:1077-1094 | a type is listed iff it is defined and a chain of bases, each by the last definition of its name, leads to the root |
| `TypeMeaning.RowMeaning` | crates/rimstudio-defs/src/assembly.rs:1083-1093 | each type carries the base, abstractness and assembly of its last definition |
| `TypeMeaning.TableInOrder` | crates/rimstudio-defs/src/assembly.rs:1060-1079 | types stand in the order of their first definitions |
| `MetadataTables.Parse` | crates/rimstudio-defs/src/assembly.rs:705-755 | success iff the header is whole, no unknown table is present and all rows fit; then tables follow each other without gap or overlap |
| `MetadataTables.ParseTables` | crates/rimstudio-defs/src/assembly.rs:636-755 | with the standard's own columns exactly the cells of the known tables are there, a first one in every counted row, and no two share a byte |
| `MetadataTables.CellDefined` | crates/rimstudio-defs/src/assembly.rs:784-802 | a cell is there iff the table has that row and column |
| `MetadataTables.CellInside` | crates/rimstudio-defs/src/assembly.rs:784-802 | a cell lies in its own row of its own table, inside the stream |
| `MetadataTables.CellsApart` | crates/rimstudio-defs/src/assembly.rs:784-802 | two cells never share a byte |
| `MetadataTables.NarrowHoldsAll` | crates/rimstudio-defs/src/assembly.rs:761-781 | a coded column is narrow iff two bytes hold every row of every target table |
| `MetadataTables.DecodeInverts` | crates/rimstudio-defs/src/assembly.rs:553-558 | decoding inverts encoding and decodes nothing else |
| `MetadataMeaning.CodedMeaning` | crates/rimstudio-defs/src/assembly.rs:526-559 | for each of the thirteen kinds the tag width, the table of every tag and the decoded row, as numbers |
| `MetadataMeaning.CodedColumn` | crates/rimstudio-defs/src/assembly.rs:761-781 | a coded column has two bytes iff every table it can name has fewer rows than its bits can count |
| `MetadataMeaning.ColumnMeaning` | crates/rimstudio-defs/src/assembly.rs:761-770 | the length of every other column |
| `MetadataMeaning.RowMeaning` | crates/rimstudio-defs/src/assembly.rs:734-739 | a row is as long as its columns together |
| `MetadataMeaning.TypeRows` | crates/rimstudio-defs/src/assembly.rs:575-584 | the row lengths of the module and the two type tables, in bytes, heap indexes, table indexes and coded indexes |
| `MetadataMeaning.MemberRows` | crates/rimstudio-defs/src/assembly.rs:585-590 | the row lengths of fields, methods and parameters, in bytes, heap indexes, table indexes and coded indexes |
| `MetadataMeaning.ReferenceRows` | crates/rimstudio-defs/src/assembly.rs:591-600 | the row lengths of member references, constants and attributes, in bytes, heap indexes, table indexes and coded indexes |
| `MetadataMeaning.LayoutRows` | crates/rimstudio-defs/src/assembly.rs:601-605 | the row lengths of layouts, signatures and event maps, in bytes, heap indexes, table indexes and coded indexes |
| `MetadataMeaning.EventRows` | crates/rimstudio-defs/src/assembly.rs:606-615 | the row lengths of events, properties and method bodies, in bytes, heap indexes, table indexes and coded indexes |
| `MetadataMeaning.MappedRows` | crates/rimstudio-defs/src/assembly.rs:616-621 | the row lengths of module references, type specifications and mappings, in bytes, heap indexes, table indexes and coded indexes |
| `MetadataMeaning.AssemblyRows` | crates/rimstudio-defs/src/assembly.rs:622-624 | the row lengths of the assembly tables, in bytes, heap indexes, table indexes and coded indexes |
| `MetadataMeaning.AssemblyRefRows` | crates/rimstudio-defs/src/assembly.rs:625-627 | the row lengths of the assembly reference tables, in bytes, heap indexes, table indexes and coded indexes |
| `MetadataMeaning.FileRows` | crates/rimstudio-defs/src/assembly.rs:628-630 | the row lengths of files, exported types and resources, in bytes, heap indexes, table indexes and coded indexes |
| `MetadataMeaning.GenericRows` | crates/rimstudio-defs/src/assembly.rs:631-634 | the row lengths of nesting and generic parameters, in bytes, heap indexes, table indexes and coded indexes |
| `MetadataMeaning.ReadColumns` | crates/rimstudio-defs/src/assembly.rs:560-634 | which columns hold names, the scope of a reference, the base of a type and the two sides of nesting |
| `MetadataMeaning.HeapMeaning` | crates/rimstudio-defs/src/assembly.rs:724-732 | bits 0, 1 and 2 of the heap sizes widen string, guid and blob indexes |
| `MetadataMeaning.HeaderMeaning` | crates/rimstudio-defs/src/assembly.rs:713-723 | rows start behind 24 bytes, four for each table that is there and four more when bit 6 is set |
| `MetadataMeaning.PresentMeaning` | crates/rimstudio-defs/src/assembly.rs:713-720 | how many tables of the first n are there |
| `MetadataMeaning.CountMeaning` | crates/rimstudio-defs/src/assembly.rs:713-720 | the row count of a table that is there is the number in its four bytes, and of any other table zero |
| `MetadataMeaning.PlaceMeaning` | crates/rimstudio-defs/src/assembly.rs:733-753 | each table starts where the rows of the one before it end |
| `MetadataMeaning.CellMeaning` | crates/rimstudio-defs/src/assembly.rs:783-802 | a cell stands in its row behind the columns before it, and its two or four bytes are read with the low one first |
| `LoadPlan.NearestVersionDir` | crates/rimstudio-core/src/load_plan.rs:478-492 | the greatest usable version not above the game's; else the least usable one, flagged newer; else none |
| `LoadPlan.SearchStep` | crates/rimstudio-core/src/load_plan.rs:482-486 | one pass of the loop keeps the search invariant, major version zero included |
| `LoadPlan.NearestUnique` | crates/rimstudio-core/src/load_plan.rs:478-492 | the answer does not depend on the listing order |
| `LoadPlan.NearestMeaning` | crates/rimstudio-core/src/load_plan.rs:475-492 | the answer in numbers: the greatest usable version at most the game's, or else the least usable one, marked newer |
| `LoadPlan.ParsedMeaning` | crates/rimstudio-core/src/load_plan.rs:479-480 | the versions searched are exactly those of the folder names that are versions |
| `LoadPlan.CollectFiles` | crates/rimstudio-core/src/load_plan.rs:585-619 | each accepted path once, from the first folder that offers it, sorted by folder and path; assemblies in reverse folder order with none lost |
| `LoadPlan.OrderedUnique` | crates/rimstudio-core/src/load_plan.rs:585-619 | members and order fix the list, so listing order does not matter |
| `LoadPlan.PathOrder` | crates/rimstudio-core/src/load_plan.rs:599-605 | paths are sorted by the first character that differs, a prefix first |
| `Paths.NormalizePath` | crates/rimstudio-core/src/settings.rs:943-996 | the checks in order and the stack-reduced walk |
| `Paths.WalkIffNeverAbove` | crates/rimstudio-core/src/settings.rs:973-983 | the walk succeeds iff no prefix has more `..` than names, and leaves the difference |
| `Paths.NormalTwice` | crates/rimstudio-core/src/settings.rs:943-996 | a normal form is its own normal form |
| `PathMeaning.NormalMeaning` | crates/rimstudio-core/src/settings.rs:943-996 | the whole normal form with its faults, told by front, segments and their survivors |
| `PathMeaning.WalkMeaning` | crates/rimstudio-core/src/settings.rs:972-984 | the walk fails iff some prefix has more `..` than names; otherwise exactly the surviving names are left in order |
| `PathMeaning.FrontMeaning` | crates/rimstudio-core/src/settings.rs:951-971 | what counts as a drive, a UNC prefix or a root, and what is left behind it |
| `PathMeaning.RenderMeaning` | crates/rimstudio-core/src/settings.rs:985-995 | a slash before every name, a lone slash without any |
| `Paths.RelationMeaning` | crates/rimstudio-core/src/settings.rs:1025-1034 | the relation is component-prefix comparison and swaps with its arguments |
| `Paths.RelationsCompose` | crates/rimstudio-core/src/settings.rs:1025-1034 | how two relations determine the third: same is neutral, nesting is transitive both ways, disjointness goes down, common content means nesting |
| `PathMeaning.ComponentsMeaning` | crates/rimstudio-core/src/settings.rs:998-1009 | components are the non-empty pieces between slashes, lowered below a drive letter or two slashes only |
| `PathTheorems.PlacesSurvive` | crates/rimstudio-core/src/settings.rs:972-983 | the walk leaves exactly the names after which there are always more names than `..` |
| `PathTheorems.BackslashesGone` | crates/rimstudio-core/src/settings.rs:936-955 | a Windows style normal form has no backslash iff the text starts with a drive or two backslashes, or no surviving segment holds one |
| `PathTheorems.ConvertedAsDocumented` | crates/rimstudio-core/src/settings.rs:951-955 | after a drive letter or two backslashes the result, faults included, is that of the slashed text |
| `PathTheorems.DoubleSlashAsDocumented` | crates/rimstudio-core/src/settings.rs:943-996 | after `//`, for every text, it is so iff a control character refuses both, or both climb above the root, or neither does and the same segments survive |
| `PathTheorems.NoClimbAsDocumented` | crates/rimstudio-core/src/settings.rs:943-996 | when no segment is `..` that is so iff the text holds no backslash, or a control character |
| `PathTheorems.LostByClimbing` | crates/rimstudio-core/src/settings.rs:943-996 | two names joined by a backslash and one `..` end at the root instead of the first name |
| `PathTheorems.HarmlessBackslash` | crates/rimstudio-core/src/settings.rs:943-996 | a backslash before a name that is climbed out of again changes nothing |
| `PathTheorems.MixedSlashes` | crates/rimstudio-core/src/settings.rs:949-966 | for every server and share name the backslash between them stays |
| `PathTheorems.RelationExact` | crates/rimstudio-core/src/settings.rs:998-1034 | the relation of two normal forms is the real one iff the roots agree or the folders are not mixed up |
| `PathTheorems.SameIsNotEqual` | crates/rimstudio-core/src/settings.rs:998-1034 | a UNC and a rooted folder count as the same |
| `PathTheorems.DriveMixedUp` | crates/rimstudio-core/src/settings.rs:998-1034 | a folder of a drive and a rooted one count as the same |
| `PathTheorems.NestedMixedUp` | crates/rimstudio-core/src/settings.rs:998-1034 | a UNC folder counts as containing a rooted one |
| `Paths.ValidateCustomFolders` | crates/rimstudio-core/src/settings.rs:1038-1087 | which problems are reported, per entry and per pair |
| `Paths.SilentIffValid` | crates/rimstudio-core/src/settings.rs:1036-1087 | no problem iff entries are valid, ids distinct and folders pairwise disjoint by their components |
| `PathMeaning.ProblemsMeaning` | crates/rimstudio-core/src/settings.rs:1038-1087 | exactly what is wrong is reported, each problem once, entries before pairs and both in order |
| `PathTheorems.OverlapMeaning` | crates/rimstudio-core/src/settings.rs:1068-1082 | an overlap is reported iff the folders really overlap, then with the real relation, or are mixed up across roots |
| `PathTheorems.SilentExactly` | crates/rimstudio-core/src/settings.rs:1036-1087 | no problem iff entries are valid, ids distinct, folders really disjoint, and no pair is mixed up across roots |
| `Versions.CanonicalParses` | crates/rimstudio-core/src/version.rs:98-140 | parsing the canonical text gives the version back for all 32-bit parts, a revision without a build included |
| `Versions.Parse` | crates/rimstudio-core/src/version.rs:98-128 | the tolerant parser, faults included; what it accepts has numbers of the machine width whose canonical text is accepted with the same numbers |
| `Versions.LooseForms` | crates/rimstudio-core/src/version.rs:64-128 | a leading `v` or `V`, `rev 598`, `(rev598)` and the four number form read as the canonical text does, for all numbers |
| `Versions.Framed` | crates/rimstudio-core/src/version.rs:98-104 | byte order marks before a text and white space around it change nothing |
| `Versions.Canonical` | crates/rimstudio-core/src/version.rs:131-140 | the text it prints parses back to the same four numbers under every white space, for all numbers of the machine width |
| `Versions.AcceptedReparses` | crates/rimstudio-core/src/version.rs:98-140 | whatever text is accepted, its numbers fit the machine width and its canonical text is accepted with the same four numbers |
| `VersionMeaning.ParsedMeaning` | crates/rimstudio-core/src/version.rs:98-128 | what the parser makes of any text: marks and white space off, a leading `v` off, the dotted part judged first, then the revision |
| `VersionMeaning.DottedMeaning` | crates/rimstudio-core/src/version.rs:50-62 | the dotted part is at least two and at most the given number of numbers between dots; a bad number, too few and too many are faults in that order |
| `VersionMeaning.NumberMeaning` | crates/rimstudio-core/src/version.rs:42-48 | a number is digits with white space around them whose positional value is below the limit of 32 bits |
| `VersionMeaning.RevMeaning` | crates/rimstudio-core/src/version.rs:64-73 | a text is the revision n iff, without brackets and case, it is `rev`, `r` or nothing, separators, and the number n |
| `VersionMeaning.CanonicalMeaning` | crates/rimstudio-core/src/version.rs:131-140 | the canonical text is the two numbers, the build behind a dot and the revision behind ` rev`, each only when there is one |
| `VersionMeaning.DecimalMeaning` | crates/rimstudio-core/src/version.rs:131-140 | a number is printed as digits without a needless zero whose positional value it is |
| `Texts.TrimMeaning` | crates/rimstudio-core/src/version.rs:98-104 | trimming takes all white space off both ends and nothing else |
| `Jsonc.StripComments` | xtask/src/jsonc.rs:9-62 | the output is what the tokens of the source keep |
| `Jsonc.ReadAgain` | xtask/src/jsonc.rs:9-62 | reading the output finds the source's tokens without the comments: nothing joins into a new comment or literal |
| `Jsonc.StripTwice` | xtask/src/jsonc.rs:9-62 | removing comments is idempotent and keeps every literal in its place |
| `Jsonc.LinesKept` | xtask/src/jsonc.rs:7-62 | every kept character stays on its line and no line break is lost or added |
| `JsoncMeaning.LexMeaning` | xtask/src/jsonc.rs:9-62 | the tokens are the one cutting of the text into literals, which end at the first quote behind an even number of backslashes, comments up to their first end, and single characters |
| `JsoncMeaning.KeptMeaning` | xtask/src/jsonc.rs:9-62 | a literal and a plain character are kept whole, of a block comment its line breaks, of a line comment nothing |
| `Jsonc.StripTrailingCommas` | xtask/src/jsonc.rs:64-95 | exactly the commas before a closing bracket go |
| `JsoncMeaning.CommasMeaning` | xtask/src/jsonc.rs:64-95 | a comma outside literals goes iff the first character behind it that is no white space closes a bracket; everything else stays |
| `Jsonc.CommasTwice` | xtask/src/jsonc.rs:64-95 | the output has a trailing comma, and a second pass changes it, iff the source has two commas with only white space between them before a closing bracket |
| `Jsonc.Clean` | xtask/src/jsonc.rs:97-101 | both passes together keep the exact sequence of string literals |

## Left out

- MetadataTables.Parse: `usize` overflow is not separate; a product that large exceeds the data and fails in the same way.
- DiagSinks.DiagSink.Push: counters are unbounded, so 64-bit overflow is not modelled.
- PatchEngine.InsertTarget: the link loop of an insertion is one edit here that fails before it links anything; `InsertedOneByOne` shows the loop builds the same list.
- PatchEngine.SetNameTarget: creating the element, moving the children and swapping the two is one edit here.
- Arena depth limit, name grammar and character rules: the engine receives them as functions.
- XPath parsing and evaluation: a general expression is any function of the document; the steps after the definitions are any function of the document and the definitions found.
- Custom patch handlers: only handlers that branch on a setting and tail-call nested operations, as `Setting`.
- Provenance (`touched`, `patched_by`), origins, diagnostics and timings of patch operations.
- Merging def files, reading and ordering of inputs, `find_defs`, patch grouping inside `load`.
- `inherit`, `patch_ops` and the short-name collision list of the type table.
- Compressed integers, final type names, stream and section lookup in `assembly.rs`.
- `resolve_load_folders_os`, `push_block`, `add_block` and the rest of the load plan: block bookkeeping without a law of its own.
- White space, control characters and lower case: parameters with the few facts the proofs need.
- Job ids the grammar refuses, envelopes, runtime start-up; of its shut-down only the failure it gives a new job.
- Condition-variable waits, and receivers that call back into the runner or never return: a delivery is one step.
