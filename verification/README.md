# Verification of Code Atlas

Dafny models of the parts of Code Atlas whose correctness is hardest to see, with proofs of what they are for.
`dafny verify dfyconfig.toml` checks everything.

| modules | what they model |
|---|---|
| `Utf8`, `Plan`, `Disk`, `Apply`, `Transaction`, `Edit`, `Interference` | multi-file edits: a plan is checked, prepared in temporary files, committed step by step with an undo journal, and rolled back when a step fails. Every operation of the file system may be refused at any time; other writers may act between steps |
| `Flight` | callers that share one computation: tickets, a condition variable, and pilots that may panic |
| `Barrier` | several engines on one persisted index: generations, the dirty mark, the index lock, and plans made before the lock |
| `Splitting`, `Ids`, `Escape`, `Kinds`, `Keys`, `SymbolKeys`, `EntityKeys` | canonical keys of symbols and entities: printing, parsing, and relative paths |
| `Slices`, `Trimming`, `CliDiff`, `Lines`, `EditDiff`, `Hunks` | the two diffs: a table of common lengths, and line changes and hunks grouped from byte edits |
| `WhiteSpace`, `JsonStrings`, `JsonScan`, `JsonObjects`, `JsonEdit`, `JsonRoundTrip`, `JsonLaws` | byte-preserving edits of JSON files |
| `Trivia`, `Region` | the comments and attributes that lead up to a declaration |
| `Objects`, `ObjectReader`, `ArgStrings`, `StringEval` | object literals and string expressions of detected calls |
| `Spans`, `Lexer` | token spans and source positions |
| `Sorting`, `Lineage`, `Renames` | which rename edges are kept, and which pairs become renames |
| `CivilDate` | the date of a benchmark report |

Where the source changes things step by step, so do the methods here, and each is proved against a specification
whose meaning is then the subject of lemmas. Six results are about where the code does not do what one might
expect, and say exactly when it does:

- `Barrier.RecoveryKeptExactlyWhen` and `Barrier.RecoveryCanBeForgotten`: an engine that recovers from an interrupted
  run, fails again, and then refreshes after a write can run on the interrupted store without re-resolving everything.
  `Barrier.SyncForgetsExactlyWhen` and `Barrier.SyncCanForget` say the same of a refresh that finds nothing to run.
- `Keys.SymbolPrintsApart` and `SymbolKeys.KeysPrintApart`: keys that differ may print alike, when a custom kind is named
  like a built-in one.
- `Interference.NothingForeignIsLost` and `Interference.SameBytesAreRolledBack`: other writers' work is told apart from
  the transaction's own by content alone.
- `Region.RegionPanicsExactlyWhen` and `Region.RegionCanPanic`: looking for the leading region panics on an attribute
  or decorator with a character that is not ASCII in its brackets, outside strings and comments.
- `Ids.ReparsesExactlyWhen` and `Ids.DriveCanAppear`: a relative path can be normalised into one that is then rejected.
- `JsonLaws.InsertThenRemove`: removing what was inserted gives the text back, except that white space inside an empty
  object is gone.

What is assumed is a parameter or a data type: content hashes are injective (`Plan.ContentHash`), the scope's path
resolution is a function (`Edit.Scope`), the outcome of every file system call is a schedule that may hold any pattern
of refusals (`Disk.Disk`), and serde_json, given one of the two line ends and an indentation of spaces and tabs, writes a
value as some document that it reads back as that value (`JsonRoundTrip.Faithful`), an object of one member as its key
and then the value (`JsonRoundTrip.WritesWraps`).

## Model

| member | source | states |
|---|---|---|
| `Edit.ApplyPlan` | crates/atlas-edit/src/apply.rs:135-140 | All or nothing, for every plan and every pattern of refused operations: success leaves exactly the planned content at every path and reports it; any error but `PartiallyApplied` leaves every file as it was; `PartiallyApplied` names every file that differs and needs two refusals; without refusals it succeeds on exactly the applicable plans |
| `Edit.CanonicalPlan` | crates/atlas-edit/src/apply.rs:458-501 | A plan is accepted exactly when every path is in scope and the plan over canonical paths is still valid, since two spellings of one file are one file |
| `Edit.Prepare` | crates/atlas-edit/src/apply.rs:188-262 | Preparation touches no tracked file; its steps carry out the whole plan on the present files, and without refusals it succeeds on exactly the plans whose hashes and existence checks hold |
| `Edit.PrepareContent` | crates/atlas-edit/src/apply.rs:507-530 | A content step, staged with the spliced bytes, or none exactly when the edits change nothing |
| `Edit.CheckFiles` | crates/atlas-edit/src/apply.rs:192-200 | The original bytes of each edited file, and the files whose content is not the expected one |
| `Edit.CheckOp` | crates/atlas-edit/src/apply.rs:201-218 | One operation: which obstacle stops it and which file is stale, for each kind of operation; without refusals, an error exactly when there is an obstacle, and that one |
| `Edit.OpStepped` | crates/atlas-edit/src/apply.rs:233-255 | Each operation's step runs after the earlier steps and brings every path to what edits and operations so far ask for, renames after edits included |
| `Edit.EditStepped` | crates/atlas-edit/src/apply.rs:224-232 | A content step adds exactly its file's edits to what the steps before it carry out |
| `Transaction.Commit` | crates/atlas-edit/src/apply.rs:264-283 | The steps all happen and are reported, or the files are as before, or the error names every file that differs; one refused operation never suffices for the last |
| `Transaction.Rollback` | crates/atlas-edit/src/apply.rs:435-456 | Walking the journal backwards restores the first state, except at the paths named by the entries that failed; it succeeds when nothing is refused |
| `Transaction.UndoStep` | crates/atlas-edit/src/apply.rs:387-413 | One undo entry gives back the state before its step everywhere outside the named paths, whatever happened at the named ones |
| `Transaction.StepCommits` | crates/atlas-edit/src/apply.rs:299-377 | In a runnable plan each step keeps the journal a true history of the states |
| `Transaction.HalfMoveJournal` | crates/atlas-edit/src/apply.rs:340-377 | A move that left its destination behind is journalled too, so the walk back takes the leftover away |
| `Apply.RunStep` | crates/atlas-edit/src/apply.rs:299-377 | Each kind of step either makes its change and pushes its undo entry, or changes nothing, or half-moves and journals that; without refusals a step that may run succeeds |
| `Apply.EnsureStillWritten` | crates/atlas-edit/src/apply.rs:415-433 | Agreement exactly when the file still holds what the transaction wrote |
| `Apply.RunUndo` | crates/atlas-edit/src/apply.rs:387-413 | An undo entry restores, removes or moves back only a file that still holds what was written, and otherwise changes nothing |
| `Disk.Disk.MoveNoClobber` | crates/atlas-edit/src/apply.rs:598-624 | A move never replaces a file: it moves, or changes nothing, or (by link and unlink) leaves a second copy and says so |
| `Disk.Disk.Replace` | crates/atlas-edit/src/apply.rs:299-339 | A rename over a file replaces it as a whole or changes nothing |
| `Interference.EventKeepsFile` | crates/atlas-edit/src/apply.rs:299-433 | A step or undo entry leaves a file in place or moves it whole exactly when the file does not hold the content the event checks for, or the event fails, or what it writes is that very file |
| `Interference.EventLosesContent` | crates/atlas-edit/src/apply.rs:299-433 | One event loses a content exactly when the only file that holds it is the one it replaces, and by other content |
| `Interference.NothingForeignIsLost` | crates/atlas-edit/src/apply.rs:299-456 | Over every interleaving with other writers, a content stays in the file system exactly when nobody else removes its last copy and no event that succeeds takes its only holder for what it checks |
| `Interference.OthersWorkIsSafe` | crates/atlas-edit/src/apply.rs:264-456 | One commit and rollback among other writers, in the order of its steps and its journal: from where no step to come and no journal entry mentions a content, only other writers can remove it |
| `Interference.SameBytesAreRolledBack` | crates/atlas-edit/src/apply.rs:415-433 | The limit of comparing content: another writer's file with the very bytes the edit wrote, but other permissions, is replaced by the rollback |
| `Plan.Validate` | crates/atlas-edit/src/plan.rs:180-215 | Accepts exactly the valid plans: shaped edits, no file twice, and no path claimed twice apart from editing a renamed file |
| `Plan.ValidateShape` | crates/atlas-edit/src/plan.rs:71-98 | No violation exactly when there are edits, none is inverted, and they are in order and apart |
| `Plan.CheckAgainst` | crates/atlas-edit/src/plan.rs:100-120 | No violation exactly when the edits lie in the content, after its byte order mark, at character boundaries |
| `Plan.ApplyTo` | crates/atlas-edit/src/plan.rs:122-126 | The spliced content exactly when the edits fit; of valid text it is valid text |
| `Plan.Splice` | crates/atlas-edit/src/plan.rs:128-139 | The single copying pass makes the spliced content |
| `Plan.SplicedIsOneByOne` | crates/atlas-edit/src/plan.rs:128-139 | The single pass equals carrying out the replacements one by one, last first |
| `Plan.SplicedIsUtf8` | crates/atlas-edit/src/plan.rs:128-139 | Every slice is at a character boundary and the result is valid UTF-8 |
| `Utf8.CutIsUtf8` | crates/atlas-edit/src/plan.rs:128-139 | Valid text cut at a character boundary leaves two valid texts |
| `Utf8.DecodeEncode` | crates/atlas-core/src/keys.rs:38-53 | Decoding the encoding of any text gives the text (RFC 3629, section 3) |
| `Utf8.EncodeDecode` | crates/atlas-core/src/keys.rs:38-53 | Encoding what was decoded gives the bytes back |
| `Flight.SingleFlight.Arrive` | crates/atlas-engine/src/flight.rs:47-50 | A caller is given the ticket after the last one launched; nothing else changes |
| `Flight.SingleFlight.Check` | crates/atlas-engine/src/flight.rs:51-62 | One turn of the wait loop: share the landed value, sleep behind the flight in the air, or launch the next |
| `Flight.SingleFlight.Land` | crates/atlas-engine/src/flight.rs:76-82 | Landing publishes the value under the launched ticket |
| `Flight.SingleFlight.Drop` | crates/atlas-engine/src/flight.rs:84-92 | A panicking pilot takes its ticket back and lands nothing |
| `Flight.StepKeeps` | crates/atlas-engine/src/flight.rs:47-92 | Every step of every caller keeps the protocol's invariant |
| `Flight.RunKeeps` | crates/atlas-engine/src/flight.rs:47-92 | So it holds in every state of every run |
| `Flight.OneFlightInTheAir` | crates/atlas-engine/src/flight.rs:18-26 | At most one flight is in the air; landed <= launched <= landed + 1 |
| `Flight.ReturnsAFlightLaunchedAfterArrival` | crates/atlas-engine/src/flight.rs:47-74 | Freshness: the value a call returns comes from a flight launched after the call began, though a panic hands a ticket out again |
| `Flight.SleepersAreWatched` | crates/atlas-engine/src/flight.rs:47-92 | While a caller sleeps, a flight is in the air or a notification is pending |
| `Flight.TwoLandingsSuffice` | crates/atlas-engine/src/flight.rs:47-62 | After two landings following its arrival a caller can leave, whatever panics happened |
| `Flight.OneLandingMayNotSuffice` | crates/atlas-engine/src/flight.rs:47-62 | One landing is not enough for a caller that arrived mid-flight: a run that shows it |
| `Barrier.StepKeeps` | crates/atlas-engine/src/engine.rs:302-444 | Every step of every engine keeps the invariant of store, lock and memory |
| `Barrier.BehaviorKeeps` | crates/atlas-engine/src/engine.rs:302-444 | So it holds throughout every behaviour, deaths and failures included |
| `Barrier.OneRunAtATime` | crates/atlas-engine/src/lock.rs:47-74 | At most one engine holds the index lock |
| `Barrier.RunsInStep` | crates/atlas-engine/src/engine.rs:302-356 | A run starts only with the lock, on the persisted generation, with scans planned against that very state |
| `Barrier.BaseStaysPersisted` | crates/atlas-engine/src/engine.rs:367-444 | While a run is under way, its base generation stays the persisted one and the store is marked dirty |
| `Barrier.CommitsFormOneChain` | crates/atlas-engine/src/engine.rs:546-575 | No lost update: each commit is based on the commit before it, and generations grow |
| `Barrier.RecoveryKeptExactlyWhen` | crates/atlas-engine/src/engine.rs:563-575 | Over every behaviour, a run starts on an interrupted store without re-resolving everything exactly when the `sync_holding_lock` before it met the store dirty, the request already made, a reload due for another reason, and loaded a state that makes no request |
| `Barrier.RecoveryCanBeForgotten` | crates/atlas-engine/src/engine.rs:302-356 | The condition can fail: after a run that commits, one run fails, the next recovers and fails, and a write refreshes the interrupted store without the full re-resolve |
| `Barrier.SyncForgetsExactlyWhen` | crates/atlas-engine/src/engine.rs:546-561 | The same for `sync`: over every behaviour, an engine comes out of it on a store seen interrupted, free to settle without a run and without the request, exactly when it had made the request, had to reload for another reason, and loaded a state that makes none |
| `Barrier.SyncCanForget` | crates/atlas-engine/src/engine.rs:381-400 | A behaviour in which an engine refreshes, settles a clean plan and leaves the interrupted store without any run |
| `Escape.EscapeText` | crates/atlas-core/src/keys.rs:19-36 | The loop and its shortcut write the escaped field |
| `Escape.UnescapeText` | crates/atlas-core/src/keys.rs:38-53 | The one pass over the bytes reads exactly what the specification reads |
| `Escape.UnescapeEscaped` | crates/atlas-core/src/keys.rs:19-53 | Reading an escaped field gives the field, for every text and every set of reserved characters |
| `Escape.NoSeparator` | crates/atlas-core/src/keys.rs:19-36 | No reserved separator survives escaping |
| `Kinds.KindRoundTrip` | crates/atlas-core/src/kinds.rs:40-58 | A kind reads back from its print exactly when it is canonical |
| `Keys.SymbolRoundTrip` | crates/atlas-core/src/keys.rs:145-198 | Every constructible symbol key reads back from its print exactly when its kind is spelt canonically |
| `Keys.ParsesExactlyThePrints` | crates/atlas-core/src/keys.rs:169-198 | The parser accepts exactly the prints of constructible keys with canonical kinds |
| `Keys.SymbolPrintsApart` | crates/atlas-core/src/keys.rs:145-167 | Two constructible keys print alike exactly when they agree in everything but how their kinds, of one name, are made |
| `Keys.CustomKindCollides` | crates/atlas-core/src/keys.rs:145-167 | So printing is not injective on all keys: a custom kind named like a built-in one prints alike |
| `SymbolKeys.SymbolKeysOf` | crates/atlas-core/src/facts.rs:686-708 | The counting map gives each symbol the number of equal symbols before it as its disambiguator, or the first construction error |
| `SymbolKeys.KeysAreDistinct` | crates/atlas-core/src/facts.rs:686-708 | The keys of one file are pairwise distinct |
| `SymbolKeys.KeysPrintApart` | crates/atlas-core/src/facts.rs:686-708 | Their texts are pairwise distinct exactly when no two symbols of the file share their paths and the name of their kind, one built in and one custom |
| `SymbolKeys.TwinsInOneFile` | crates/atlas-core/src/facts.rs:686-708 | A file of two such symbols, whose keys differ and print alike |
| `EntityKeys.EntityRoundTrip` | crates/atlas-core/src/keys.rs:565-671 | Every buildable entity key of every variant reads back exactly when it is canonical (a file path must not look like a drive) |
| `EntityKeys.EntityPrintsApart` | crates/atlas-core/src/keys.rs:565-593 | Two keys that can be built print alike exactly when they are equal but for how their kinds, of one name, are made; no two variants print alike |
| `EntityKeys.PrefixRoundTrip` | crates/atlas-core/src/keys.rs:657-671 | Each prefix announces its own variant and none is a language name |
| `Ids.NewRelPath` | crates/atlas-core/src/ids.rs:95-120 | The stack over the segments resolves the path as specified, with the same rejections |
| `Ids.NewPathsAreNormal` | crates/atlas-core/src/ids.rs:95-120 | Whatever is accepted is normal: no empty, `.` or `..` segment, backslash or NUL |
| `Ids.ReparsesExactlyWhen` | crates/atlas-core/src/ids.rs:95-120 | A normal path reads back as itself exactly when it does not look like a drive |
| `Ids.DriveCanAppear` | crates/atlas-core/src/ids.rs:95-120 | It can come to look like one: `./C:/x` becomes `C:/x`, which is rejected |
| `CliDiff.FillTable` | crates/atlas-cli/src/diff.rs:33-43 | The flat table holds the recurrence's value in every cell, within 32 bits, and the cell of row i and column j lies at `i * width + j` |
| `CliDiff.PushChanges` | crates/atlas-cli/src/diff.rs:33-63 | The walk's kept and removed lines spell the old text, its kept and added lines the new one, and as many lines are kept as the recurrence says |
| `CliDiff.LcsIsUpperBound` | crates/atlas-cli/src/diff.rs:33-43 | No common subsequence is longer than the recurrence's value |
| `CliDiff.LcsIsReached` | crates/atlas-cli/src/diff.rs:33-43 | And one is as long |
| `CliDiff.TrimmingKeepsTheMaximum` | crates/atlas-cli/src/diff.rs:9-13 | Trimming equal ends keeps the longest common subsequence of the whole inputs |
| `CliDiff.WriteBody` | crates/atlas-cli/src/diff.rs:22-25 | The table is used exactly up to its size limit, and then trimmed ends and changes spell both texts and keep a longest common subsequence of the whole inputs |
| `CliDiff.WriteDiff` | crates/atlas-cli/src/diff.rs:6-31 | The whole diff: context of two lines on each side, and the body |
| `Trimming.TrimmedParts` | crates/atlas-cli/src/diff.rs:9-13 | The trimmed prefix and suffix are equal in both texts and do not overlap |
| `Lines.SplitSpells` | crates/atlas-edit/src/diff.rs:86 | The newline-terminated pieces spell the text and are its lines |
| `Lines.LinesAreUnique` | crates/atlas-edit/src/diff.rs:86 | There is only one way to cut a text into lines |
| `Lines.LineOfCounts` | crates/atlas-edit/src/text.rs:57-66 | The line found by binary search is the number of newlines before the offset |
| `Lines.PiecesBetween` | crates/atlas-edit/src/text.rs:57-74 | Pieces i to j are the text between the starts of lines i and j, also past a final newline |
| `EditDiff.Check` | crates/atlas-edit/src/diff.rs:112-135 | No violation exactly when the edits are in bounds, in order, and at character boundaries |
| `EditDiff.GroupEdits` | crates/atlas-edit/src/diff.rs:138-154 | The groups hold the edits in order, each within its lines, and share no line |
| `EditDiff.Trim` | crates/atlas-edit/src/diff.rs:167-179 | The change between trimmed ends turns the old lines into the new ones, and differs at both of its own ends |
| `EditDiff.Changes` | crates/atlas-edit/src/diff.rs:137-182 | Replacing each change's removed lines by its added pieces gives exactly the splice, for all edits that fit |
| `EditDiff.PiecesAreLinesWhen` | crates/atlas-edit/src/diff.rs:137-182 | The pieces are the new text's lines exactly when each but the last ends in a newline |
| `Hunks.HunkBuilder.Push` | crates/atlas-edit/src/diff.rs:221-237 | A pushed line extends the sides its kind belongs to, stripped of its terminator, and the counts follow |
| `Hunks.HunkBuilder.CopyContext` | crates/atlas-edit/src/diff.rs:203-208 | Context copies the lines up to a place to both sides |
| `Hunks.HunkBuilder.TakeChange` | crates/atlas-edit/src/diff.rs:210-219 | A change puts its removed lines on the old side, with the occurrences on each, and its added lines on the new side |
| `Hunks.HunkBuilder.Finish` | crates/atlas-edit/src/diff.rs:239-249 | Trailing context, and a header with the counts of both sides |
| `Hunks.HunksOf` | crates/atlas-edit/src/diff.rs:88-109 | The hunks are in order with disjoint old ranges, their old sides are what the file holds at their places, new starts account for the lines added before, and applying them gives the changed pieces as shown |
| `Hunks.DiffFile` | crates/atlas-edit/src/diff.rs:83-110 | The whole file diff: refused exactly for edits that do not fit, and otherwise its hunks, applied, show pieces that spell the splice |
| `JsonStrings.UnescapeEscape` | crates/atlas-cli/src/json_edit.rs:115-131 | Reading a written key gives the key, for every text (section 7 of RFC 8259) |
| `JsonScan.ScanString` | crates/atlas-cli/src/json_edit.rs:179-190 | The index loop finds where a string ends |
| `JsonScan.ScanBrackets` | crates/atlas-cli/src/json_edit.rs:192-216 | The depth loop finds where a bracket closes, and never counts below zero |
| `JsonScan.ScanValue` | crates/atlas-cli/src/json_edit.rs:192-225 | The end of a value by its first character |
| `JsonScan.PassesValue` | crates/atlas-cli/src/json_edit.rs:192-216 | Inside brackets, every well-formed value is passed over as a whole |
| `JsonScan.FindsValueEnd` | crates/atlas-cli/src/json_edit.rs:192-225 | On the text of a document the scanner finds the end of each value |
| `JsonObjects.ScanObject` | crates/atlas-cli/src/json_edit.rs:227-256 | The member loop finds what the specification of the scan finds, with the same refusals |
| `JsonObjects.ScansObject` | crates/atlas-cli/src/json_edit.rs:227-256 | On the text of a document it finds exactly the object's members, at their places, and its closing brace; it neither refuses nor runs off the text |
| `JsonEdit.RemoveMember` | crates/atlas-cli/src/json_edit.rs:35-57 | The loop down the path does what the recursive specification does |
| `JsonRoundTrip.InsertMemberInserts` | crates/atlas-cli/src/json_edit.rs:115-131 | Each of the four splices is the insertion of one last member into the object's tree |
| `JsonLaws.UpsertInserts` | crates/atlas-cli/src/json_edit.rs:68-104 | Where the path ends or breaks off, exactly one member (nested if names are left) is inserted, and no other byte changes |
| `JsonLaws.UpsertReplaces` | crates/atlas-cli/src/json_edit.rs:68-104 | A present value that is read as the given one is left alone; any other is replaced in place |
| `JsonLaws.RemoveRemoves` | crates/atlas-cli/src/json_edit.rs:35-57 | Removal takes out exactly the named member with one comma; nothing changes for an absent key, and duplicates are refused |
| `JsonLaws.InsertThenRemove` | crates/atlas-cli/src/json_edit.rs:29-57 | A second upsert reports no change, and removal gives back the original text byte for byte exactly when the object had members or nothing between its braces |
| `JsonLaws.NestThenRemove` | crates/atlas-cli/src/json_edit.rs:29-113 | Where names of the path are missing: a second upsert reports no change, removal takes out the key alone and leaves the objects made for it, the last one empty, and removing the first of them gives back the original text exactly when the object it went into had members or nothing between its braces |
| `Trivia.BlockCommentEnd` | crates/atlas-edit/src/region.rs:250-271 | Block comments, nesting in Rust only; the depth never goes below zero |
| `Trivia.CommentEndsAtFirstMark` | crates/atlas-edit/src/region.rs:250-271 | In TypeScript a block comment ends at the first closing mark after its opening mark, and is unterminated only without one |
| `Trivia.BalancedEnd` | crates/atlas-edit/src/region.rs:273-311 | The loop gives the specified end of a bracket, over strings, comments and regular expressions, and panics where the specification does |
| `Trivia.BracketsPanicExactlyWhen` | crates/atlas-edit/src/region.rs:273-311 | On valid text the bracket scan panics exactly when it comes to a character that is not ASCII, inside the brackets and outside what it skips as a whole; otherwise it finds what a scan by whole characters would |
| `Trivia.TokenPanicsExactlyWhen` | crates/atlas-edit/src/region.rs:191-248 | On valid text reading a comment, attribute or decorator panics exactly at such an attribute or decorator, and every token ends at a character boundary |
| `Trivia.TypeArgumentsEnd` | crates/atlas-edit/src/region.rs:410-427 | The end of type arguments, arrows excluded |
| `Trivia.TypeArgumentsBalance` | crates/atlas-edit/src/region.rs:410-427 | They end at the first place where as many brackets have closed as have opened, arrows not counted |
| `Trivia.TokenLocal` | crates/atlas-edit/src/region.rs:191-248 | Where a comment, attribute or decorator ends depends on nothing before it, although two scanners look back |
| `Region.ScanText` | crates/atlas-edit/src/region.rs:191-248 | The scan loop gives the specified tokens, stop and position |
| `Region.MemoAgrees` | crates/atlas-edit/src/region.rs:191-248 | A scan that may stop at known lines accepts exactly what the full scan accepts, and panics exactly when the full scan does |
| `Region.JudgeLines` | crates/atlas-edit/src/region.rs:46-54 | Every verdict computed bottom-up with memory equals that of a scan without memory; there are no verdicts exactly when the scan of some line in range panics |
| `Region.FindLeadingRegion` | crates/atlas-edit/src/region.rs:38-76 | It panics exactly when the scan of some line in range does; otherwise the region starts at the earliest line in range whose scan reaches the declaration through comments and attributes only, or is empty when none does |
| `Region.RegionPanicsExactlyWhen` | crates/atlas-edit/src/region.rs:38-76 | For all valid text, it panics exactly when some line in range leads, through comments and attributes, to an attribute or decorator whose brackets hold a character that is not ASCII outside what the scan skips |
| `Region.RegionCanPanic` | crates/atlas-edit/src/region.rs:38-76 | It does so for a function below the attribute `#[a(é)]` |
| `Objects.ClosingBrackets` | crates/atlas-detect/src/objects.rs:40-56 | The stack finds for each opener the closer that counting finds, and none exactly where counting finds none |
| `Objects.InsideIsMatchedInside` | crates/atlas-detect/src/objects.rs:40-56 | Proper nesting: an opener strictly inside a matched pair is matched inside it |
| `Objects.ClosersAreApart` | crates/atlas-detect/src/objects.rs:40-56 | No two openers share a closer |
| `Objects.FindEntryEnd` | crates/atlas-detect/src/objects.rs:79-93 | The cursor loop ends where the specification says |
| `Objects.EntryEnds` | crates/atlas-detect/src/objects.rs:79-93 | Inside a matched pair an entry always ends, within the limit, at the first comma outside brackets or at the limit |
| `ObjectReader.FindTypeSuffix` | crates/atlas-detect/src/objects.rs:149-163 | The cursor jumps over brackets as the specification does |
| `ObjectReader.TypeSuffixIsFirst` | crates/atlas-detect/src/objects.rs:149-163 | What it finds is the first `as` or `satisfies` outside the brackets opened since the start, and none only when there is none |
| `ObjectReader.FindObject` | crates/atlas-detect/src/objects.rs:64-77 | The loop over entries reads what the specification reads, one entry at a time |
| `ObjectReader.ObjectIsTotal` | crates/atlas-detect/src/objects.rs:64-93 | Between a brace and its partner the reader cuts everything at the top commas and fails only where a piece is no entry |
| `ObjectReader.ObjectNesting` | crates/atlas-detect/src/objects.rs:129-147 | Objects nest at most MAX_DEPTH deep inside the object read first, however deep the tokens nest |
| `ArgStrings.CollectStringParts` | crates/atlas-core/src/args.rs:118-155 | Text arguments, and only they, push their flattened parts |
| `ArgStrings.AsStaticStr` | crates/atlas-core/src/args.rs:77-87 | A value for exactly the arguments with nothing dynamic in them |
| `ArgStrings.PartsSpellTheArgument` | crates/atlas-core/src/args.rs:110-168 | No empty and no adjacent literals, and under every valuation of the dynamic parts they spell the argument's value |
| `ArgStrings.StaticHasOneValue` | crates/atlas-core/src/args.rs:77-87 | A static argument has the same value under every valuation |
| `ArgStrings.PrefixBeginsEveryValue` | crates/atlas-core/src/args.rs:89-95 | The static prefix begins the argument's value under every valuation |
| `StringEval.Collect` | crates/atlas-detect/src/strings.rs:64-115 | The evaluator accepts and flattens exactly the specified pieces |
| `StringEval.EvaluateStatic` | crates/atlas-detect/src/strings.rs:18-62 | Evaluation followed by `static_value` |
| `StringEval.EvaluatorsAgree` | crates/atlas-detect/src/strings.rs:53-123 | The evaluator finds the static text wherever `as_static_str` does, and without module constants exactly there |
| `Spans.SpansAgree` | crates/atlas-detect/src/view.rs:73-94 | Below 2^32 - 1 bytes, the span from cached line starts equals the span from counting newlines, for every range |
| `Spans.LastStartIsAfterNewline` | crates/atlas-core/src/span.rs:47-55 | The line start found by search is the place after the last newline, and its number the count of newlines |
| `Lexer.Lexer.Run` | crates/atlas-detect/src/lex.rs:61-73 | Lexing ends on every source, with the tokens in order |
| `Lexer.Lexer.LexTemplate` | crates/atlas-detect/src/lex.rs:269-308 | The chunk with its escapes resolved, the sign that ends it, and the context left or entered |
| `Lexer.Lexer.LexRawString` | crates/atlas-detect/src/lex.rs:245-267 | A raw string ends at the first quote with as many number signs as it began with; its token reaches back over its prefix and still overlaps nothing |
| `Lexer.Lexer.LexPunct` | crates/atlas-detect/src/lex.rs:342-364 | The longest known sign or one character, with braces counted against interpolations |
| `Lexer.InterpolationEnds` | crates/atlas-detect/src/lex.rs:342-374 | A closing brace ends an interpolation, and leads back to the template around it, exactly when it balances the one that began it |
| `Lexer.Lex` | crates/atlas-detect/src/lex.rs:39-49 | For every source: token spans in order, not overlapping, inside the source, and not empty below 2^32 bytes |
| `Lexer.TokensInIsFilter` | crates/atlas-detect/src/view.rs:58-63 | Two binary searches find exactly the tokens that start in the range |
| `Sorting.SortIsStable` | crates/atlas-engine/src/lineage.rs:199-205 | Sorting keeps the order of elements it does not tell apart |
| `Lineage.MergedKeepsLatest` | crates/atlas-engine/src/lineage.rs:191 | The merged map holds exactly the latest edge of each id, by id |
| `Lineage.Settle` | crates/atlas-engine/src/lineage.rs:192-199 | The retention loop ends with the largest set of edges each of which starts at something existing or at the end of an edge in the set |
| `Lineage.Cap` | crates/atlas-engine/src/lineage.rs:201-205 | Above the cap, exactly the cap's number is kept, in id order, and no dropped edge was preferable to a kept one |
| `Lineage.RetainedLineage` | crates/atlas-engine/src/lineage.rs:190-207 | Below the cap the greatest fixpoint of the merged edges, and otherwise its capped part |
| `Renames.UniqueBest` | crates/atlas-engine/src/lineage.rs:141-146 | The entry that strictly beats all others, when there is one |
| `Renames.Choose` | crates/atlas-engine/src/lineage.rs:150-157 | The old side's entry that is strictly best on both sides, when there is one |
| `Renames.UniqueBestPairs` | crates/atlas-engine/src/lineage.rs:148-171 | Exactly the mutual bests, each once, ordered by the ids of new and old side |
| `Renames.MutualBestsAreAMatching` | crates/atlas-engine/src/lineage.rs:148-171 | No old side and no new side occurs in two pairs |
| `CivilDate.CivilDateIsCounted` | crates/atlas-bench/src/report.rs:120-132 | For every number of seconds the closed form is the date reached by counting days from 1970-01-01 (Appendix C of RFC 3339), and a valid date |
| `CivilDate.FitsSigned` | crates/atlas-bench/src/report.rs:120-132 | For every u64 of seconds, every number of the computation, in the order in which it is computed, fits an i64 |
| `CivilDate.YearIsRight` | crates/atlas-bench/src/report.rs:124-126 | The year formula names one of the 400 years of the era, and the day of the year lies in that year |
| `CivilDate.YearIsUnique` | crates/atlas-bench/src/report.rs:124-126 | It names a year exactly when the day of the era lies in that year |
| `CivilDate.MonthIsRight` | crates/atlas-bench/src/report.rs:127-129 | The month formula names the month the day of the year lies in |

## Left out

- The edit lock, its timeout, sweeping and cleaning up temporary files, fsync, symbolic links and permissions beyond one value per file: a temporary file that is never swept has no effect on the tracked files.
- The test hook `Faults`: the schedule of refusals takes its place.
- `FileEdits::new` sorts its edits in place; the model starts from the edits it holds.
- The texts of undo labels and of error messages: labels are data that name the paths they are about.
- Interference.NothingForeignIsLost: speaks of contents and not of single files, and takes each step and each undo entry as atomic, so another writer between a check and the write it guards is not modelled; and it compares content only, as the code does.
- Overflow of the 64-bit tickets of the shared flight.
- Barrier: `load_state`, `execute`, the watch state and SCIP metadata are abstract; a run marks the store dirty and then commits or dies, and loading reads the persisted generation; until a run has finished, it always asks for the full re-resolve. Lock time-outs and back-off are not modelled.
- `settle_clean` also writes file stamps and skipped files to the store, and does so without the index lock when the plan was made before it: `version` counts what runs write, so between equal versions those can differ.
- `EntityKeys`: `normalize_route`, `RustTarget`, `ts_module_path`, display names and the derived `kind` and `repo` of a key.
- The number of symbols in a file is taken to fit 32 bits, as their local ids do.
- CliDiff.WriteDiff: states the lines and their kinds, not the markers and headers they are printed with.
- EditDiff.Changes: speaks of newline-terminated pieces, since an edit that deletes a newline leaves a piece that is no line of the new text (`EditDiff.PiecesAreLinesWhen`).
- Hunks: the printed form of hunks, whose starts are one less for an empty side.
- `LineEnding`, templates, regular expression replacement and the walk over files in `text.rs`.
- JSON texts are sequences of characters, and the source works on bytes. On the text of a document it slices at ASCII characters only; on a malformed text it can slice inside a character, after whatever stands where a colon should be, and panic where the model reads on. A text that breaks off can make it index past its end; the model gives such texts their own outcome.
- What serde_json does to values, apart from keys, whose reading and writing is modelled.
- Region: `lead`, which classifies the lines of a region for another caller, and `leading_trivia`. Positions are those of the whole content; the source counts from the start of the scanned slice.
- Trivia: the width of a character literal is taken from its first byte, so the text must be valid UTF-8, as a Rust string is.
- ObjectReader.FindObject: entries and values are given as functions, of which the lemmas prove bounds, cutting and nesting; the finding of a constant's declaration around the object is left out.
- StringEval: the certainty of an evaluation, and the lookup of module constants, which is a parameter.
- Lexer.Lex: states where tokens lie, not which text each one carries; of words, numbers, quoted strings and Rust quotes the texts are computed as in the source, because the lexer looks back at them, and not specified.
- Renames: the scoring of candidates by body hashes and similarity. Scores are exact numbers, so there are no NaNs and no rounding.
- Lineage.RetainedLineage: above the cap the kept edges need no longer support each other; the model says which are kept.
- CivilDate.CivilDateIsCounted: states year, month and day, not their padding with zeros.
- The SQLite store, parsing with tree-sitter, the resolver, the similarity index, detectors of frameworks, the command line, MCP and rendering.
