# typed-sql: a verified model

typed-sql compiles SQL tagged templates written in TypeScript. This project models the algorithms and protocols its
correctness hangs on, and proves what they promise. `dafny verify dfyconfig.toml` checks everything.

Text is a sequence of UTF-16 code units. Numbering of placeholders, the analysis of SQL, hashing and the decoding of
messages are functions the model is given; nothing is assumed of them except where a member's `requires` says so.
Where the original works step by step on an array, an object or accumulators, the model does too, and the method is proved
against a function or predicate that says what its result is. Protocols between callbacks are state machines: one event is
one stretch of code between two awaits, and a property holds of every sequence of events.

| modules | what they model |
|---|---|
| Text, Ordering | code units, optional values, concatenation; the order of texts, stable sorting |
| NameSuggestions | the banded edit distance and the search for the closest name |
| Scanner, TemplateLaws, CodeGrammar, Escapes, Operands | reading a tagged template, skipping code, cooking escapes, the map from SQL back to the source |
| Structural, StructuralLaws, Expansion, RowType | conditional fragments: renumbering, the variants, the folded row type |
| RepeatedFragments, RepeatedExpansion | lists of fragments, their sites, and the collapse to one item |
| Offsets, Positions | maps between a source and its spliced form; lines and columns |
| InitJournal | journaled setup with crash recovery, on a disk other programs edit |
| Lease, LeaseRuns, NeonWs | transactions on a shared connection, what their events say they may commit; transactions on a pooled connection |
| Bulk, Frames, Execution, Lifecycle, BoundedMap | chunked streams, framed messages, cancellation, queues, workers |
| SqlFile, Compatibility, Manifest | SQL files, incremental manifests |
| UnionTypes, JsonLiterals, UnionGrammar, UnionInclusion | splitting and comparing union types, grammars of literals and of type texts, what compatibility means |

## What turned out not to hold as one might expect

The members named prove what does hold, and where an expectation fails, exactly when.

- The comment above `boundedDistance` says it returns limit + 1 for a distance over the limit. It does exactly when it
  gives up at some column or the last entry of the band is that; for "abb" and "ca" and a limit of one it returns 3
  (`NameSuggestions.BoundedAgrees`, `NameSuggestions.LimitPlusOneIsNotReturned`).
- Renumbering a fragment leaves the SQL ranges of its interpolation records where they were
  (`Structural.RecordsAgreeIffLengthsDo`, `Structural.RecordsCanGoStale`).
- A fragment list whose first template holds a malformed escape expands with a stray separator in front
  (`RepeatedFragments.SiteSlicesItsItems`, `RepeatedExpansion.StraySeparatorHappens`).
- A rollback compares text only when it writes, so an outside change of nothing but a file's mode, made between the
  rollback's read and its write, is lost, and no other change is (`InitJournal.OnlyModeRacesAreLost`,
  `InitJournal.ModeRaceIsLost`).
- A rollback looks at the lock before each file, but not between reading a file and writing it
  (`InitJournal.OnlyOwnReadsAreMissed`, `InitJournal.LockLostWhileReading`).
- The comparison of parameter types splits unions at bars outside quotes and round, square or curly brackets, but not
  outside angle brackets. Compatible types are included in the accepted one exactly when that one has no bar inside angle
  brackets; `Record<"a" | "b", string>` is accepted for `Record<"a" | "c" | "b", string>` and is not included in it
  (`UnionInclusion.InclusionIffNoBarIsHidden`, `UnionInclusion.RecordsWithFewerKeysAreAccepted`).
- A call whose operation aborts its own signal and then throws before it first yields ends in the operation's error although
  it was cancelled (`Execution.EndsCancelledIffCancelCalled`, `Execution.CancelledCallCanEndInItsOwnError`).
- In a SQL file, a marker of a single unit keeps only the last offset of the occurrence it stands for, so its range maps to
  the whole occurrence only if that is one unit long (`SqlFile.MarkersMapToOccurrences`,
  `SqlFile.QuestionMarkMapsToTheEnd`).
- A pooled transaction whose COMMIT took effect but whose answer was lost throws, and its effects are kept
  (`NeonWs.Connection.Transaction`).
- Manifest reuse does not look at the limit on structural variants (`Manifest.RebuildingIsBuilding`).

## Model

| member | source | states |
|---|---|---|
| NameSuggestions.DistanceIsCheapestScript | packages/core/src/name-suggestions.ts:2-22 | the textbook table entry is the least cost of any script of insertions, deletions and substitutions, and some script attains it |
| NameSuggestions.OffDiagonal | packages/core/src/name-suggestions.ts:6-10 | an entry is at least as large as its distance from the diagonal: why the band loses nothing under the limit |
| NameSuggestions.ColumnStaysAbove | packages/core/src/name-suggestions.ts:19 | once a whole column is over the limit the distance is: why stopping early is right |
| NameSuggestions.BandAgrees | packages/core/src/name-suggestions.ts:5-18 | the table restricted to the band, everything outside counting as limit + 1, is exact up to the limit and over the limit elsewhere |
| NameSuggestions.BoundedAgrees | packages/core/src/name-suggestions.ts:1-22 | what the search returns, given up early or not, is the distance up to the limit and over the limit otherwise; it is limit + 1 exactly when the search gives up or the last entry of the band is |
| NameSuggestions.LimitPlusOneIsNotReturned | packages/core/src/name-suggestions.ts:1-22 | two texts over the limit for which the result is limit + 2 |
| NameSuggestions.FillColumn | packages/core/src/name-suggestions.ts:8-17 | overwriting the band of the one row in place turns the stored column into the next one, touches nothing behind the band, and gives the least of what it wrote |
| NameSuggestions.BoundedDistance | packages/core/src/name-suggestions.ts:2-22 | the true edit distance when that is within the limit, and otherwise the number over the limit that the banded table gives |
| NameSuggestions.ClosestName | packages/core/src/name-suggestions.ts:24-36 | the first candidate of minimal true distance within the radius, or none exactly when no candidate is within it, the shrinking limit notwithstanding |
| NameSuggestions.RadiusIsTwoOrHalf | packages/core/src/name-suggestions.ts:24-26 | the radius is the largest number that is two at most or half the name at most |
| Scanner.SkipQuoted | packages/compiler/src/scanner.ts:242-252 | skips a quoted text to its closing quote, and a template to its closing backtick |
| Scanner.SkipTemplate | packages/compiler/src/scanner.ts:285-294 | ends where the template ends, code in its interpolations being skipped as code |
| Scanner.InterpolationEnd | packages/compiler/src/scanner.ts:306-325 | ends where the brace that opened the interpolation closes, braces in strings, comments and nested templates not counting |
| CodeGrammar.CodeIsSkipped | packages/compiler/src/scanner.ts:306-325 | code printed from a grammar of strings, comments, braces and templates, nested to any depth, is skipped to just behind the brace that closes it |
| CodeGrammar.TemplateIsSkipped | packages/compiler/src/scanner.ts:285-294 | a printed template, with printed code in its interpolations, is skipped to just behind its own closing backtick |
| Escapes.FixedEscapesReadBack | packages/compiler/src/scanner.ts:327-368 | every code unit reads back from its \u escape, and every one below 256 from its \x escape, capitals or not, whatever follows |
| Escapes.ZeroIsNullUnlessADigitFollows | packages/compiler/src/scanner.ts:327-368 | an escaped zero is a null unit, and malformed exactly when a digit follows |
| Escapes.BracedEscapesReadBack | packages/compiler/src/scanner.ts:354-362 | every code point reads back from its braced escape in any number of digits up to six that hold it |
| Escapes.SurrogatesHoldTheCodePoint | packages/compiler/src/scanner.ts:361 | a code point beyond the units becomes a surrogate pair from which it can be computed again |
| Scanner.ScanPiece | packages/compiler/src/scanner.ts:384-433 | one turn of the loop reads the piece that stands there: cooked text with its origin, or an interpolation |
| Scanner.ExtractTemplate | packages/compiler/src/scanner.ts:370-436 | the accumulating loop yields the rendering of the lexed template, its offset map and interpolation records, or nothing when the template is malformed or not closed |
| Scanner.RenderAppend | packages/compiler/src/scanner.ts:396-433 | appending a piece adds exactly its text or its numbered placeholder and leaves every earlier placeholder where it was |
| TemplateLaws.LexedOriginsAscend | packages/compiler/src/scanner.ts:370-436 | the offsets of an extracted literal never go back and stay inside it |
| TemplateLaws.RenderAroundHole | packages/compiler/src/scanner.ts:404-413 | around each placeholder the SQL reads: everything before, the placeholder, the literal text after, all mapped to where they came from |
| TemplateLaws.ExtractionIsMapped | packages/compiler/src/scanner.ts:370-436 | every template that extracts has one non-decreasing offset per unit of SQL; each interpolation's slice is its placeholder, numbered from left to right without overlap |
| TemplateLaws.ExpressionsStandBetweenBraces | packages/compiler/src/scanner.ts:404-413 | the expression recorded for an interpolation is the code between its opening brace and the brace that closes it |
| TemplateLaws.SqlRangesMapIntoTheLiteral | packages/compiler/src/scanner.ts:1199-1203 | a SQL range maps into the literal, nested ranges to nested ranges, a placeholder to the first unit of its interpolation |
| TemplateLaws.ThreePassesAreOne | packages/conformance/src/assertions.ts:139-141 | the three replacement passes of the printer come to one escape per unit |
| TemplateLaws.EscapedReadsBack | packages/compiler/src/scanner.ts:332-436 | reading an escaped text to its closing backtick gives it back with its line endings normalized and no interpolation |
| TemplateLaws.PrintedLiteralReadsBack | packages/conformance/src/assertions.ts:139-141 | the literal printed for any text extracts, wherever it stands, to that text with CR and CRLF as LF and no parameters |
| TemplateLaws.NormalizedIsFreeOfReturns | packages/compiler/src/scanner.ts:425-430 | normalizing removes every carriage return and changes nothing in a text without any |
| Operands.LexEndsWithTemplate | packages/compiler/src/scanner.ts:285-436 | skipping a template and extracting it, two readers of the same text, end at the same place whenever it extracts |
| Operands.OperandsAreTrimmed | packages/compiler/src/scanner.ts:486-498 | an operand is what stands between the spaces around it, and is empty exactly when that is the tag's .empty or, where a fragment may be left out, undefined, null or false |
| Operands.OperandExtractsToItsEnd | packages/compiler/src/scanner.ts:486-503 | a fragment operand that is recognised, if it extracts, extracts to exactly its own end |
| Structural.VariantCount | packages/compiler/src/structural.ts:29-36 | two to the number of conditions when that is within the maximum, and something over the maximum otherwise |
| Structural.WithParameterOffset | packages/compiler/src/structural.ts:38-62 | cutting an extracted query at its placeholders and pasting in shifted ones gives what extracting it again at the new offset would, but for the interpolation records, which stay as they were |
| Structural.RecordsAgreeIffLengthsDo | packages/compiler/src/structural.ts:38-62 | the interpolation records agree with a new extraction exactly when every placeholder keeps its length |
| Structural.RecordsCanGoStale | packages/compiler/src/structural.ts:38-62 | a concrete shift after which they do not agree |
| Structural.AssignmentsAreExactlyOnce | packages/compiler/src/structural.ts:144-153 | splitting on each new condition covers every truth assignment of the conditions met exactly once, two to their number in all |
| Structural.LaterChoicesDoNotMatter | packages/compiler/src/structural.ts:126-156 | what has been rendered so far depends only on the conditions met so far |
| StructuralLaws.RenderJoin | packages/compiler/src/structural.ts:47-62 | joined templates render one after the other, the second numbered on from the first |
| StructuralLaws.VariantIsSplicedTemplate | packages/compiler/src/structural.ts:64-171 | a variant's SQL, offsets and parameter count are those of the ordinary template got by writing the chosen fragments in place, its placeholders numbered 1, 2, ... from left to right |
| StructuralLaws.RenderingIsNumbered | packages/compiler/src/structural.ts:64-171 | the placeholders of a rendered template are numbered from left to right |
| Expansion.Register | packages/compiler/src/structural.ts:82-86 | registering an operand extracts its fragment once and loses no earlier one |
| Expansion.FragmentAt | packages/compiler/src/structural.ts:92-101 | the fragment cache, keyed by position and offset, always gives the fragment renumbered for that offset |
| Expansion.AppendOperand | packages/compiler/src/structural.ts:113-124 | appending a cached, renumbered fragment does what extracting it there afresh would |
| Expansion.AdvanceAll | packages/compiler/src/structural.ts:126-156 | advancing every state over one interpolation leaves the rendering of each assignment of the conditions met, in order |
| Expansion.FinishAll | packages/compiler/src/structural.ts:158-170 | the finished states are the expansion: one variant per assignment, rendered as that assignment says |
| Expansion.ExpandStructuralQuery | packages/compiler/src/structural.ts:64-171 | nothing exactly when no interpolation is structural; the limit exactly when two to the number of distinct conditions exceeds the maximum; otherwise one variant for each truth assignment, equal to direct rendering under it |
| RowType.FoldedTextMeansItsRows | packages/compiler/src/structural.ts:221-247 | the text always reads as a type: each folded condition of known type leaves its true side's rows if true, its false side's if false, and both if neither is known |
| RowType.RowTypeIsSound | packages/compiler/src/structural.ts:225-247 | the text of the folded type, read token by token with its bars, parentheses and conditionals, means under any evidence, true, false or unknown for each condition type, a type that includes the row of every assignment the evidence fits |
| RowType.RowTypeIsExact | packages/compiler/src/structural.ts:225-247 | for the rows of an expansion that text means, under any evidence, the rows of exactly the fitting assignments |
| RowType.ExpansionRowsAreFull | packages/compiler/src/structural.ts:225-247 | the rows of an expansion have what exactness needs: any condition can be flipped |
| RowType.LiteralTypesGiveOneRow | packages/compiler/src/structural.ts:211-247 | when every condition's type is known and literal the text means exactly that assignment's row |
| RowType.OneRowIsItself | packages/compiler/src/structural.ts:225-230 | a row that depends on no condition is its own type, written once |
| RepeatedFragments.DuplicatesCollapseToOneItem | packages/compiler/src/compiler.ts:574-583 | dropping every parameter after the first item of each dynamic list leaves, slot for slot, the parameters of the one-item expansion, each for the same source interpolation |
| RepeatedFragments.SiteSlicesItsItems | packages/compiler/src/repeated-fragments.ts:48-134 | a list's site slices out of the final SQL exactly its items joined by ", ", if and only if the first element of the list extracts |
| RepeatedFragments.WalkExtends | packages/compiler/src/repeated-fragments.ts:48-134 | what an expansion has written is never changed by later interpolations |
| RepeatedFragments.AlternativesStandInPlace | packages/compiler/src/repeated-fragments.ts:79-120 | every other callback path of a dynamic list that extracts is kept as it would stand in the list's place, numbered on from the parameters in front of it |
| RepeatedExpansion.ExpandItems | packages/compiler/src/repeated-fragments.ts:93-106 | the inner loop writes the items of one list, each numbered after the one before |
| RepeatedExpansion.ExpandList | packages/compiler/src/repeated-fragments.ts:79-120 | one list: its items, its site and the alternatives kept with it |
| RepeatedExpansion.ExpandRepeatedFragments | packages/compiler/src/repeated-fragments.ts:20-134 | nothing exactly when no interpolation is a list; otherwise the loop's SQL, offsets, parameters, sites and fragments are those of the specified expansion |
| RepeatedExpansion.StraySeparatorHappens | packages/compiler/src/repeated-fragments.ts:93-106 | a source with a list of two tagged fragments, the first with a malformed escape, which expands to ", b" |
| Offsets.Sums | packages/compiler/src/source-mapping.ts:51-52 | the prefix sums of the inserted lengths |
| Offsets.ShiftBefore | packages/compiler/src/source-mapping.ts:53-62 | binary search finds the total length inserted before a position |
| Offsets.OriginalOffset | packages/compiler/src/native-check.ts:41-50 | the loop computes the backward map |
| Offsets.BackwardUndoesForward | packages/compiler/src/native-check.ts:41-50 | forward and back is the identity on source offsets; every offset inside the text inserted at a position maps to that position |
| Offsets.BackwardIsMonotone | packages/compiler/src/native-check.ts:41-50 | the backward map never goes backwards |
| Offsets.BuildForward | packages/compiler/src/javascript.ts:45-55 | building front to back over ascending edits gives the spliced text |
| Offsets.SpliceBackward | packages/compiler/src/compiler.ts:863-865 | splicing back to front over descending insertions gives the same text as building front to back |
| Offsets.BuiltHoldsEverything | packages/compiler/src/compiler.ts:863-865 | position by position the spliced text is the inserted texts and then the source's own unit |
| Offsets.ErasingGivesTheSource | packages/compiler/src/compiler.ts:863-865 | taking the insertions out of the spliced text again gives the source back |
| Positions.LineStartCache.LineStarts | packages/compiler/src/scanner.ts:205-221 | with or without a cache hit, the line starts of the source, which becomes the most recently used of at most eight |
| Positions.LineStartCache.Evict | packages/compiler/src/scanner.ts:217-219 | the least recently used source, and only that, is forgotten |
| Positions.LineStartCache.PositionRange | packages/compiler/src/scanner.ts:223-240 | the line and column of an offset are those a naive count of the text before it gives |
| Positions.LinesStartedBy | packages/compiler/src/scanner.ts:225-231 | binary search finds how many lines start at or before an offset |
| Positions.NaiveAgrees | packages/compiler/src/native-check.ts:59-61 | counting newlines and looking for the last one agrees with the table of line starts |
| InitJournal.OnlyModeRacesAreLost | packages/cli/src/init-apply.ts:100-114 | under every script of edits and failures, a file that is not in its after state when a visit writes is overwritten exactly when it was in that state when read and an outside edit has changed only its mode since |
| InitJournal.ModeRaceIsLost | packages/cli/src/init-files.ts:83-124 | a run whose one edit changes only the mode between the read and the write, and which loses it |
| InitJournal.OnlyOwnReadsAreMissed | packages/cli/src/init-apply.ts:100-114 | a file is written by a rollback after the lock was lost exactly when it was lost while that visit read the file |
| InitJournal.LockLostWhileReading | packages/cli/src/init-apply.ts:101-114 | a visit that loses the lock while reading and writes the file all the same |
| InitJournal.Disk.WriteFile | packages/cli/src/init-files.ts:95-124 | a write that takes effect found the expected text, leaves the new one and keeps the mode unless one is given; otherwise nothing changes |
| InitJournal.Disk.DeleteFile | packages/cli/src/init-apply.ts:110-112 | a file is deleted only while its text is the expected one |
| InitJournal.Disk.VisitFile | packages/cli/src/init-apply.ts:103-114 | a file found as it was is kept, one found as it was to be is put back, any other is a conflict and not touched, whatever is edited and whatever fails between the read and the write |
| InitJournal.Disk.Rollback | packages/cli/src/init-apply.ts:91-129 | only files seen in their after state are touched, only to put the before state back; without edits meanwhile, files in neither state stay as they are, and it marks the journal rolled back only if there were none and all files are before again; left alone it puts back all the others, names exactly the files in neither state, and completes exactly when there are none; once the lock is lost nothing is written, except by the visit during whose read it was; a process that dies does nothing more; the files named as restored are those that were |
| InitJournal.Disk.Record | packages/cli/src/init-apply.ts:142-160 | the recorded entries are the plan's files as they are on disk, each path once |
| InitJournal.OverlapIsNesting | packages/cli/src/init-apply.ts:146-150 | two paths of a plan overlap exactly when one is the other, or lies below it |
| InitJournal.Disk.Install | packages/cli/src/init-apply.ts:174-186 | files are installed in order; the journal is marked completed exactly when all of them were; once the lock is lost neither a file nor the journal is written, and returning means it was held in every step before the last |
| InitJournal.Disk.Apply | packages/cli/src/init-apply.ts:131-194 | whatever happens meanwhile, the tool only installs, in order, and then only puts back; without outside edits the disk and journal stay recoverable at every point, and returning means every file has the text the plan gives it; left alone it returns exactly when no setup is pending and the plan fits the files; once the lock is lost no journal is written, nor a file but by the visit that was reading it, and returning means it was held in every step before the last; a process that dies does nothing more |
| InitJournal.Disk.Recover | packages/cli/src/init-apply.ts:196-205 | whatever was edited before: an applying journal stays applying, with every file in neither state as it is, or ends rolled back, and then all files are as recorded; left alone it ends so exactly when no file is in neither state; any other journal is left alone; the lock is respected as in applying |
| InitJournal.Disk.Lifetime | packages/cli/src/init-apply.ts:131-205 | a setup that dies anywhere, any number of recoveries that die anywhere, and one left alone: every file is as it was found, unless the setup had completed and then all are as planned |
| InitJournal.Disk.DisturbedLifetime | packages/cli/src/init-apply.ts:131-205 | the same with other programs editing files all through, up to a last recovery during which only the tool writes: that one spares every file in neither state and completes only if there are none, all files then being as recorded |
| InitJournal.EditedFilesAreSpared | packages/cli/src/init-apply.ts:103-108 | a file in neither recorded state comes out of an undisturbed rollback as it was, however far that gets |
| InitJournal.UndoOne | packages/cli/src/init-apply.ts:100-115 | one undisturbed visit puts its file back, or names it, or leaves it, and keeps what is true of the files already visited |
| Lease.EveryRunKeeps | packages/adapters/src/sqlite-wasm.ts:198-306 | over every interleaving the lease is held by a live transaction, the native transaction is the holder's or was left on a broken connection, and isolation and atomicity hold |
| Lease.TransactionsAreIsolatedAndAtomic | packages/adapters/src/transaction-scope.ts:5-38 | between a BEGIN and its COMMIT or ROLLBACK only the holder's statements run; what is durable of a transaction is all its effects, in order, if it committed, and otherwise nothing |
| Lease.BrokenIsFinal | packages/adapters/src/sqlite-wasm.ts:198-204 | no statement ever reaches a broken connection again |
| Lease.GivingUpBreaks | packages/adapters/src/sqlite-wasm.ts:286-298 | a finishing transaction breaks the connection exactly when it gives up on its ROLLBACK |
| Lease.BatchKeeps | packages/adapters/src/sqlite-wasm.ts:226-250 | a batch, run in one piece, keeps all of the above whichever of its statements fails, before or after changing the database |
| Lease.DrainedTransactionsEnd | packages/adapters/src/sqlite-wasm.ts:278-298 | a drained transaction is over in two steps with the lease given back; it commits exactly when its callback returned, nothing failed, the connection is open and COMMIT worked, and exactly its effects become durable then |
| Lease.BatchesEnd | packages/adapters/src/sqlite-wasm.ts:226-250 | a batch gives its lease back and has committed exactly when BEGIN, every statement and COMMIT worked; a statement that changes the database and then throws has not; then its changes, in order, become durable, and otherwise nothing does |
| Lease.FinishKeeps | packages/adapters/src/sqlite-wasm.ts:278-298 | draining a scope, committing, rolling back or giving up keeps all of the above |
| LeaseRuns.EveryRunTracks | packages/adapters/src/transaction-scope.ts:5-38 | over every run, what a transaction has recorded of itself, its callback, its outstanding operations, its failure and its effects, is what the events say |
| LeaseRuns.CommittedMeansAllWorked | packages/adapters/src/transaction-scope.ts:5-38 | a transaction that has committed: every operation its callback dispatched was carried out, settled well and has settled, though the callback may have caught failures; what is durable of it is exactly those operations, in order |
| LeaseRuns.CommittedDispatchesWorked | packages/adapters/src/transaction-scope.ts:5-38 | the same of the events: each dispatch of a callback whose transaction has committed worked, settles well and is followed by its settling |
| LeaseRuns.SettledRunsEnd | packages/adapters/src/sqlite-wasm.ts:278-298 | once all has settled a transaction is over in two steps; by the events alone, it commits exactly when its callback returned, every operation worked, the connection is open and COMMIT works, and then its operations and nothing else become durable |
| LeaseRuns.IdleConnectionsServe | packages/adapters/src/sqlite-wasm.ts:198-225 | on an idle, open connection a transaction starts with its BEGIN and a plain statement is durable at once |
| LeaseRuns.ClosingIsFinal | packages/adapters/src/sqlite-wasm.ts:198-204 | nothing reaches a closed connection, and what was durable when it closed stays exactly that |
| NeonWs.Connection.RunStatements | packages/adapters/src/neon-ws.ts:51-61 | a scope runs every statement given to it, and drains without an error exactly when all worked |
| NeonWs.Connection.Transaction | packages/adapters/src/neon-ws.ts:45-82 | it returns exactly when everything worked; its effects are kept exactly when COMMIT took effect; a connection released for reuse is outside any transaction |
| NeonWs.UsePool | packages/adapters/src/neon-ws.ts:45-82 | over any number of calls on pooled connections, each call finds a clean connection and what is durable is what the calls kept, in order |
| Bulk.ChunksAreTheRows | packages/core/src/bulk.ts:92-126 | the chunks concatenate to the rows, in order, nothing lost |
| Bulk.ChunksFit | packages/core/src/bulk.ts:92-126 | no chunk is empty, and one exceeds the limit only when a single row makes up all of it |
| Bulk.Concatenate | packages/core/src/bulk.ts:34-44 | copying chunks into one buffer of their total length is concatenating them |
| Bulk.Transfer.TakeRow | packages/core/src/bulk.ts:102-113 | one row is grouped as the specification groups it, what does not fit beside it having been yielded and reported |
| Bulk.Transfer.Generate | packages/core/src/bulk.ts:92-126 | a generator that has not thrown has yielded every group, or as many as its consumer wants; it throws exactly at a bad row or report it comes to |
| Bulk.Transfer.DrainedThrowsIff | packages/core/src/bulk.ts:92-126 | a drained generator throws exactly when an item throws or does not encode, a row finds the signal aborted, or the report of some chunk throws |
| Bulk.Transfer.Execute | packages/core/src/bulk.ts:46-142 | however the consumer stops, the source is closed at most once, and exactly when it has not reported done; a call throws exactly when it is aborted beforehand, its first row cannot be had, its statement does not compile, its consumer fails or its generator throws; what it returns counts what its consumer was given, all of the specified chunks or as many as it wants, each progress report counting exactly the rows and bytes yielded through it |
| Frames.Reader.Data | packages/cli/src/init-verify.ts:38-71 | a chunk is appended and every complete message drained from the buffer |
| Frames.MoreBytesDoNotMatter | packages/cli/src/init-verify.ts:42-57 | a complete or bad message is read the same way whatever follows it |
| Frames.FeedTwiceIsFeedOnce | packages/cli/src/init-verify.ts:38-71 | feeding two chunks is feeding them as one, within the cap |
| Frames.HeaderIsRead | packages/cli/src/init-verify.ts:24-48 | the header that is written is read as the length of the body |
| Frames.FirstFieldCounts | packages/cli/src/init-verify.ts:45-48 | a header says the length that its leftmost length field says, at its start or behind a line break, in any case, in all the digits there, and none exactly when there is no such field |
| Frames.FrameIsRead | packages/cli/src/init-verify.ts:23-57 | a written frame is read as its body, leaving exactly what follows |
| Frames.StreamReadsBack | packages/cli/src/init-verify.ts:23-71 | frames written one after another and received in any chunks yield exactly their bodies, in order, and leave an empty buffer |
| Execution.EveryRunKeeps | packages/core/src/execution.ts:77-140 | over every order of abort, timer, settling and resuming, the log tells exactly what the state says, and an armed timer waits no longer than a timer can and is due at the deadline or re-arms before it |
| Execution.CancelsOnceAndEndsLast | packages/core/src/execution.ts:94-140 | cancel is called at most once and never by the deadline before its time; the call ends last, and never while a dispatched operation is going |
| Execution.EndsCancelledIffCancelCalled | packages/core/src/execution.ts:124-140 | once the checks have passed, a call ends in the cancellation error exactly when cancel was called, with the reason given to it, and otherwise as its operation did, for every call except the one whose operation aborts and then throws at once |
| Execution.CancelledCallCanEndInItsOwnError | packages/core/src/execution.ts:124-127 | that exception happens |
| Execution.DeadlineIsEnforced | packages/core/src/execution.ts:112-122 | a call under way always has a timer due by its deadline, and one that fires then cancels |
| Execution.AbortIsEnforced | packages/core/src/execution.ts:108-109 | an abort of a call under way cancels it, with the signal as the reason unless it was cancelled before |
| Execution.AbortedCallsEndCancelled | packages/core/src/execution.ts:94-140 | a call aborted before it was done, and ended, ended cancelled |
| Execution.LateCallsEndCancelled | packages/core/src/execution.ts:94-140 | so did one whose timer fired at its deadline or later before it was done |
| Execution.AbortWhileDispatchingCancels | packages/core/src/execution.ts:108-127 | an abort by the operation itself, before it first yields, cancels, and the call ends cancelled unless the operation then throws at once |
| Execution.RefusedCallsEndCancelled | packages/core/src/execution.ts:77-93 | a call aborted beforehand or past its deadline ends at once, cancelled for the first of these, with nothing dispatched |
| Execution.UndisturbedCallsEndAsSettled | packages/core/src/execution.ts:127-140 | a call that nothing cancels ends as its operation settled |
| Execution.SettledCallsEnd | packages/core/src/execution.ts:127-135 | once the operation has settled nothing keeps the call from ending |
| Lifecycle.LifecycleQueue.Run | editors/vscode/src/lifecycle.ts:6-13 | a call links an operation behind the tail and becomes the tail, or does nothing once the queue is closing |
| Lifecycle.LifecycleQueue.Close | editors/vscode/src/lifecycle.ts:15-18 | the first close links the cleanup behind the tail; later ones give the same cleanup |
| Lifecycle.Live | editors/vscode/src/lifecycle.ts:2-19 | the queue, driven by any sequence of calls, closings, starts and ends, is always in the state the run of those events gives |
| Lifecycle.RunsOneAtATimeInOrder | editors/vscode/src/lifecycle.ts:2-19 | over every run operations go one at a time in the order of the calls, and after close nothing but the cleanup starts |
| Lifecycle.NothingStartsTwice | editors/vscode/src/lifecycle.ts:15-18 | no operation starts twice, nor the cleanup, however often close is called |
| Lifecycle.SomethingCanHappen | editors/vscode/src/lifecycle.ts:8-11 | as long as something is unsettled, the first such link is running or may go on, whatever failed before it: failures stop nothing and the cleanup's turn comes |
| Lifecycle.TurnsStart | editors/vscode/src/lifecycle.ts:8-11 | an operation whose turn comes on an open queue starts, and so does the cleanup |
| Lifecycle.NothingIsSkippedBeforeClose | editors/vscode/src/lifecycle.ts:8-11 | only operations are skipped, and only once the queue has been closed |
| Lifecycle.LinksAreTheCalls | editors/vscode/src/lifecycle.ts:6-18 | every call before the close has its link, the first close has the cleanup's, and there are no others |
| Lifecycle.CleanupComesLast | editors/vscode/src/lifecycle.ts:15-18 | a cleanup that has started finds every operation ended, or skipped without having started |
| BoundedMap.VisitsAreBoundedAndOnce | packages/compiler/src/verification.ts:409-424 | over every interleaving of the workers each index is visited at most once, in order, and no more than min(concurrency, n) of the visits begun have not ended |
| BoundedMap.ResolvedIsComplete | packages/compiler/src/verification.ts:409-424 | with the concurrency of at least one its caller has checked for, a call that resolves has visited every index and holds each visit's value |
| BoundedMap.VisitsComeToTheirEvents | packages/compiler/src/verification.ts:409-424 | each visit comes to what the event that ends it says, and a call one of whose visits throws does not resolve |
| BoundedMap.TurnsMakeProgress | packages/compiler/src/verification.ts:409-424 | a turn changes something exactly when its worker has not ended, and then brings the call closer to its end |
| SqlFile.BindOne | packages/compiler/src/sql-file-analysis.ts:95-104 | one turn of the loop adds one part, one marker with its offsets and one binding |
| SqlFile.NextIndex | packages/compiler/src/sql-file-analysis.ts:77-94 | a name keeps the number of its first occurrence and a new one gets the next; a number is refused exactly when it is missing, malformed or out of range |
| SqlFile.ReadOccurrences | packages/compiler/src/sql-file-analysis.ts:64-105 | the loop stops at the first occurrence out of order or without a usable number, and then the file is not acceptable |
| SqlFile.BindOccurrences | packages/compiler/src/sql-file-analysis.ts:60-112 | a file is accepted exactly when its occurrences are in order and all named, or all positional with no index left out; then the text between markers, the offsets and the bindings are as specified |
| SqlFile.Contiguous | packages/compiler/src/sql-file-analysis.ts:109-112 | the set-size test is a pigeonhole: it passes exactly when every index up to the largest is used |
| SqlFile.FirstSeenIsInOrder | packages/compiler/src/sql-file-analysis.ts:84-89 | the names are the distinct ones, in the order of their first occurrence |
| SqlFile.OffsetsCount | packages/compiler/src/sql-file-analysis.ts:95-108 | one offset for every unit of the normalized text |
| SqlFile.OffsetsAscend | packages/compiler/src/sql-file-analysis.ts:95-108 | the offsets never descend |
| SqlFile.MarkersMapToOccurrences | packages/compiler/src/sql-file-analysis.ts:50-54 | a marker maps back to the end of its occurrence, and to all of it exactly when the marker has two units or more or the occurrence one |
| SqlFile.QuestionMarkMapsToTheEnd | packages/compiler/src/sql-file-analysis.ts:50-54 | with ? as the marker, the marker of $1 maps to the 1 alone |
| SqlFile.TextMapsToItself | packages/compiler/src/sql-file-analysis.ts:50-54 | a stretch of text between occurrences maps back to where it was copied from |
| SqlFile.MappedRangesAreRanges | packages/compiler/src/sql-file-analysis.ts:50-54 | every range maps to a range of the file, and mapped starts keep their order |
| SqlFile.PositionalCallRenders | packages/compiler/src/sql-file.ts:90-101 | the generated function renders as the analyzed text, and occurrence k stands for the argument of its own index |
| SqlFile.NamedCallRenders | packages/compiler/src/sql-file.ts:90-101 | given exactly the file's names, occurrence k stands for the argument of its own name |
| Compatibility.Assess | packages/core/src/artifact-compatibility.ts:182-241 | the outcome is the gravest that any change calls for, compatible exactly when nothing the reference asks for has changed, and the reasons are all changes that call for it, in order |
| Compatibility.ReasonsAreChanges | packages/core/src/artifact-compatibility.ts:193-231 | the listed reasons are exactly the changes of that gravity |
| Compatibility.CompatibleIffAllAskedForIsThere | packages/core/src/artifact-compatibility.ts:193-241 | a candidate is compatible exactly when it gives all that the reference asks for; what the reference leaves out does not matter |
| Ordering.LessIsTotal | packages/compiler/src/artifact-serialization.ts:2 | the order of texts is total and strict |
| Manifest.CompatiblePrevious | packages/compiler/src/manifest.ts:399-455 | a previous manifest may be used exactly when it has all it needs and nothing that makes it incompatible has changed |
| Manifest.GroupByFile | packages/compiler/src/manifest.ts:484-488 | the entries of each file, in order |
| Manifest.Build | packages/compiler/src/manifest.ts:457-532 | the reusing build: the specified manifest or the specified refusal, counting exactly the files reused and analyzed |
| Manifest.WhatIsRefused | packages/compiler/src/manifest.ts:457-473 | no compiler version, another dialect than the schema's, or two inputs of one file wherever they stand: the first that applies is the refusal, and anything else is built |
| Manifest.EntriesAreSorted | packages/compiler/src/manifest.ts:500-503 | the entries of a manifest go by file and then by start, those of one place in the order they were found |
| Manifest.RebuildingIsBuilding | packages/compiler/src/manifest.ts:457-532 | with a previous manifest of the same builder and injective hashes, for any files changed, added or removed, it equals building from scratch exactly when no reused file shows a change of the variant limit, and so always when the limit is the same |
| Manifest.NothingToReuse | packages/compiler/src/manifest.ts:474-499 | without a usable previous manifest it is building from scratch |
| Manifest.UnchangedFilesAreReused | packages/compiler/src/manifest.ts:492-496 | building again with nothing changed reuses every file |
| Manifest.EntriesOfFlat | packages/compiler/src/manifest.ts:484-503 | what was filed under a file comes back under it and under no other |
| UnionTypes.TopLevelUnionMembers | packages/compiler/src/verification.ts:260-284 | the loop over quotes, escapes and depth splits where the specification does |
| UnionTypes.JoinedMembersSplitBack | packages/compiler/src/verification.ts:260-284 | the lists a split can give are exactly the trimmed ones without a top-level bar whose members but the last are closed, and splitting undoes joining them with a spaced bar between |
| UnionTypes.CompatibleIffEachFits | packages/compiler/src/verification.ts:306-318 | compatible is that every supplied member fits an accepted one; the shortcut on equal texts decides nothing |
| UnionTypes.CompatibilityIsAPreorder | packages/compiler/src/verification.ts:306-318 | compatibility is reflexive and transitive |
| UnionTypes.OnlyMemberSetsMatter | packages/compiler/src/verification.ts:306-318 | neither the order nor the repetition of members matters |
| JsonLiterals.NumbersAreTheGrammars | packages/compiler/src/verification.ts:286-299 | the texts taken for numbers are exactly those printed from a grammar of sign, integer without leading zeros, fraction and exponent |
| JsonLiterals.BigintsAreTheGrammars | packages/compiler/src/verification.ts:286-299 | those taken for big integers are exactly such integers with an n behind |
| JsonLiterals.StringsAreTheGrammars | packages/compiler/src/verification.ts:286-303 | those taken for strings are exactly those printed from a grammar of plain units and escapes between quotes |
| JsonLiterals.PrimitivesOfMembers | packages/compiler/src/verification.ts:286-303 | a member has a primitive type exactly when it is its name or one of its literals |
| UnionGrammar.SameTextSameType | packages/compiler/src/verification.ts:260-284 | type texts, printed from a grammar of unions, names, literals, brackets and generics, read in one way |
| UnionGrammar.SplitIsRightIffNoBarIsHidden | packages/compiler/src/verification.ts:260-284 | the split finds exactly the members a type has if and only if no bar stands inside angle brackets |
| UnionInclusion.CompatibleIsIncluded | packages/compiler/src/verification.ts:305-318 | when the accepted type has no bar inside angle brackets, every value of a compatible type is one of it, whatever names and generics mean |
| UnionInclusion.HiddenMembersCanBeLeftOut | packages/compiler/src/verification.ts:305-318 | a type with members left out of a union inside angle brackets is accepted for the longer one |
| UnionInclusion.InclusionIffNoBarIsHidden | packages/compiler/src/verification.ts:305-318 | for every accepted type: all compatible types are included in it, whatever names and generics mean, if and only if it has no bar inside angle brackets |
| UnionInclusion.RecordsWithFewerKeysAreAccepted | packages/compiler/src/verification.ts:305-318 | the record over two keys is accepted for the record over these and a third, and has an object the other has not |

## Left out

- Which interpolations are structural or repeated (scanner.ts:511-928, splitting at top-level commas included) is an input to the expansions, not modelled.
- Finding tagged templates, imports and binding names in a source (scanner.ts:97-200, 930-1198) is not modelled.
- In RowType row and condition texts are single tokens; how a condition's type is read off the source (structural.ts:173-219) is an input.
- The plan consistency check that follows the collapse of repeated parameters (compiler.ts:584-597) compares descriptors the grammar supplies and is not modelled.
- Line and column of the ranges kept with extracted queries are not in Scanner; Positions covers how they are computed.
- InitJournal takes each read, write, delete and journal write as one atomic step; a failing sync after a rename, edits between a check and its rename, the journal's text form, its size limit and the checks on paths are left out.
- Files of a setup plan are distinct paths under the project; reading the plan and formatting messages are left out.
- Lease is a state machine on values, one event for each stretch of code between awaits, so the identity of lease objects is a number and the registries are fields of one state.
- Lease leaves out statements by which a caller opens or closes a transaction itself, SQLite rolling back on its own, and a COMMIT or ROLLBACK that fails yet takes effect; NeonWs does model lost answers.
- NeonWs runs the callback's statements in the order dispatched; retirement of scopes under interleaving is in Lease.
- Execution is a state machine on values; that the deadline is a finite number is checked elsewhere, and the timer's clock and the wall clock are one.
- Frames takes which bodies decode as JSON as a parameter; the child process, its other messages and its exit are left out.
- Bulk takes the encoding of each item, whether the statement compiles and how the consumer ends as inputs; closing the source is taken to succeed.
- SqlFile leaves out the limit on source size, the analysis of the normalized text and its own diagnostics, and the grouping of repeated parameters by type.
- SqlFile takes ranges of the normalized text as natural numbers.
- In Manifest projects are passed through as given, their sorting being left out; so are portable paths and the counts of resolved queries.
- Compatibility takes identities that have been parsed; the outcome for a corrupt one is left out.
- UnionGrammar has unions, names, primitive types, literals, tuples, objects, round brackets and generics; function, array and optional types, comments and spacing other than the printed one are left out. What names, literals and generics denote is a parameter.
- BoundedMap and Lifecycle let a worker or a link take its next step at any later event; the original takes some of them at once.
- Grammars, rendering of queries, database creation, value codecs, the command line, configuration, editors and live databases are left out.
