# Verified model of RustCode's core algorithms

RustCode is an LLM backend: it scans repositories, asks a model about files, repairs
what the model answers, searches, and carries out tasks as branches and pull requests.
This project models the parts of it that are algorithms or protocols rather than glue,
and proves what they keep, what they undo, and where they fall short. To check
all modules together, use `dafny verify dfyconfig.toml`.

**Truncated JSON.** `JsonGrammar` gives RFC 8259 (sections 2 to 7) as concrete syntax
trees, as parsed trees and as a reader; `JsonReader` shows that the reader decides the
grammar. `JsonRepair` is `repair_truncated_json` with its scanning loop and its suffix,
proved on every input. `JsonCut` describes every place where a text can be cut, and
`JsonMeaning` says for each of them whether the repair mends it and to which tree:
whitespace, nested containers, strings with escapes, numbers and names included. A
repair succeeds exactly at the places called `Mendable`: after a complete value
or a scalar that happens to be complete, after `[`, `{`, `:` or an array's comma, and
inside a string value but not inside an escape. It fails after an object's comma, inside
or after a member name, inside an unfinished scalar, and inside an escape: right after
the backslash, where the appended quote is escaped itself, within `\uXXXX`, or between
the halves of a surrogate pair. `MendableByText` shows that this depends on the cut text
alone. `JsonExtraction` puts the three extractors in front, and `TruncatedAnswers` puts
them together: an answer that breaks off inside a fence that is never closed, or without
any fence, is extracted up to an exactly stated place, and then mended or not.

**The scan.** `ScanLoop` is the file loop with its checkpoint row, its budget and the
commit-hash decision. Kills, restarts and failing database calls are steps of a
transition system. Resuming refines a single run, with exceptions that come with their
exact conditions: the issue count falls short by the issues of the files that the last
restart skipped; a checkpoint is accepted when only the number of files agrees, which is
enough exactly when the skipped files were attempted before or come again; and a scan is
stuck, halting at once, exactly when it loads a checkpoint over budget, which is what a
budget halt leaves. The comment at `src/auto_scanner.rs:605-608` expects the next scan to
continue with the remaining files, and the commit hash to be stored only if all files
were analysed. The code does neither, and the model follows the code: the hash is stored
unless the loop was halted, over failed and skipped files alike. `HashMeansAnalysed` says
for every database when all files are analysed then; where only scans of the same list
came before, it is if and only if no analysis fails (`HashMeansNoFailure`).

**Trees, templates, ranking, roots, text.** `DirectoryTree` builds, sorts, aggregates
and tags a directory tree, which `DiskTree` compares with the disk, entry by entry;
`Hotspots` ranks its nodes with the stable sort of `StableSort`; `AsciiTree` prints it,
and reads the printing back, and `TreeCaptions` reads the single lines. `QueryTemplates` shows
that successive replacements are one simultaneous substitution exactly when the
substituted text has not both kinds of braces. `RankFusion` is Reciprocal Rank Fusion for
all lists and every iteration order of the hash map. `CargoRoots` selects minimal
directories. `Utf8Truncation` cuts UTF-8 byte
strings (sections 3 and 4 of RFC 3629) between characters.

**Tasks and passes.** `TaskWatcher` delivers each task file at most once. `TaskPipeline`
runs the phases of a task under every choice of failing operations and every dispatch,
and `TaskEffects` says of every effect exactly when it happens and in which place; a push needs neither a successful commit nor a test that ran, and the exact conditions
are stated.
`GatedPasses` covers every interleaving of semaphore-gated tasks with a write lock that
outsiders use too. The sync pass does not clamp its limit, which may be 0: a pass can
complete if and only if it has a permit to give or nothing to do.

Code that the source runs step by step is a method, or a class with fields where the
source has state of its own (`Repository`, `Watcher`, `TaskExecutor`). Each method is
proved equal to a function of its inputs or of the old state, and the theorems are about
that function. What is outside the program (a file's analysis, a test suite, a clone,
a send) is an input, so that a theorem holds for every outcome.

## Model

| member | source | states |
|---|---|---|
| JsonGrammar.ReadsBack | src/auto_scanner.rs:2109-2141 | every JSON text, with any whitespace and any escapes but no lone surrogate, reads back as its own tree: the reader is complete and the grammar unambiguous |
| JsonGrammar.ReadsValue | src/auto_scanner.rs:2109-2141 | a value in front of any text that cannot prolong it is read off as its tree, leaving that text |
| JsonReader.ParseDecides | src/auto_scanner.rs:2109-2141 | for every string the reader yields a tree if and only if the string is a JSON text with that tree, surrogate escapes coming in pairs |
| JsonGrammar.SurrogateValues | src/auto_scanner.rs:2109-2141 | the two digits that the reader looks at are those of exactly the surrogate ranges |
| JsonRepair.RepairTruncatedJson | src/auto_scanner.rs:2340-2408 | the imperative repair returns exactly what the specification `Repair` says, None included |
| JsonRepair.ScanDelimiters | src/auto_scanner.rs:2343-2378 | the loop leaves the stack and string flag of the pushdown scanner over the whole input |
| JsonRepair.CloseDelimiters | src/auto_scanner.rs:2402-2405 | the closers are appended from the innermost out |
| JsonRepair.RepairBalances | src/auto_scanner.rs:2347-2407 | on every input a repaired text extends it by at most one closer per open delimiter plus 1 (open string) or 4; it scans to an empty stack outside strings, and a second repair finds nothing to do, if and only if the input does not stop mid-escape |
| JsonRepair.ScanOfRepaired | src/auto_scanner.rs:2347-2407 | the exact scanner state of a repaired text, mid-escape inputs included, and that the suffix never adds a mismatch |
| JsonRepair.SuffixShape | src/auto_scanner.rs:2385-2405 | the suffix is a filler and then the closers; the filler is the quote of an open string or at most four inert characters, never both |
| JsonRepair.PlaceholderIff | src/auto_scanner.rs:2397-2400 | outside a string the suffix is null and the closers if the last character that is no white space is a colon or a comma, and else the closers alone |
| JsonRepair.RepairDeclines | src/auto_scanner.rs:2341-2383 | None exactly when the first character that is no white space is no opening brace or bracket, or the scan is already balanced |
| JsonRepair.ScanDecidesNesting | src/auto_scanner.rs:2347-2378 | the scanner accepts (no mismatched closer, empty stack) if and only if the delimiters outside strings derive from a recursive bracket grammar |
| JsonRepair.RepairNests | src/auto_scanner.rs:2347-2407 | a repaired text is well-bracketed by that grammar if and only if no closer in the input was mismatched and, where the input stops mid-escape, no container was open |
| JsonRepair.ClosersEmptyStack | src/auto_scanner.rs:2402-2405 | popping in reverse empties any stack of closers |
| JsonCut.CutValueText | src/auto_scanner.rs:2335-2340 | the description of a cut has exactly the first n characters of the text, so every cut position is described |
| JsonCut.ScanCut | src/auto_scanner.rs:2347-2378 | after any cut the stack holds the closers of exactly the containers left open, and the flags say whether the cut is in a string and in an escape |
| JsonCut.KeptWhenMendable | src/auto_scanner.rs:2385-2407 | a cut keeps a tree if and only if it stops at a mendable place |
| JsonCut.KeptTruncates | src/auto_scanner.rs:2385-2407 | what a cut keeps is the original tree with everything after the cut dropped |
| JsonMeaning.RepairPreservesMeaning | src/auto_scanner.rs:2340-2408 | for every JSON text with a container at its root and every cut inside it: the repair is a JSON text if and only if the cut is mendable, and then its tree is the original one truncated |
| JsonMeaning.ReadsRepaired | src/auto_scanner.rs:2340-2408 | the repaired text reads as exactly the tree that the cut keeps, a missing value being null and a cut string its prefix |
| JsonMeaning.RepairedTextDenotes | src/auto_scanner.rs:2340-2408 | the same against the grammar: the repaired text denotes tree t if and only if t is what the cut keeps |
| JsonMeaning.MendableByText | src/auto_scanner.rs:2385-2407 | two equal cut texts, whatever they were cut from, keep the same tree, and both are mendable or neither is |
| JsonMeaning.RepairOfCut | src/auto_scanner.rs:2385-2407 | the repair of a cut container appends exactly the filler of the cut's place and one closer per open container |
| JsonMeaning.CutEnd | src/auto_scanner.rs:2397-2400 | the last significant character calls for null exactly where a value is missing |
| JsonMeaning.CompleteTextIsNotRepaired | src/auto_scanner.rs:2380-2383 | a complete JSON text is never changed |
| JsonMeaning.ObjectCommaFails | src/auto_scanner.rs:2397-2400 | after the comma behind any first member the placeholder yields a text that is not JSON |
| JsonMeaning.EscapeFails | src/auto_scanner.rs:2385-2390 | inside any escape of any string of an array (after its backslash, within its digits, between the halves of a pair) the repaired text is not JSON |
| JsonExtraction.ExtractsBare | src/auto_scanner.rs:2281-2333 | all three extractors return exactly a braced payload that stands in prose without fences or braces on the outer sides |
| JsonExtraction.ExtractsFenced | src/auto_scanner.rs:2281-2333 | the scanner and the code review return exactly the payload of a json fence with prose around it; the refactoring assistant does so if and only if the closing fence is not followed by more backticks that end its line |
| JsonExtraction.ScanFenced | src/auto_scanner.rs:2281-2333 | the scanner's extractor does so wherever the closing fence stands |
| JsonExtraction.ReviewFenced | src/code_review.rs:820-833 | the code review's extractor does so wherever the closing fence stands |
| JsonExtraction.RefactorFenced | src/refactor_assistant.rs:793-808 | the refactoring assistant's extractor returns the payload if and only if the closing fence is not followed by more backticks that end its line |
| JsonExtraction.RefactorPanicsIff | src/refactor_assistant.rs:793-808 | it panics if and only if there is no fenced block and the first opening brace stands behind the last closing one, not right behind it |
| JsonExtraction.RefactorPanics | src/refactor_assistant.rs:802-805 | a three-character answer on which it does |
| TruncatedAnswers.ScanOpenJsonFence | src/auto_scanner.rs:2284-2298 | a json fence that is never closed: everything from the first opening brace or bracket behind it, without the white space at the end |
| TruncatedAnswers.ScanClosedJsonFence | src/auto_scanner.rs:2284-2298 | the same up to the closing fence, for objects and arrays and any prose in front of them |
| TruncatedAnswers.ScanOpenJsonProse | src/auto_scanner.rs:2288-2298 | an unclosed json fence without an opening brace or bracket: all of it, trimmed |
| TruncatedAnswers.ScanOpenFence | src/auto_scanner.rs:2301-2314 | any other fence that is never closed: everything behind its first line, trimmed |
| TruncatedAnswers.ScanClosedFence | src/auto_scanner.rs:2301-2314 | the same up to the closing fence |
| TruncatedAnswers.ScanFenceOnly | src/auto_scanner.rs:2305-2314 | an answer that ends on the line of the fence: that line |
| TruncatedAnswers.ScanBare | src/auto_scanner.rs:2318-2330 | without a fence: from the first opening brace to the last closing one, or to the end if there is none behind it |
| TruncatedAnswers.ScanPlain | src/auto_scanner.rs:2318-2332 | with neither fence nor opening brace: the trimmed answer |
| TruncatedAnswers.ReviewOpenJsonFence | src/code_review.rs:820-833 | the code review's extractor drops an unclosed json fence and keeps an unfinished object whole |
| TruncatedAnswers.RefactorWhole | src/refactor_assistant.rs:801-807 | the refactoring assistant returns an answer without a fenced block and without a pair of braces as it is |
| TruncatedAnswers.FencedCutIsMended | src/auto_scanner.rs:2109-2141 | a container cut short anywhere in an unclosed json fence is extracted up to the white space at its end, and the repair of that is a JSON text if and only if it stops at a mendable place, and then with the original tree truncated |
| TruncatedAnswers.BareCutIsMended | src/auto_scanner.rs:2109-2141 | the same for an object without a fence, which is extracted up to its last closing brace if it has one |
| ScanLoop.Repository.AnalyzeChangedFiles | src/auto_scanner.rs:1107-1251 | counters, cost, halt flag, checkpoint row and files are those of the specification `Analyze`, for every pattern of failing saves, loads and clears |
| ScanLoop.SingleRunCounts | src/auto_scanner.rs:1130-1237 | a scan visits the first n files, n being the first index at which the sum of their costs uses up the budget, or else all; it is halted exactly in the first case; it reports how many of them were analysed, cache hits included, how many were cache hits, and the sums of their costs and issues |
| ScanLoop.ScanCounts | src/auto_scanner.rs:1107-1251 | the same for the scan of an empty database under all faults, which attempts exactly those n files and leaves exactly the successful ones analysed |
| ScanLoop.RowCounts | src/auto_scanner.rs:2461-2496 | the row that any trace leaves names the file at its index, the number of files, and the counts of the files up to that one |
| ScanLoop.HashStoredIff | src/auto_scanner.rs:503-669 | on any database that scans of the same list left, exactly when the hash is stored and when the call succeeds, in terms of the outcomes, the budget and the failing writes, the empty list included |
| ScanLoop.Repository.CheckAndScan | src/auto_scanner.rs:503-669 | the exact new state: the commit hash becomes the scanned head if and only if `StoresHash`, the database is that of the loop or unchanged, and the call succeeds if and only if `ScanSucceeds` |
| ScanLoop.Repository.LoadCheckpoint | src/auto_scanner.rs:2417-2456 | returns the row if and only if its file count matches, and clears one that does not |
| ScanLoop.Repository.SaveCheckpoint | src/auto_scanner.rs:2461-2496 | replaces the row, or leaves it when the write fails |
| ScanLoop.Repository.ClearCheckpoint | src/auto_scanner.rs:2504-2512 | removes the row, or leaves it when the write fails |
| ScanLoop.ResumeRefinesSingleRun | src/auto_scanner.rs:1107-1251 | over every trace of kills (after any effect, the final clear included), restarts and failing database calls, a scan that finishes reports the analysed count, cache hits, cost and halt flag of one uninterrupted run, and without a halt every file was attempted, and analysed unless its analysis fails |
| ScanLoop.AnalyzeIsTrace | src/auto_scanner.rs:1107-1251 | every run of the imperative scan is one of those traces |
| ScanLoop.ResumeForgetsIssues | src/auto_scanner.rs:1107-1123 | over every trace of kills, restarts and failing database calls, the issue count falls short of a single run by exactly the issues before the last restart, so it agrees if and only if there were none |
| ScanLoop.RestartLosesIssue | src/auto_scanner.rs:1107-1123 | one file with one issue, killed behind it and restarted: the scan finishes and reports none |
| ScanLoop.ScanForgetsIssues | src/auto_scanner.rs:1107-1123 | the same for one scan: its issue count is that of a single run if and only if the files it skipped had no issues |
| ScanLoop.ResumeCoversExactly | src/auto_scanner.rs:2445-2456 | with or without a usable row, an unhalted scan has attempted all its files if and only if each skipped one was attempted before or comes again later |
| ScanLoop.HashMeansAnalysed | src/auto_scanner.rs:605-663 | where the commit hash is stored, the files that the loop leaves analysed include the whole list if and only if each visited file succeeded or had been analysed before, and each skipped one had been analysed before or was visited again with success |
| ScanLoop.HashMeansNoFailure | src/auto_scanner.rs:605-663 | from any database that scans of the same list left, with any kills and failing calls, a stored hash means all files analysed if and only if no analysis fails |
| ScanLoop.HashStoredOverFailure | src/auto_scanner.rs:605-663 | a scan whose only file fails stores the hash and leaves the file unanalysed |
| ScanLoop.EqualLengthIsNotEnough | src/auto_scanner.rs:2445-2456 | a scan killed behind its first file, then the same two files in the other order: from the database so reached, one file is never analysed although nothing halted |
| ScanLoop.BudgetBound | src/auto_scanner.rs:1136-1150 | a scan begun without a usable checkpoint, however often restarted, ends below budget plus the largest single cost, and halts only at or over budget |
| ScanLoop.HaltLeavesSpentCheckpoint | src/auto_scanner.rs:1136-1150 | a halted scan whose saves worked leaves an over-budget row with files to go |
| ScanLoop.StuckIffSpent | src/auto_scanner.rs:605-608 | a scan halts with the tally it began with if and only if it loads an over-budget row with files to go |
| ScanLoop.SecondScanIsStuck | src/auto_scanner.rs:605-608 | two files and a budget that the first one uses up, from an empty database: the second scan halts at once, and the second file is never attempted |
| ScanLoop.SpentCheckpointSticks | src/auto_scanner.rs:605-608 | after that, every later scan of as many files, whichever they are, analyses nothing, halts and changes nothing |
| QueryTemplates.Render | src/query_templates.rs:428-458 | the replacement loops give `RenderIn`, the specification, for some order of the defaults |
| QueryTemplates.RenderMap | src/query_templates.rs:461-465 | rendering from a map is rendering from some enumeration of it |
| QueryTemplates.RendersAtOnceIff | src/query_templates.rs:428-458 | for all literals, values and defaults, brace-free names and every order: the result is the one-pass substitution if and only if all required variables are given and that text has not both kinds of braces |
| QueryTemplates.RenderFails | src/query_templates.rs:431-456 | it fails by naming the first required variable that is not given, and as unresolved only when none is missing |
| QueryTemplates.SequentialIsSimultaneous | src/query_templates.rs:428-458 | when the literals, values and defaults used lack one kind of brace, for every order: success if and only if all required variables are given and every placeholder has a value or a default, and the result is the one-pass substitution |
| QueryTemplates.RenderMapIgnoresOrder | src/query_templates.rs:461-465 | whichever way the hash maps are enumerated, the one-pass text is the same and is rendered in one order if and only if in every other; where the literals used lack one kind of brace, the whole result is the same |
| QueryTemplates.BracesInValuesAreResubstituted | src/query_templates.rs:439-443 | otherwise the order can matter: a value with both braces is substituted again in one order and makes the other fail |
| QueryTemplates.ReplaceFills | src/query_templates.rs:439-443 | one string replacement fills exactly the placeholders of its name, with any text, when the literals lack one kind of brace |
| QueryTemplates.VarsFill | src/query_templates.rs:439-443 | the loop over the variables fills every placeholder that has one |
| QueryTemplates.DefaultsFill | src/query_templates.rs:445-451 | the loop over the defaults fills what remains |
| DirectoryTree.BuildNode | src/directory_tree.rs:59-93 | the built node, or None for an unreadable source file, is `Build` of what is on disk |
| DirectoryTree.AnalyzeDirectory | src/directory_tree.rs:134-185 | the node gets the sorted children and the aggregate of their counts and times |
| DirectoryTree.AggregateChildren | src/directory_tree.rs:160-180 | the loop computes the aggregate of all children |
| DirectoryTree.BuiltInOrder | src/directory_tree.rs:152-158 | everywhere in a built tree directories come before files and both are in the order of their names, and sorting loses nothing |
| DirectoryTree.BuildConserves | src/directory_tree.rs:160-180 | every directory's counts are the sums over the files below it and its time is their latest |
| DirectoryTree.CountersAreTotals | src/directory_tree.rs:160-171 | in every directory of a tree each of the nine counters is the sum of that counter over the files below |
| DiskTree.TreeMirrorsDisk | src/directory_tree.rs:59-150 | a path is that of a file or directory of the tree if and only if it leads to one on the disk, through entries none of which is excluded, that is not an unreadable source file; a source file has its numbers and its time, any other file none |
| DiskTree.LeavesAreFiles | src/directory_tree.rs:77-91 | the files that conservation adds up are exactly the files in the tree |
| DirectoryTree.AttachTags | src/directory_tree.rs:205-232 | tagging overwrites tag counts bottom up, as `Attach` |
| DirectoryTree.AttachKeeps | src/directory_tree.rs:205-232 | tagging keeps conservation everywhere and changes nothing but tag counts |
| DirectoryTree.TagsOfFiles | src/directory_tree.rs:205-232 | with distinct file paths a node counts exactly the tags whose file is below it |
| DirectoryTree.CountOnIsSize | src/directory_tree.rs:209-211 | that count is the number of places in the tag list with such a file |
| DirectoryTree.TreeConserves | src/directory_tree.rs:160-232 | conservation before and after tagging for every tree on disk, and the root's tag count |
| StableSort.SortIsSorted | src/directory_tree.rs:297-298 | sorted descending, and a permutation |
| StableSort.SortIsStable | src/directory_tree.rs:297-298 | an element that is at least as large and comes earlier stays ahead |
| StableSort.LargestKept | src/directory_tree.rs:297-300 | truncation keeps the largest: nothing omitted exceeds anything kept |
| Hotspots.CollectHotspots | src/directory_tree.rs:304-321 | appends all nodes with issues, directories and files, in preorder to the caller's vector |
| Hotspots.CollectedIff | src/directory_tree.rs:304-316 | exactly the nodes with issues are collected, files included, each with its own numbers and the sum of the four severities |
| Hotspots.FindHotspots | src/directory_tree.rs:293-301 | the collection, stably sorted and truncated |
| Hotspots.AncestorCollected | src/directory_tree.rs:304-321 | every ancestor of a collected node was collected before it with at least its total |
| Hotspots.CollectedOnce | src/directory_tree.rs:304-321 | nothing is collected twice |
| Hotspots.HotspotsIncludeAncestors | src/directory_tree.rs:293-321 | for every limit, a reported node's ancestors are all reported, ahead of it |
| Hotspots.HotspotsAreLargest | src/directory_tree.rs:293-301 | the report is sorted, has min(limit, all) entries, and nothing omitted has more issues than anything reported |
| Hotspots.BuiltTreesQualify | src/directory_tree.rs:59-185 | every built tree, tagged or not, meets the premises of the two theorems above |
| Hotspots.BuiltTreesCountTags | src/directory_tree.rs:205-232 | in a tree built from disk all file paths differ, so the root counts exactly the tags whose file is in the tree |
| AsciiTree.RenderAsciiNode | src/directory_tree.rs:331-394 | appends the rendering of the subtree down to the depth limit |
| AsciiTree.RenderChildren | src/directory_tree.rs:380-393 | appends the renderings of all children, the last with the closing branch |
| AsciiTree.NodeLine | src/directory_tree.rs:343-377 | the line is prefix, branch and label with its indicators |
| AsciiTree.ToAsciiTree | src/directory_tree.rs:324-329 | renders the root with levels 0 to the limit |
| AsciiTree.RenderIsLines | src/directory_tree.rs:331-394 | the rendering is the text of its line structures, cell by cell |
| AsciiTree.AsciiTreeLines | src/directory_tree.rs:331-394 | exactly one line for every node that lies within the limit and below directories only, in preorder, with one cell per ancestor and its own label |
| AsciiTree.FlagsMeanLastChild | src/directory_tree.rs:331-394 | cell j is blank if and only if the ancestor at depth j is a last child |
| AsciiTree.AsciiTreeIsFaithful | src/directory_tree.rs:324-394 | with newline-free names the depth-limited tree of labels is recovered from the text |
| TreeCaptions.Picture | src/directory_tree.rs:344-392 | the drawing of a tree that has all kinds of branches and guides, character by character |
| TreeCaptions.CaptionTells | src/directory_tree.rs:347-373 | kind, name and the four printed numbers can be read from a caption when no name contains what looks like an indicator |
| TreeCaptions.CaptionAmbiguous | src/directory_tree.rs:353-373 | two files with one caption, where a name does |
| TreeCaptions.DecimalReads | src/directory_tree.rs:359-372 | the printed digits stand for the number |
| RankFusion.MergeResults | src/search.rs:430-474 | for all lists and every order of the hash map, a complete `IsMerge`: no duplicate ids, sorted, exact length, exact fused scores and fields, and no omitted id above a kept one; with distinct ids each score is w.semantic / (61 + s) for place s of the semantic list plus w.keyword / (61 + k) for place k of the keyword list |
| RankFusion.MergedOfDistinct | src/search.rs:437-473 | with distinct ids a score is the sum of the two weighted reciprocal ranks, and the fields are those of the semantic result, marked, or else of the keyword result |
| RankFusion.ScoresAreFused | src/search.rs:440-466 | with distinct ids every result of a merge has that score and the fields of the semantic result with the keyword marks, or of the one result there is |
| RankFusion.AddSemantic | src/search.rs:440-443 | the first pass holds exactly the semantic scores |
| RankFusion.AddKeyword | src/search.rs:446-457 | the second pass holds exactly the fused scores and merged results |
| RankFusion.AddOne | src/search.rs:449-456 | a known id gains score and keyword marks, a new one is inserted |
| RankFusion.CollectScores | src/search.rs:460-466 | every entry comes out once, in an order left open |
| RankFusion.KeepTop | src/search.rs:468-473 | sorting and truncating any complete merge gives `IsMerge` |
| RankFusion.Dominance | src/search.rs:437-473 | with positive weights an id no worse in both lists and better in one scores strictly higher, and precedes the other in every merge that has it |
| RankFusion.FlagsTellMembership | src/search.rs:335-351 | in a hybrid search the match flags equal membership of the lists |
| RankFusion.TermDecreases | src/search.rs:441-447 | the term of a rank is positive and strictly decreasing |
| GatedPasses.PassIsSafe | src/sync_scheduler.rs:112-132 | for every interleaving, with outside lock users: permits within the limit, at most one sync under the lock and none beside an outsider, no id started twice, at most five steps per task |
| GatedPasses.NoDeadlock | src/sync_scheduler.rs:112-160 | with a permit to give, some task can move until all are joined or an outsider has the lock |
| GatedPasses.PassCompletes | src/indexing.rs:387-450 | a run that cannot go on has started and joined every id exactly once, kept exactly the successes and returned every permit |
| GatedPasses.NoPermitsNoProgress | src/sync_scheduler.rs:112-122 | with a limit of 0 no run takes a single task step |
| GatedPasses.CompletesIffPermits | src/sync_scheduler.rs:112-160 | some run completes if and only if the limit is positive or nothing is due |
| GatedPasses.RunKeepsInv | src/sync_scheduler.rs:112-160 | the invariant over every run, with a measure that each task step decreases |
| GatedPasses.StartsCounted | src/sync_scheduler.rs:121-132 | a task is past its start exactly as often as it was started |
| TaskWatcher.Watcher.ScanAndProcess | src/task_watcher.rs:113-206 | the seen set and the sent files are those of `ScanOnce`; an error if and only if the directory cannot be listed |
| TaskWatcher.Watcher.Watch | src/task_watcher.rs:97-110 | the watch loop, for any number of ticks |
| TaskWatcher.Delivery | src/task_watcher.rs:97-206 | over every sequence of scans: at most one delivery per path; for every seen path there is the entry that settled it, unseen right before it and seen right after, and the path is delivered if and only if that entry parsed; all visible files settled after a completed scan |
| TaskWatcher.ScanTreats | src/task_watcher.rs:122-203 | one scan, file by file: an unseen file is sent exactly if it is a regular file outside the results directory with extension json in any case, parses, and its send works; it stays unseen exactly if it is none or only its send fails |
| TaskWatcher.TaskFilesAreSeen | src/task_watcher.rs:97-206 | over all scans, what was sent is such a file that parsed, and after a scan in which nothing fails every such file is seen |
| TaskWatcher.ScanAllKeeps | src/task_watcher.rs:97-206 | seen and sent only grow, and every newly seen path was settled by one entry, unseen right before and seen right after, and sent if and only if it parsed |
| TaskWatcher.ScanFromKeeps | src/task_watcher.rs:122-203 | the same within one scan |
| TaskWatcher.UnsettledFailed | src/task_watcher.rs:186-192 | a visible file left unseen parsed and its send failed |
| TaskPipeline.TaskExecutor.ExecuteReal | src/task_executor.rs:248-473 | effects in order, and the result, as `RealRun` |
| TaskPipeline.TaskExecutor.ExecuteWithAgentTools | src/task_executor.rs:493-798 | effects in order, and the result, as `AgentToolRun` |
| TaskPipeline.TaskExecutor.ExecuteWithAgent | src/task_executor.rs:802-1123 | effects in order, and the result, as `AgentRunOnly` |
| TaskPipeline.TaskExecutor.ExecuteDryRun | src/task_executor.rs:85-203 | effects in order, and the result, as `DryRun`: a blank branch name is skipped, a failing branch tolerated |
| TaskPipeline.TaskExecutor.Serve | src/server.rs:499-548 | the dispatch between the four entry points |
| TaskPipeline.TaskExecutor.RunTests | src/task_executor.rs:1308-1361 | passes if and only if every suite that ran reported no failure |
| TaskPipeline.TaskExecutor.Publish | src/task_executor.rs:369-473 | tests, push, pull request, labels and auto-merge in that order, each only after the one before |
| TaskPipeline.PipelineIsSafe | src/server.rs:499-548 | for every dispatch and every failure: a push only after clone, branch, staging, commit attempt and passing tests (and approval on agent paths), a pull request only after a push, auto-merge only after a pull request and on request, no failed result names a pull request, the result file attempted once and last on the three asynchronous paths, nothing published by a dry run |
| TaskPipeline.RealRunIsSafe | src/task_executor.rs:248-473 | the same for the real run |
| TaskPipeline.AgentToolRunIsSafe | src/task_executor.rs:493-798 | the same for the agent with tools |
| TaskPipeline.AgentRunOnlyIsSafe | src/task_executor.rs:802-1123 | the same for the text-only agent, with or without a token |
| TaskPipeline.RunsSucceedIff | src/task_executor.rs:248-1123 | exactly when each of the three paths succeeds, and that success means an opened pull request, except on the text-only path without a token |
| TaskEffects.EffectsAreExact | src/task_executor.rs:248-1123 | on each of the three paths every effect (clone, branch, agent, stage, commit, tests, push, pull request, labels, auto-merge, result file) happens exactly under its conditions and with its outcome, at most once, and in its place |
| TaskEffects.AutoMergeIff | src/task_executor.rs:1429-1457 | auto-merge is started exactly for an opened pull request of a task that asks for it, labels are set exactly on an opened one of a task that has some, and nothing happens twice |
| TaskEffects.ResultsAreExact | src/task_executor.rs:258-294 | every field of the result on each path: the opened pull request, success, the trace, and status and test summary of each step |
| TaskEffects.DryRunIsExact | src/task_executor.rs:85-203 | effects and result of a dry run |
| TaskEffects.DispatchIsExact | src/server.rs:499-548 | for every dispatch, exactly when something is pushed and when the agent is used |
| TaskPipeline.PushWithoutCommitOrTests | src/task_executor.rs:298-473 | on each of the three paths, the exact conditions for pushing, for pushing without a successful commit before it, and for pushing although no test suite ran |
| TaskPipeline.OwnerRepoIffSplit | src/task_executor.rs:1232-1243 | a name is accepted if and only if it is a slash-free owner, a slash and a name, none empty, and those are returned |
| Utf8Truncation.BackUp | src/auto_scanner.rs:1821-1830 | the loop stops within three bytes at the longest valid prefix, and the rest is valid too |
| Utf8Truncation.PreviewBoundary | src/auto_scanner.rs:2013-2022 | the preview boundary is the longest valid prefix of at most 2000 bytes, and no shorter than 1997 for longer texts |
| Utf8Truncation.Truncate | src/code_review.rs:835-845 | a short string is unchanged; a long one is its longest valid prefix and an ellipsis, which is valid UTF-8 |
| Utf8Truncation.BoundaryIsBetween | src/auto_scanner.rs:1821-1830 | the one-byte boundary test is right: it holds exactly between two characters |
| Utf8Truncation.BetweenSplits | src/auto_scanner.rs:1821-1830 | cutting there leaves two valid strings |
| Utf8Truncation.ValidPrefixIsBetween | src/auto_scanner.rs:1821-1830 | and every valid prefix ends there |
| Utf8Truncation.NearBoundary | src/auto_scanner.rs:1821-1830 | there is one at most three bytes back, for every position |
| CargoRoots.FilterRoots | src/formatter.rs:517-546 | exactly the directories without a proper ancestor in the list: an antichain that covers the list |
| CargoRoots.FindCargoWorkspaces | src/formatter.rs:482-546 | from the manifests: exactly the directories with a manifest outside build, package and Git directories that have no such proper ancestor, looking at workspaces only if there are any |
| CargoRoots.ChildIffNotMinimal | src/formatter.rs:521-525 | looking at the roots found so far decides minimality, because ancestors are shallower |

## Left out

- Characters, not bytes: the JSON scanner and the extractors index characters. The source's byte indices only ever fall on ASCII delimiters.
- JsonGrammar.ReadsBack: the depth limit and the number ranges of the parser behind the source are not modelled, so a text nested deeper than that parser allows, or with a number too large for it, reads here and not there. The same holds for the other results about reading.
- JsonGrammar.ReadsValue: the same limits of the parser are not modelled.
- JsonReader.ParseDecides: decides the grammar of RFC 8259 with paired surrogates, and not those limits.
- The typed fields that a parsed answer is read into are not modelled.
- `JsonExtraction` gives `None` where the refactoring assistant's slice would panic.
- Floating point: costs, weights and scores are reals, without rounding, NaN or infinities.
- The outcome of analysing a file is a function of its path, so that a run and its resumption see the same costs and cache hits.
- What comes before the scan loop (diffing, skip patterns, the file cache) and what surrounds it (progress rows, project reviews, logging) is not modelled; the file list is an input in any order.
- ScanLoop.Repository.CheckAndScan: the cache, the time stamp and the hash write are single succeed-or-fail outcomes.
- Directory trees are values owned by their parents, as in the source; updating a node in place becomes returning the new node. File contents, line counting, pattern-based issue detection, the exclusion patterns, node status and the text of tags are inputs or absent. Modification times are not negative.
- Names are compared by code point, which is the order of their UTF-8 bytes. A path is the sequence of its components.
- The hotspot's score and the colours of issues are reduced to the totals that are sorted by and printed.
- Search SQL, cosine similarity, filters and `SearchStats` are not modelled; merging copies fields it does not touch.
- The due filter and the clock of the sync pass are not modelled: a pass has a number of due ids. The batching and embedding inside `index_document` are not modelled.
- GatedPasses.NoDeadlock: an outside holder of the write lock that never gives it back blocks a pass; nothing is claimed about that.
- TaskPipeline: the files an agent edits, the text of commits and pull requests, durations, step outputs and the auto-merge poller are absent. A GitHub client or pull request that fails is one outcome each.
- TaskWatcher.Watcher.Watch: the source's loop never ends; the model runs it for any finite number of ticks, with one snapshot of the directory per scan.
- Histogram quantiles and the metrics registry, template search, prompt and Markdown text, HTTP routes, quotas and score formulas would only add simple members.
