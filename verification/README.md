# LocalReview: a verified model

LocalReview captures a changing Git worktree as an immutable review and shows it through derived views. Nearly all its hard
promises say that a derived, cached, windowed or retried form agrees with a simple one. This project states those promises
about a Dafny model of the code and proves them. `dafny verify dfyconfig.toml` checks everything.

| module | what it models |
|---|---|
| `Document`, `HunkContents`, `FullFile`, `SplitRows` | the canonical diff document, what its hunks show, the two full-file views rebuilt from hunks alone, and side-by-side rows |
| `GitQuoting`, `HunkHeaders`, `PatchParser` | Git's path quoting, hunk headers and the stateful patch parser |
| `PatchRoundTrip`, `GitPatch` | a printer that the parser inverts, and what the parser makes of patches in Git's own form |
| `CoherentCapture` | the double collect that reads a worktree piece by piece while others write |
| `RequestLoop` | the companion's reader thread, worker threads, registry and cancel flags, in every interleaving |
| `SourceWindow`, `Companion`, `RemoteSource` | streamed line windows of files and Git objects, the capture list with its eviction, and the desktop's loop that joins windows from any peer |
| `WorktreeStores`, `WorktreeRepair`, `WorktreePool` | the managed worktree pool over registry file, disk and Git's lists, with crashes and meddling users: its stores, what a repair does to them, and the pool itself |
| `HighlightSpans`, `TokenLookup`, `HighlightCache` | highlight events to spans, span lookup by ranges, the weighted LRU and the service before it |
| `Difftastic` | the normaliser of the structural diff tool's output |
| `Discovery`, `RawManifest` | the breadth-first search for repositories, and Git's raw manifest with its two parsers |
| `Ordering`, `KeyedQueue`, `Words`, `Wrappers` | sorting, a map with a queue of its keys, words and white space, options and results |

Loops and objects that the program changes in place are methods and classes here, each tied to a function or predicate; the
theorems are lemmas about those. The request loop is a state machine over its atomic steps. In the worktree pool the method
`Boundary` stands before each command and between any two of its steps: there users may change, delete or create directories, and
the run may stop for good. A run with `quiet` set is one in which neither happens. The pool's `log` records status checks, what
users did at each boundary, and the directories added and removed; replaying it gives the directories there are.

Assumed contracts: an edit script walks both sources in order, with equal lines outside its groups and context around every
change where there is any (`Document.Conforms`); hashes are injective; a parse is a function of source and language whose source
events come in order; `git worktree remove` without force refuses a worktree that belongs to another repository and fails on a
path the repository does not list; `git worktree prune` drops exactly the entries whose path holds no linked worktree; `git cat-file` that
succeeds has printed the whole object. Whether `git worktree remove` also refuses a dirty worktree is a parameter of the pool,
`refuses`. How Git writes paths in a patch is taken from `quote_c_style` and the name lines of `git diff` with its default `core.quotePath`.

Results that a reader of the code may not expect:

* A patch whose hunk removes a line beginning with `-- ` or adds one beginning with `++ ` is not read back, because a line is
  taken for a file header before it is taken for a hunk line. When paths with spaces are quoted that is the only obstacle
  (`PatchRoundTrip.PatchRoundTrips`).
* Git does not quote them. In its own form a name line with a space ends in a tab, which the parser keeps in the path
  (`GitPatch.TabStays`); the `diff --git` line is split at white space, so runs of spaces, a trailing space and a word beginning
  with `b/` in the old path are misread; four control characters are escaped by letters that the tokenizer takes for
  themselves; and an empty file that was added or deleted is read as modified. `GitPatch.GitPatchReadsBack` says exactly when a
  patch is read back, and what is read otherwise.
* A capture is the state of one instant if nothing that the accepted attempt reads returned, during that attempt, to a value it
  had left (`CoherentCapture.AcceptedIsCoherent`). When files do return, it can be torn (`CoherentCapture.ReturningValuesCanTear`),
  and no attempt can tell: each accepted one looks the same in a history in which its capture describes no instant
  (`CoherentCapture.AnyAttemptCanBeTorn`).
* An undisturbed repair of the pool can end normally and leave the listing of a worktree that is gone
  (`WorktreePool.StaleListingSurvives`); it leaves only dirty orphans if and only if it started from a `Sweepable` state. It can
  also stop with an error: when one repository lists two worktrees that are gone (`WorktreePool.TwoGoneOrphansStopTheRepair`),
  because pruning after the first forgets the second, and when the mirror lists a clean directory that belongs to a known clone
  no record names (`WorktreePool.DisputedDirectoryStopsTheRepair`). It ends normally if and only if the state is `Repairable` and
  `Yielding`. Histories of the pool's own steps lead to all three states.
* Trying such a repair again helps with the first kind of error and, once no record is missing, never with the second: enough
  undisturbed repairs end normally if and only if the state becomes `Yielding`, and when no record is missing it is so from the
  start or never (`WorktreePool.RepositoryPool.RepairUntilDone`).
* The status check alone does not keep a dirty worktree: a write between it and the removal is lost unless Git itself refuses
  (`WorktreePool.LateWriteIsLost`).
* A job keeps its id until its worker has removed the entry, which is after its response was written: till then a request that
  reuses the id is refused (`RequestLoop.AnsweredIdRefused`), and a cancel is acknowledged although it comes too late
  (`RequestLoop.AnsweredJobCancelled`).
* The flat alignment of a structural result can go back although the upstream alignment does not, when the chunks come in another
  order (`Difftastic.ChunksOutOfOrder`).
* A structural chunk of a single row is never looked up in the alignment, because the lookup happens inside the comparisons of a
  sort (`Difftastic.LoneRowIsNotLookedUp`).
* A submodule entry with an unknown status letter is accepted by the companion's manifest parser and refused by the local one
  (`RawManifest.UnknownLetterOfSubmodule`).
* Past 2^32 - 1 lines a window says `end_of_file` too early (`SourceWindow.HugeSourceEndsEarly`).

## Model

| member | source | states |
|---|---|---|
| Document.SplitThenJoin | crates/diff/src/lib.rs:47-66 | splitting a source into lines with newline flags loses no byte |
| Document.JoinThenSplit | crates/diff/src/lib.rs:47-66 | and every separable list of lines is read back from its text |
| Document.NewlineFlags | crates/diff/src/lib.rs:386-405 | the newline flag a full-file row computes from position and final newline is the line's own |
| Document.BuildGroup | crates/diff/src/lib.rs:194-312 | one pass over a group gives its rows, its header and its changed lines; `HunkContents.HunkShowsItsLines` says, in terms of the sources, what these are |
| Document.DocumentFromSources | crates/diff/src/lib.rs:180-325 | the loop over groups builds the document that the theorems below are about; `HunkContents` says what it shows of the two sources |
| HunkContents.HunkShowsItsLines | crates/diff/src/lib.rs:194-312 | the rows of every hunk are, on each side, exactly the source lines that its header counts, in order, with their numbers, texts and newline flags; a context row has both cells, a removal the old one and an addition the new one |
| HunkContents.ChangedLinesAreShown | crates/diff/src/lib.rs:205-309 | the changed lines of a side are exactly the numbers of the removals, or additions, that the hunks show |
| HunkContents.HunksArePatch | crates/diff/src/lib.rs:180-325 | the hunks are a patch: replacing the lines they show of the old source by the lines they show of the new one gives the new source, and the reverse gives the old one |
| HunkContents.ScriptsExist | crates/diff/src/lib.rs:180-199 | any two sources have an edit script as the theorems ask for |
| FullFile.FullFileCurrentRows | crates/diff/src/lib.rs:417-470 | buckets filled from the hunks and woven into the current source are the view studied below |
| FullFile.FullFileBaseRows | crates/diff/src/lib.rs:477-524 | the same for the base source |
| FullFile.AnchorIs | crates/diff/src/lib.rs:428-458 | the anchor computed from next line, previous line or header is the true position of the change in the script |
| FullFile.ChangedExactly | crates/diff/src/lib.rs:386-405 | a line is marked changed exactly when its own change is one-sided |
| FullFile.LonelyGroup | crates/diff/src/lib.rs:417-524 | a group without lines on one side is the whole script, so the header fallback is only used on an empty side |
| FullFile.ViewRendersScript | crates/diff/src/lib.rs:417-524 | both views, built from hunks alone, equal the direct rendering of the whole edit script |
| FullFile.ViewRecoversBothSources | crates/diff/src/lib.rs:417-524 | dropping the re-inserted rows leaves exactly one source, dropping the own changed rows exactly the other, byte for byte |
| FullFile.BaseAndCurrentAgree | crates/diff/src/lib.rs:417-524 | the two views have equal length and agree row by row; unchanged rows name the two lines of one equal pair |
| FullFile.HeaderNamesItsLines | crates/diff/src/lib.rs:180-325 | a header names exactly the lines its hunk covers, and for an empty range the line it follows |
| SplitRows.BuildSplitRows | crates/diff/src/lib.rs:589-623 | the loop with two pending lists computes the split rows studied below |
| SplitRows.ProjectionsPreserved | crates/diff/src/lib.rs:589-623 | each side keeps all its cells in order |
| SplitRows.ContextSeparates | crates/diff/src/lib.rs:589-623 | no pairing crosses an aligned line |
| SplitRows.BlockPairsInOrder | crates/diff/src/lib.rs:589-623 | a block gives max(removals, additions) rows, the k-th removal beside the k-th addition |
| SplitRows.SplitInvertible | crates/diff/src/lib.rs:589-623 | split rows can be turned back exactly when every block lists removals before additions |
| GitQuoting.ParseGitHeaderTokens | crates/diff/src/lib.rs:910-976 | the index-based tokenizer computes the token list |
| GitQuoting.TokenizerInverts | crates/diff/src/lib.rs:910-976 | every list of quoted and plain tokens is recovered from its text |
| GitQuoting.DecodeGitQuotedPath | crates/git/src/lib.rs:1763-1808 | the porcelain decoder decodes exactly what stands between the quotes |
| GitQuoting.PorcelainDecoderInverts | crates/git/src/lib.rs:1763-1808 | it inverts every quoting with named and three-digit octal escapes |
| GitQuoting.EscapeMeans | crates/diff/src/lib.rs:937-961 | what each escape means in a header: three octal digits saturate at 255 and fewer are an error |
| GitQuoting.DecodedEscape | crates/git/src/lib.rs:1776-1806 | what each escape means in a porcelain path: three octal digits wrap at 256 and fewer stand for themselves |
| SplitRows.DocumentSplits | crates/diff/src/lib.rs:589-623 | the split rows of every hunk of a document keep both sides' cells in order and can be turned back exactly as above |
| HunkHeaders.HeaderReadWhen | crates/diff/src/lib.rs:984-1030 | for every line, whether it is read as a hunk header and as which one: ranges, optional counts, and the context after the mark |
| HunkHeaders.HeaderRoundTrip | crates/diff/src/lib.rs:984-1030 | parsing a printed hunk header gives the header back, whether counts of one are written or left out |
| PatchParser.PatchFileBuilder.Push | crates/diff/src/lib.rs:682-756 | one hunk line takes the builder to `PushHunkLine`; `PatchRoundTrip.PushTerminated` says that this adds the row at the next line of each side, its text to the snippets and its line to the changed set |
| PatchParser.PatchFileBuilder.MarkMissingNewline | crates/diff/src/lib.rs:758-795 | the marker takes the builder to `MarkLastLine`; `PatchRoundTrip.MarkPushed` says that this is the state had the row been pushed without a newline |
| PatchParser.PatchFileBuilder.CloseHunk | crates/diff/src/lib.rs:797-812 | closing takes the builder to `FinishActiveHunk`; `PatchRoundTrip.ClosedWhen` says when a hunk is closed and with which error it is refused else |
| PatchParser.ParseUnifiedPatch | crates/diff/src/lib.rs:331-383 | the parser object, fed line by line, computes the parse studied below |
| PatchRoundTrip.TextParses | crates/diff/src/lib.rs:331-383 | a patch text is read as the files its headers say with the hunks printed, and with a row that collides with a file header it is an error |
| PatchRoundTrip.PatchParses | crates/diff/src/lib.rs:331-383 | the same for a patch that has lines without meaning anywhere between those lines |
| PatchRoundTrip.SameMeaning | crates/diff/src/lib.rs:337-375 | two patches that differ only in lines without meaning are parsed alike |
| PatchRoundTrip.GitHeadersAreInert | crates/diff/src/lib.rs:350-375 | the index, mode, similarity, copy and binary lines of Git mean nothing to the parser, whatever they say |
| PatchRoundTrip.PreambleIsSkipped | crates/diff/src/lib.rs:347-349 | whatever stands before the first `diff --git` line is skipped |
| PatchRoundTrip.PatchRoundTrips | crates/diff/src/lib.rs:331-383 | printing any documents with quoted paths and parsing gives them back, exactly when no row collides with a file header, and else an error |
| GitPatch.NamesReadWhen | crates/diff/src/lib.rs:867-885 | Git's `diff --git` line can always be read, and when it gives the old path and the new one back |
| GitPatch.NameParses | crates/diff/src/lib.rs:887-906 | what a name line in Git's form is read as: a bare path with a space keeps the tab after it |
| GitPatch.SpacedNameKeepsTab | crates/diff/src/lib.rs:362-368 | so every bare path with a space on a name line sets the path to itself and a tab |
| GitPatch.TabStays | crates/diff/src/lib.rs:362-368 | `+++ b/x y` with its tab sets the path "x y" with a tab |
| GitPatch.GitPatchReadsBack | crates/diff/src/lib.rs:331-383 | a patch in Git's own form, with further header lines of Git anywhere in it, is read back exactly when no row collides and every file is readable; what is read in the other cases |
| CoherentCapture.CaptureLocalComparison | crates/git/src/lib.rs:471-488 | earlier attempts were contradicted, and the last one accepted, or met a file that is not regular and names it, or three were contradicted; an accepted capture portrays the state of one instant of its attempt if nothing that the attempt read returned to an earlier value meanwhile |
| CoherentCapture.DescribesIsPortrayal | crates/git/src/lib.rs:490-561 | a capture describes an instant exactly when it portrays that state: head, status and patches, every manifest entry in order with the content of a regular file and none for a gitlink, a deletion or a missing file, and exactly the untracked files with their contents |
| CoherentCapture.CaptureOnce | crates/git/src/lib.rs:490-561 | one collect reads the components in this order and fails on an unreadable file |
| CoherentCapture.StillCurrent | crates/git/src/lib.rs:563-617 | the recheck reads everything again and stops at the first difference |
| CoherentCapture.AcceptedWhen | crates/git/src/lib.rs:563-617 | a recheck accepts exactly when the head fits and each read sees what the same read of the collect saw |
| CoherentCapture.DescribesWhen | crates/git/src/lib.rs:471-617 | a capture describes an instant exactly when the head fits and everything read had the value it was read with |
| CoherentCapture.AcceptedIsCoherent | crates/git/src/lib.rs:471-617 | the first read of the recheck is an instant the capture describes, if no component the attempt reads returned to an earlier value during it |
| CoherentCapture.RejectionHasACause | crates/git/src/lib.rs:471-617 | a rejected attempt met another head, or one of the reads it made saw another value the second time |
| CoherentCapture.ReturningValuesCanTear | crates/git/src/lib.rs:471-617 | a run in which files that are read return to earlier values has an accepted capture that describes no instant |
| CoherentCapture.OnlyReadsAreSeen | crates/git/src/lib.rs:471-617 | whatever is written between the reads of a component leaves an accepted attempt accepted, with the same capture |
| CoherentCapture.AnyAttemptCanBeTorn | crates/git/src/lib.rs:471-617 | every accepted attempt looks the same in a history in which its capture describes no instant |
| RequestLoop.RunKeeps | crates/cli/src/main.rs:1262-1412 | every state of every interleaving satisfies the invariant of frames, responses, registry and cancels |
| RequestLoop.AtMostOneResponse | crates/cli/src/main.rs:1262-1412 | a frame gets at most one response, with the id and generation of the request, or "invalid-message" and 0 for a frame that is none, and of a kind it can get |
| RequestLoop.Conservation | crates/cli/src/main.rs:1262-1412 | frames read = responses sent + responses lost + workers still to respond + a frame being handled |
| RequestLoop.ReleasesItsOwn | crates/cli/src/main.rs:1401-1409 | a worker removes its own registry entry and no other live job loses its entry |
| RequestLoop.FlagsHitTheNamedJob | crates/cli/src/main.rs:1315-1352 | a cancel flag is only set on the newest job with the named id and the same generation, never on a later one |
| RequestLoop.AcknowledgedCancelsAreSet | crates/cli/src/main.rs:1315-1335 | an acknowledged cancel did set the flag of such a job |
| RequestLoop.RefusedWhileLive | crates/cli/src/main.rs:1354-1383 | a valid request for work is refused exactly while a job with its id is live, one that has responded but was not released included |
| RequestLoop.CancelledWhileLive | crates/cli/src/main.rs:1315-1352 | a valid cancel sets a flag exactly while a job with the id and generation it names is live |
| RequestLoop.AnsweredIdRefused | crates/cli/src/main.rs:1354-1409 | for all such inputs, a run that refuses a request reusing the id of a job whose response was written before |
| RequestLoop.AnsweredJobCancelled | crates/cli/src/main.rs:1315-1409 | for all such inputs, a run that acknowledges a cancel of a job whose response was written before |
| RequestLoop.RunsAreBounded | crates/cli/src/main.rs:1262-1412 | no interleaving takes more than six steps a frame and one |
| RequestLoop.EveryFrameAnsweredOnce | crates/cli/src/main.rs:1262-1412 | a run of successful writes ends with exactly one response to every frame, with the same ids and generations |
| SourceWindow.StreamSourceWindow | crates/cli/src/main.rs:1735-1797 | the byte-by-byte scan computes the specified outcome, errors in the order they are met |
| SourceWindow.ChunksDoNotMatter | crates/cli/src/main.rs:1735-1797 | however the reader cuts the source, an undisturbed scan gives the same result |
| SourceWindow.FinishedStream | crates/cli/src/main.rs:1735-1797 | a finished window is the window of exactly the bytes streamed |
| SourceWindow.LinesAre | crates/cli/src/main.rs:1771-1774 | the lines of a source put together are the source, and newlines stand exactly at the ends of all lines, the last one's left open |
| SourceWindow.WindowMeans | crates/cli/src/main.rs:1735-1797 | when a window is served, with which error it is refused else, and that it holds the lines asked for with their terminators, the count of lines, the length and the digest of the whole source |
| SourceWindow.BinaryWhen | crates/cli/src/main.rs:1755-1771 | a source is called binary exactly when a NUL comes before the window overflows |
| SourceWindow.RangesConcat | crates/protocol/src/agent.rs:284-293 | adjacent ranges concatenate |
| SourceWindow.TilingIsWhole | crates/protocol/src/agent.rs:284-293 | windows from line 1 until `end_of_file` are the whole source exactly when the last one reached its last line |
| SourceWindow.HugeSourceEndsEarly | crates/cli/src/main.rs:1781-1796 | with 2^32 lines the saturated count makes a window end early |
| Companion.CaptureSnapshots.Insert | crates/cli/src/main.rs:1700-1709 | map and queue hold exactly the last four captures after an insert |
| Companion.RetainedExactly | crates/cli/src/main.rs:1663-1714 | a capture is served until four others were taken after it, and not longer |
| Companion.RetainedNeverChanges | crates/cli/src/main.rs:2113-2128 | a capture id never names another snapshot |
| Companion.ServedWindow | crates/cli/src/main.rs:2165-2262 | a served window of any revision is of the bytes that revision had at capture, and was asked for by the capture's own repository, generation and paths while it was retained |
| Companion.RequestDecides | crates/cli/src/main.rs:2165-2266 | which reason refuses a request, the first one first, and which commit or file is read otherwise |
| Companion.AgentServer.Register | crates/cli/src/main.rs:2113-2128 | a capture gets an id never used before and joins the list, whatever other workers insert between the drawing of its number and its own insertion |
| Companion.AgentServer.ReadSourceWindow | crates/cli/src/main.rs:2165-2262 | which guard refuses a request, in which order, and what is read otherwise; `Companion.RequestDecides` says so without the functions it calls, and `Companion.ServedWindow` what a served window is |
| Companion.ReadWorktreeSourceWindow | crates/cli/src/main.rs:3154-3214 | kind, length and hash of what was read must match the capture; `Companion.WindowIsOfCapturedBytes` and `Companion.UnchangedIsServed` say what is then served |
| Companion.NodeDecides | crates/cli/src/main.rs:3154-3214 | what each kind of node is answered for a captured file and for a captured link, and that a fault of the stream comes before a changed file |
| Companion.WindowIsOfCapturedBytes | crates/cli/src/main.rs:3154-3214 | whatever the file holds by now, a served window is the window of the bytes present at capture |
| Companion.ReadGitSourceWindow | crates/cli/src/main.rs:3224-3297 | a window of a commit is served only if the object is found and its printing succeeds; `Companion.CommittedWindow` and `Companion.CommittedIsServed` say what is then served |
| Companion.CommittedWindow | crates/cli/src/main.rs:3224-3297 | a served window of a commit is the window of the whole object |
| RemoteSource.ReadRemoteSource | src-tauri/src/controller.rs:6870-6966 | whatever the peer sends, a source is returned exactly when the replies echo the requests one after the other up to one that ends the source, agree on the whole, and join to bytes of its length and digest; else which error, by the first reply at fault |
| RemoteSource.ReadFromCompanion | src-tauri/src/controller.rs:6870-6966 | from the companion, a source returned is the captured one; an undisturbed read returns it exactly when it is readable, and the window budget never decides |
| WorktreePool.RepositoryPool.Upsert | crates/git/src/pool.rs:870-885 | a sorted registry stays sorted with each id once, and finds the new record and all others |
| WorktreePool.RepositoryPool.Remove | crates/git/src/pool.rs:887-898 | the same for removal |
| WorktreePool.RepositoryPool.Prepare | crates/git/src/pool.rs:132-190 | a known id is only looked up, whatever users do; a new record is for a worktree just added to the chosen repository; what a quiet prepare returns and changes, in all cases; it never removes anything |
| WorktreeStores.ChosenIsFirst | crates/git/src/pool.rs:404-419 | the repository chosen is the first known clone that is there and has the pinned commits, and else the mirror |
| WorktreePool.RepositoryPool.Delete | crates/git/src/pool.rs:216-254 | a dirty worktree is left alone, a clean one goes with its record and its listing; whatever users do, at most its own directory is removed, only after a status check that said nothing, and the record goes exactly when the delete ends normally, after its directory was removed or not there |
| WorktreePool.RepositoryPool.PrepareAgain | crates/git/src/pool.rs:128-148 | preparing twice with the same pins returns the same checkout and changes nothing |
| WorktreePool.RepositoryPool.PrepareThenDelete | crates/git/src/pool.rs:132-254 | a delete takes back everything the prepare before it did |
| WorktreePool.RepositoryPool.InspectOrphans | crates/git/src/pool.rs:259-298 | the report lists the records whose directory was gone when it was looked for, and exactly the unregistered managed worktrees, once each, by path and for one path by repository |
| WorktreeRepair.StableSort | crates/git/src/pool.rs:272-293 | sorting by path keeps the order in which the repositories were visited |
| WorktreePool.RepositoryPool.RepairOrphans | crates/git/src/pool.rs:303-362 | whatever users do, only unregistered directories found clean by the same command are removed, a record only goes if its directory was not there, and a repair that ends normally has seen the directory of every record it leaves and dealt with every orphan; a quiet one leaves exactly the stores before the first stuck orphan, ends normally exactly when the state is repairable and yielding, and then leaves only dirty orphans exactly when listings were sweepable |
| WorktreePool.RepositoryPool.RepairUntilDone | crates/git/src/pool.rs:303-362 | repeated quiet repairs end normally exactly when no disputed directory remains; with no record missing the start decides, and the repositories that list something gone bound the failing repairs |
| WorktreePool.RepositoryPool.RemoveUnusedMirror | crates/git/src/pool.rs:366-402 | in every run a mirror goes only when no record uses it and no worktree is linked to it, nothing else goes, and which error is returned else |
| WorktreePool.RepositoryPool.Run | crates/git/src/pool.rs:132-402 | over any run with stops and users before, between and inside commands, ids stay unique and sorted, the log replays to the directories there are, every directory removed had been found clean by the same command, and none is dirty if Git refuses those |
| WorktreeStores.WrittenBetween | crates/git/src/pool.rs:132-402 | in any history only users make a worktree dirty: no command of the pool does |
| WorktreeStores.DirtyExactlyWhenWritten | crates/git/src/pool.rs:227-238 | a directory so removed is dirty exactly when a user made it so between the status check and the removal |
| WorktreePool.LateWriteIsLost | crates/git/src/pool.rs:323-350 | without Git's refusal the check and removal of the pool take a directory away that was written to between the two |
| WorktreeRepair.SettledWhen | crates/git/src/pool.rs:303-362 | after a quiet repair every unregistered managed worktree is dirty if and only if every stale listing was sweepable |
| WorktreeRepair.RepairableWhen | crates/git/src/pool.rs:320-356 | no orphan is forgotten before its turn if and only if the orphans come in a good order |
| WorktreeRepair.YieldingWhen | crates/git/src/pool.rs:320-356 | no clean directory is met through another repository than its own, unless its own came first, if and only if the state is yielding |
| WorktreeRepair.RunsToTheEndWhen | crates/git/src/pool.rs:320-356 | no orphan gets stuck if and only if both hold |
| WorktreeRepair.StoresHalt | crates/git/src/pool.rs:320-356 | the turns before the first stuck orphan leave exactly the directories that were not cleared, and prune exactly the repositories that had one cleared |
| WorktreeRepair.DisputesStay | crates/git/src/pool.rs:303-362 | with no record missing, a repair that stops neither makes nor ends a dispute over a clean directory |
| WorktreeRepair.GoneShrink | crates/git/src/pool.rs:303-362 | and unless there is a dispute, it leaves fewer repositories that list something gone |
| WorktreePool.StaleListingSurvives | crates/git/src/pool.rs:303-362 | a state whose repair ends normally and leaves a stale listing |
| WorktreePool.StaleListingHistory | crates/git/src/pool.rs:132-362 | the pool's own steps lead to it, and the repair does so |
| WorktreePool.DisputedDirectoryStopsTheRepair | crates/git/src/pool.rs:320-356 | a repairable state with a clean directory of a clone that no record names, listed by the mirror too, is not yielding |
| WorktreePool.DisputedHistory | crates/git/src/pool.rs:132-362 | the pool's own steps lead to it, and the repair stops with an error however often it is tried |
| WorktreePool.TwoGoneOrphansStopTheRepair | crates/git/src/pool.rs:320-356 | a state with two gone orphans of one mirror is not repairable |
| WorktreePool.TwoGoneHistory | crates/git/src/pool.rs:132-362 | the pool's own steps lead to it, the repair stops with an error, and the second try ends normally |
| HighlightSpans.CompileEvents | crates/highlight/src/lib.rs:555-584 | the event loop with its stack computes the spans studied below |
| HighlightSpans.PushValidSpan | crates/highlight/src/lib.rs:1035-1065 | a valid span is added or lengthens the last one, an invalid one is dropped |
| HighlightSpans.CompilePreservesMeaning | crates/highlight/src/lib.rs:555-584 | the spans give every byte the class of the event stream and are in canonical form |
| HighlightSpans.SpansPaintBytes | crates/highlight/src/lib.rs:555-584 | a byte is in a span of a class exactly when a valid source event around it has that class as its innermost highlight still open, found by matching starts and ends; and the spans are the shortest list that says so |
| HighlightSpans.CanonicalIsUnique | crates/highlight/src/lib.rs:1035-1065 | spans in canonical form are determined by the classes of bytes |
| TokenLookup.TokensInByteRanges | crates/highlight/src/lib.rs:1597-1641 | sort, merge and binary search find exactly the spans overlapping some non-empty range, in order, once each, for any sorted and disjoint spans |
| TokenLookup.MergeRanges | crates/highlight/src/lib.rs:1608-1621 | merged ranges have gaps between them and want the same spans |
| HighlightCache.WeightedLru.Get | crates/highlight/src/lib.rs:1661-1669 | a hit gives the visible part of the entry and makes its key the most recent one |
| HighlightCache.WeightedLru.Insert | crates/highlight/src/lib.rs:1671-1690 | the recency queue lists the keys once each, the weight is the sum and fits, and nothing saturates |
| HighlightCache.InsertKeepsLongestSuffix | crates/highlight/src/lib.rs:1671-1690 | an accepted insert keeps its key and exactly the longest most recent part that fits |
| HighlightCache.TouchedMoves | crates/highlight/src/lib.rs:1661-1669 | a hit moves its entry to the recent end and leaves the order of the others |
| HighlightCache.SaturationFree | crates/highlight/src/lib.rs:1671-1690 | adding two weights that fit never saturates if and only if the capacity is at most half the range |
| HighlightCache.HighlightService.HighlightRanges | crates/highlight/src/lib.rs:496-599 | every answer is Cancelled or the one a service without a cache would give, whatever other requests do to the cache between lookup and insertion, and every entry is the full result of its key with its weight; after spans were found the most recent entry is the one of the request, if it can fit, and else the cache is as it was |
| HighlightCache.AnswersMean | crates/highlight/src/lib.rs:496-599 | which request is answered with which status, key and language, and that the spans are the ones painted by the events of its parse, cut down to those that share a byte with a requested range |
| Difftastic.NormalizeCell | crates/difftastic/src/lib.rs:960-1015 | the loop over changes computes the cell studied below |
| Difftastic.CellAcceptedWhen | crates/difftastic/src/lib.rs:960-1015 | a cell is accepted exactly when its changes quote its line and do not clash, and is then anchored, sorted and disjoint |
| Difftastic.NeighboursSuffice | crates/difftastic/src/lib.rs:1000-1009 | after sorting, comparing neighbours finds any overlap |
| Difftastic.BuildPositions | crates/difftastic/src/lib.rs:805-827 | the position map, or the first alignment row refused |
| Difftastic.FileAcceptedWhen | crates/difftastic/src/lib.rs:764-881 | when a structural file is accepted, and that each chunk is a permutation of the upstream rows in alignment order |
| Difftastic.FileMeans | crates/difftastic/src/lib.rs:764-881 | the status by name, no rows for a text backend, and for a structural result without chunks the whole new source on the new side if it was created, the whole old one on the old side if it was deleted, and nothing else |
| Difftastic.LineOrientedWhen | crates/difftastic/src/lib.rs:787-803 | which language names are text backends, in any case of letters and with white space around them |
| Difftastic.AlignmentNamesRows | crates/difftastic/src/lib.rs:865-872 | the flat alignment names the two lines of every row, chunk after chunk |
| Difftastic.ChunkMonotoneWhen | crates/difftastic/src/lib.rs:828-855 | a chunk's line numbers go forward on a side exactly when its raw rows' do, in the order in which the alignment lists them |
| Difftastic.FlatMonotoneWhen | crates/difftastic/src/lib.rs:828-872 | the flat alignment of any accepted file goes forward on a side exactly when the raw line numbers do inside each chunk, as the alignment lists them, and from each chunk to the later ones |
| Difftastic.MonotoneAlignmentFlat | crates/difftastic/src/lib.rs:806-872 | under a monotone upstream alignment, exactly when no row of a chunk has a later line than a row of a later chunk |
| Difftastic.ChunksOutOfOrder | crates/difftastic/src/lib.rs:828-872 | a monotone alignment and two chunks whose flat alignment goes back from line 2 to line 1 |
| Difftastic.SingleSidedShowsSource | crates/difftastic/src/lib.rs:897-924 | a created or deleted file without rows shows every line once, numbered from one |
| Difftastic.SourceLinesJoin | crates/difftastic/src/lib.rs:936-938 | the lines joined by newlines are the source and hold no newline |
| Difftastic.LoneRowIsNotLookedUp | crates/difftastic/src/lib.rs:828-848 | a chunk of one row is accepted although the alignment lacks that row |
| Discovery.DiscoverRepositories | crates/git/src/lib.rs:1175-1248 | the walk ends and returns, sorted, one topmost reachable repository for each key, one of the shallowest |
| Discovery.TopWhen | crates/git/src/lib.rs:1183-1245 | a repository is a topmost reachable one exactly when real directories of allowed names lead to it, none of them a repository, no deeper than the limit, and no excluded prefix does |
| Discovery.NamesByFirstDifference | crates/git/src/lib.rs:1246 | what the sorting goes by: the first name in which two paths differ, and in it the first character |
| Discovery.NoneNested | crates/git/src/lib.rs:1172-1174 | no repository found lies inside another |
| RawManifest.ParseRawDiffZ | crates/git/src/lib.rs:1365-1453 | the local loop computes the local parse |
| RawManifest.ParseRemoteRawDiff | crates/cli/src/main.rs:2801-2883 | the companion's loop computes the remote parse |
| RawManifest.ManifestRoundTrips | crates/git/src/lib.rs:1365-1453 | both parsers read a printed manifest back, entry for entry: paths, modes, objects, similarity, and the kind each letter stands for |
| RawManifest.EntryAcceptedWhen | crates/cli/src/main.rs:2801-2883 | of all entries that can be printed, the companion accepts exactly those with modes in 32 bits, objects of 4 to 64 hexadecimal digits, a known letter or a submodule, valid paths and a score of at most 100 |
| RawManifest.AcceptedHeader | crates/cli/src/main.rs:2885-2917 | the form of every header that the companion accepts |
| RawManifest.ManifestsAgree | crates/cli/src/main.rs:2801-2883 | what the companion accepts is accepted locally exactly when every status letter is known, with the same paths, modes and statuses |
| RawManifest.OthersHaveKnownLetters | crates/git/src/lib.rs:970-991 | only submodule entries can have a letter that the local parser does not know |
| RawManifest.UnknownLetterOfSubmodule | crates/cli/src/main.rs:2851-2869 | such an entry is accepted by one parser and refused by the other |
| RawManifest.UnknownLetterExample | crates/cli/src/main.rs:2851-2869 | one such entry |

## Left out

- Stable row, hunk and split identifiers: hashes of the content shown here, with no effect on rows or lines.
- Carriage returns in sources: `lines()` and the diff library split them differently, and the model has none.
- Line counters and hunk numbers over 32 bits in the diff document: they are natural numbers there; parsing of header numbers does check 32 bits.
- Text that is not bytes: in patches, headers and manifests a character stands for a byte, so Unicode white space is no separator and lossy decoding is the identity or a parameter.
- Review file identifiers, comparison identifiers and time stamps.
- GitPatch.GitPatchReadsBack: a copy has no document of its own kind; the parser skips its header lines and reads it as a change of its new path.
- The inside of Git commands: status, patches and manifest are read as values in `CoherentCapture`; a file read is one atomic read, and the size limit of untracked files is not modelled.
- WorktreePool.RepositoryPool.Prepare: selecting a clone is a flag for each candidate, and a failing fetch is a stop without effect.
- The pool lock and its removal by age: the lock is atomic here.
- Removal of the empty review directory after a delete, and damage users do to mirrors or to Git's own metadata.
- Companion.AgentServer.ReadSourceWindow: checking a path and opening it are one step, and a commit's object is asked for once.
- SourceWindow.StreamSourceWindow: byte counters over 64 bits do not occur in the model.
- RemoteSource.ReadRemoteSource: a digest is a value here, so that it is written as 64 hexadecimal digits is not checked.
- Progress messages of workers, and the effect of a cancel flag on a worker's result, which is arbitrary in `RequestLoop`.
- HighlightCache.HighlightService.HighlightRanges: the cache lock is never poisoned, and language resolution and eligibility are parameters.
- Difftastic.NormalizeJsonOutput: JSON decoding is left out, and only ASCII white space is trimmed around the language.
- Discovery.DiscoverRepositories: the tree holds still and can be read; an unreadable entry would end the walk with an error.
- Blame parsing, language tables, GitHub publishing, transport, process handling and user interface: plumbing or small members.
