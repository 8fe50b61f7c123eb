# Verified model of the Deixis language-server bridge

Deixis lets an agent use language servers: it speaks MCP on one side and the Language Server
Protocol (LSP 3.17) on the other. This project models three connected parts of it in Dafny
and proves what they promise. `dafny verify dfyconfig.toml` checks everything.

**Guarded rename** (`Utf8`, `Utf8Grammar`, `Utf16`, `Lines`, `Positions`, `WorkspaceEdits`,
`PreviewStore`, `FileSystems`, `RenameTransaction`). A server's edits arrive as positions in
UTF-8, UTF-16 or UTF-32 code units. They are converted to byte offsets, sorted, checked for
overlap and kept as a preview that can be taken once; applying it to many files is a
transaction that stages, validates, commits and, on a failure, rolls back. Texts are sequences
of Unicode scalar values together with their UTF-8 encoding, so that a byte scan sees the lines
that a scalar scan sees is proved. The file system is a map every call on which may fail. The
main results:

- converting positions is an order isomorphism, and rejects exactly the positions that do not exist;
  columns count the bytes of RFC 3629 or the 16-bit units of RFC 2781, encoders and decoders included;
- the edits of a document are accepted exactly when each converts and no two touch, in whatever
  order the server lists them, and applying them does what LSP says that the server asked for;
- the transaction is all-or-nothing for every pattern of failures and cancellations, and between
  any two calls on the file system every original still exists or every target is already new; an
  error leaves exactly what it reports, file by file, and a failed call pays for every report;
- a cancellation that it sees ends the transaction, and between its last file and its first rename it
  has found every text unchanged and, before and after that, seen no cancellation;
- over any run, the preview store stays within its limits, and hands out each preview at most once and,
  while that is neither evicted nor taken, for ten minutes.

**Client protocol** (`Documents`, `DocumentSync`, `RequestTable`, `RetryLoop`,
`ServerLifecycle`, `Framing`). Critical sections are steps, and callers interleave in any
order. The main results:

- replaying the outbound queue on a strict reference server gives exactly the texts and versions of
  the document store, and one step keeps this if and only if its notification is delivered;
- a retried request meets the text and version that it was computed from, with no A-B-A;
- every request id is registered, enqueued, settled and cancelled at most once, in this order, over
  all runs; when the reader fails every waiting call gets the failure and nothing enters any more;
- a document is refused only when the store is closed, its language differs or its version is used up,
  and otherwise its text reaches the server;
- by the codes and directives of LSP, which answers one call repeats, how long it waits, and which it
  gives up on; it sends at most four times, never faster than every 50 ms, never after a failed check, and
  after an empty result only when the server was seen ready or in no known state;
- over any run a server that works is kept and one that has failed is replaced; restarts are refused
  exactly when the window is full, each respawn is paid for, and a shutdown is final;
- whatever bodies are framed, exactly those bodies are read back, and whatever other headers there are.

**Pagination** (`SymbolTree`, `Pagination`). A forest of document symbols is flattened in
preorder, cut by item count and by the bytes of its JSON, and rebuilt. The main results:

- the walk of a rebuilt page is the page in order if and only if the page is nested, which every
  contiguous page is; with omissions the same items appear once each, under their own parents;
- the exact size of the rebuilt forest, so that it never exceeds the budget kept for the flat list;
- following `nextOffset` ends and covers everything once, whatever limits are asked for.

What the source does by changing state is a method or a class here: scanning loops, the two
stores, the staged files, the request table, the retry loop, the restart limiter, the reader
and the page loop. Each is proved against a function or a predicate, and the laws are proved
about those. Every lemma carries `{:induction false}`: its induction is written out in its body.

## Model

| member | source | states |
|---|---|---|
| `Utf8.DecodeInvertsEncode` | src/positions.rs:258-288 | comparing and slicing a `str` by its bytes loses nothing: the UTF-8 decoder gives back every text from its encoding |
| `Utf8.Decode` | src/lsp.rs:4769-4773 | bytes are accepted as text only when they are the encoding of that text, so overlong forms and surrogates are refused |
| `Utf8.BoundaryIsOffset` | src/workspace_edits.rs:510-516 | the byte test for a character boundary holds exactly at the offsets where a scalar begins, and at the end |
| `Utf8Grammar.EncodedByRfc` | src/positions.rs:53-59 | a scalar value is encoded as the `UTF8-char` of RFC 3629 that has its number, and so with its length |
| `Utf8Grammar.RfcIsEncoded` | src/positions.rs:53-59 | every `UTF8-char` of that grammar is the encoding of the scalar value with its number |
| `Utf8.EncodeInjective` | src/workspace_edits.rs:693-697 | two texts with the same bytes are the same text, so that comparing a file as text and as bytes decides the same |
| `Utf8.OffsetSplit` | src/workspace_edits.rs:535-542 | slicing the bytes at the offset of a scalar splits the text at that scalar |
| `Lines.LinesPartition` | src/positions.rs:251-289 | lines hold neither CR nor LF; one LF, one CR LF or one CR that no LF follows lies between two of them; the first begins and the last ends the text |
| `Lines.BytesAndScalarsAgree` | src/positions.rs:258-279 | scanning UTF-8 bytes for line endings finds the lines of the text, at their byte offsets |
| `Lines.ScanPassesBreak` | src/positions.rs:264-278 | passing one line ending of any kind ends one line and begins the next behind it |
| `Lines.ScanEnds` | src/positions.rs:281-288 | a scan that has reached the end has counted all lines but the last |
| `Positions.LogicalLine` | src/positions.rs:251-289 | the byte scan returns the wanted line of the text, or an error with the number of lines |
| `Positions.FinalLine` | src/positions.rs:291-314 | the second scan returns the last line, and one less than the number of lines that the first scan counts |
| `Positions.ByteOffset` | src/positions.rs:316-351 | the code-unit scan finds the byte offset of the character, and reports a split character or the length of the line otherwise |
| `Positions.LocateMeaning` | src/positions.rs:327-350 | a column is found where the code units before it count up to it; inside a character it is at no boundary, past the line it exceeds all units |
| `Positions.LocateFinds` | src/positions.rs:329-344 | every character boundary is found again from the units in front of it |
| `Positions.ConvertMeaning` | src/positions.rs:234-248 | conversion keeps the character boundary and counts the units before it again, in the target encoding |
| `Positions.RejectedExactly` | src/positions.rs:234-248 | a position is rejected exactly when its line does not exist, it is past its line or it splits a character; otherwise only `u32` overflow fails |
| `Positions.RoundTrip` | src/positions.rs:234-248 | A to B to A is the identity, A to B to C is A to C, and the place in the text stays the same |
| `Positions.OrderIsIndexOrder` | src/positions.rs:218-232 | the derived order of valid positions is the order of the characters they point at |
| `Positions.OrderPreserved` | src/positions.rs:218-232 | conversion preserves the order of positions in both directions |
| `Positions.RangeRoundTrip` | src/positions.rs:218-232 | a range converts exactly when it is not reversed and both ends convert, and is refused for the first of these that fails; the result is not reversed and converts back |
| `Positions.EndPositionMeaning` | src/positions.rs:207-216 | the end position exists exactly when it fits `u32`; it is valid in its encoding and points just past the last character |
| `Utf16.DecodeInvertsEncode` | src/positions.rs:53-59 | UTF-16 with its surrogate pairs gives back every text |
| `Utf16.UnitsAreEncoded` | src/positions.rs:353-357 | the code units counted are the bytes, the 16-bit units or the scalar values of the text in the encoding |
| `Utf16.ColumnIsUnitIndex` | src/positions.rs:316-351 | a UTF-16 column is found exactly where cutting the UTF-16 form of the line leaves whole characters, and points behind those |
| `WorkspaceEdits.PositionOffset` | src/workspace_edits.rs:472-527 | the third scanner returns the byte offset of a UTF-8 position by the same lines, or the matching error |
| `WorkspaceEdits.OffsetFindsValidPosition` | src/workspace_edits.rs:472-527 | every valid UTF-8 position gets the byte offset of the character LSP places it at |
| `WorkspaceEdits.OffsetOnlyOfValid` | src/workspace_edits.rs:472-527 | no other position gets an offset, and a missing line is reported exactly when there is none |
| `WorkspaceEdits.EndOffsetIsLength` | src/workspace_edits.rs:472-527 | the offset of the end position is the length of the text: the three scanners agree |
| `WorkspaceEdits.ConvertedRangeIsSlice` | src/workspace_edits.rs:431-445 | once a raw range converts, both offsets exist, lie on boundaries and are in order |
| `WorkspaceEdits.NormalizedEditMeaning` | src/workspace_edits.rs:431-453 | an edit is accepted exactly when it has no annotation and its range converts, and is refused for its annotation or else for what the conversion says; accepted, it replaces the characters LSP names and its old text is those characters |
| `WorkspaceEdits.RejectOverlaps` | src/workspace_edits.rs:455-470 | the loop accepts exactly when no edit reaches into its successor or starts where it starts |
| `WorkspaceEdits.NeighboursSuffice` | src/workspace_edits.rs:382-383 | for sorted edits, comparing neighbours accepts exactly when all pairs are disjoint with distinct starts |
| `WorkspaceEdits.ServerOrderIrrelevant` | src/workspace_edits.rs:377-383 | any reordering of the server's list is accepted too and gives the same normalized edits |
| `WorkspaceEdits.AcceptedExactly` | src/workspace_edits.rs:377-383 | a document is accepted exactly when every edit is and every two are disjoint; the error is that of the first edit refused, and an overlap only when none is |
| `WorkspaceEdits.AcceptedDocument` | src/workspace_edits.rs:377-392 | what is accepted can be applied, and its splices are those the server asked for, edit for edit |
| `WorkspaceEdits.ApplyEdits` | src/workspace_edits.rs:529-543 | one forward pass, never slicing backwards, gives the text that splicing from the last edit to the first in original coordinates gives |
| `WorkspaceEdits.TailUntouched` | src/workspace_edits.rs:536-541 | splices leave the text behind them alone |
| `PreviewStore.PreviewStore.Insert` | src/workspace_edits.rs:162-201 | the new store and the result, with one reading of the clock for the check and a later one for the creation; saturation never happens, the retained sum stays exact and the evicting `expect` never fires |
| `PreviewStore.PreviewStore.Take` | src/workspace_edits.rs:203-224 | the preview with the identifier is removed and returned unless it is absent or expired |
| `PreviewStore.PreviewStore.RemoveExpired` | src/workspace_edits.rs:226-238 | the front of the queue is dropped as far as it has expired, and the sum stays exact |
| `PreviewStore.EvictKeepsLongestSuffix` | src/workspace_edits.rs:188-197 | eviction keeps the longest suffix that leaves room for one more preview and its bytes |
| `PreviewStore.EvictedExactly` | src/workspace_edits.rs:188-200 | an insertion keeps exactly the unexpired previews with which, and with all younger ones, it keeps to 16 previews and 64 MiB |
| `PreviewStore.DropExpiredIsExact` | src/workspace_edits.rs:226-238 | with previews in order of creation, looking at the front removes exactly the expired ones |
| `PreviewStore.StoreLimits` | src/workspace_edits.rs:182-200 | after any run there are at most 16 previews and 64 MiB |
| `PreviewStore.StoreHistory` | src/workspace_edits.rs:161-239 | everything stored was inserted unaltered, in order of creation |
| `PreviewStore.TakenIsFreshAndUnaltered` | src/workspace_edits.rs:203-224 | a taken preview is an inserted one, unaltered and less than ten minutes old |
| `PreviewStore.IdentifiersDistinct` | src/workspace_edits.rs:171-180 | no two stored previews share an identifier |
| `PreviewStore.NeverTakenTwice` | src/workspace_edits.rs:203-224 | no two takes of a run return the same identifier |
| `PreviewStore.KeptUntilExpiry` | src/workspace_edits.rs:203-224 | over any run, a preview that was accepted and since then neither taken nor evicted is what a take of its identifier returns, at any age under ten minutes |
| `PreviewStore.BytesAreText` | src/workspace_edits.rs:92-99 | the bytes that count are those of all texts that a preview keeps |
| `RenameTransaction.ValidateUnchanged` | src/workspace_edits.rs:688-712 | every file is compared once, those that differ are reported in order, and they are exactly the files that have changed, but for files whose check failed |
| `RenameTransaction.StageFile` | src/workspace_edits.rs:735-778 | success leaves the edited text at the stage path; a failure reports the stage exactly when it is still there, with a failed call for the failure and one for the report; nothing else is ever touched |
| `RenameTransaction.RemoveStagedPath` | src/workspace_edits.rs:838-847 | the path is gone, or it is reported, nothing changed and a call failed |
| `RenameTransaction.CleanupStaged` | src/workspace_edits.rs:826-836 | each stage is gone, or as it was and reported; only these stages are reported, a failed call pays for each report, and only stages changed |
| `RenameTransaction.GiveUp` | src/workspace_edits.rs:603-628 | after any refusal the stages that remain are exactly those reported |
| `RenameTransaction.StageAll` | src/workspace_edits.rs:602-637 | every file is staged with its edited text, or an error leaves exactly the stages it reports, each paid for by a failed call; the token was asked before each file with exactly the files before it staged, and a yes, or the file that failed, is what the error says |
| `RenameTransaction.CommitFile` | src/workspace_edits.rs:790-796 | the two flags tell exactly which of the two renames happened, and the history which states were seen |
| `RenameTransaction.CommitProgress` | src/workspace_edits.rs:790-796 | each rename of a commit takes the three paths of its file one stage further and touches no other file |
| `RenameTransaction.ProgressIsSafe` | src/workspace_edits.rs:654-665 | however far each file has come, every original is at its target or its backup path |
| `RenameTransaction.RollbackOne` | src/workspace_edits.rs:798-822 | one turn of rollback leaves the three paths of its file exactly as its reports say: restored, replaced, moved away or staged; its reports are about this file, a failed call pays for each, and no original is lost |
| `RenameTransaction.Rollback` | src/workspace_edits.rs:798-824 | every file is left exactly as the reports about it say, restored when there are none; every report belongs to a file and is paid for by a failed call; every original is still there |
| `RenameTransaction.CommitAll` | src/workspace_edits.rs:654-665 | all files are replaced, one after the other, or an application error that names the file whose commit failed behind all those before it, and whose reports say exactly what each file was left with; one failed call for the error and one for each report |
| `RenameTransaction.RemoveBackups` | src/workspace_edits.rs:667-675 | exactly the surviving backups are warned about, and every target holds its new text before the first is deleted |
| `RenameTransaction.SameViewsSameFiles` | src/workspace_edits.rs:587-686 | when each target, stage and backup is as it was the whole file system is |
| `RenameTransaction.OwnersDistinct` | src/workspace_edits.rs:714-727 | the three paths of two files of one transaction never coincide |
| `RenameTransaction.ApplyRenamePreview` | src/workspace_edits.rs:575-686 | all or nothing: success replaces every target; an error leaves exactly what it reports, file by file, with a cancellation, a changed target or a failed call for the error and a failed call for each report; at every moment each original survives or every target is new; without failed calls, cancellation and changed targets it succeeds; an error that one failed call has caused leaves the initial files; a token cancelled before is refused, like a stale preview, with nothing ever touched; every outcome is the one that the answers of the token and the comparisons call for, and no rename is made before the last of both |
| `RenameTransaction.YesIsHeeded` | src/workspace_edits.rs:593-652 | an answer that the transaction is cancelled is the last thing it observes, and what it reports |
| `RenameTransaction.LeftFilesAreNamed` | src/workspace_edits.rs:798-847 | every file that is not as it was is named by a report, by one of its own paths |
| `RenameTransaction.LeftFilesArePaid` | src/workspace_edits.rs:601-665 | at least as many calls have failed as files are left different, and one more unless a cancellation or a changed target explains the error |
| `RenameTransaction.RestoredClean` | src/workspace_edits.rs:657-664 | a rollback that reports nothing has restored the whole file system |
| `RenameTransaction.RefusedClean` | src/workspace_edits.rs:603-652 | a refusal that reports nothing has left nothing |
| `RenameTransaction.OneFaultLeavesNothing` | src/workspace_edits.rs:601-665 | an error that needs a failed call, conflicts of unchanged targets included, and has no second one leaves the file system exactly as it was |
| `RenameTransaction.AppliedMeans` | src/workspace_edits.rs:667-685 | after success each target holds the edited text, its stage is gone, and its original is left only at a backup path that is warned about |
| `RenameTransaction.AcceptedPreview` | src/workspace_edits.rs:377-393 | accepted edits make a preview that can be applied, and its new contents are the text with exactly the server's splices |
| `Documents.DocumentStore.Matches` | src/documents.rs:90-96 | a document matches only when the store is open and has it unchanged |
| `Documents.DocumentStore.Snapshots` | src/documents.rs:98-103 | the snapshots are the tracked documents under their paths |
| `Documents.DocumentStore.Synchronize` | src/documents.rs:105-170 | the update returned and the whole new store, including the three errors |
| `Documents.RefusedExactly` | src/documents.rs:114-160 | an error is returned exactly when the store is closed, the path is tracked under another language, or only the text differs and the version is 2147483647; it changes nothing |
| `Documents.HoldsTheText` | src/documents.rs:120-169 | otherwise the path holds the given text afterwards, under version 1, the old version when equal and the next one when different, with the old text in the update; no other path changes |
| `Documents.DocumentStore.CloseAll` | src/documents.rs:172-180 | the store is empty and closed, and exactly the documents opened by notification are returned |
| `Documents.HashNeverDecides` | src/documents.rs:144-154 | whatever the hash function, a document counts as unchanged exactly when its language and text are the same |
| `Documents.SynchronizedIsValid` | src/documents.rs:105-170 | every document stays filed under its own path with the hash of its text |
| `Documents.VersionsCount` | src/documents.rs:156-168 | a version grows by one exactly when the text changes; otherwise nothing of the document does |
| `DocumentSync.WholeRangeReplacesAll` | src/lsp.rs:3241-3266 | the range of an incremental change covers precisely the previous text, so that applying it gives the new text |
| `DocumentSync.NotifiedChangeIsText` | src/lsp.rs:3237-3278 | the didChange turns the previous text into the new one, with its version, as a whole text or as a range by what the server has asked for |
| `DocumentSync.MirrorKeptExactly` | src/lsp.rs:3207-3278 | one step keeps the server's copy equal to the store if and only if every notification it calls for is delivered |
| `DocumentSync.MirrorRefinesStore` | src/lsp.rs:3182-3286 | under any interleaving with all notifications delivered, a strict server accepts every message (didOpen, didChange with versions 1, 2, 3, then didClose) and has the languages, texts and versions of the store |
| `DocumentSync.TextReachesServer` | src/lsp.rs:3182-3286 | over any run with all notifications delivered, a text synchronized under the known language with a version left is the text the server has then |
| `DocumentSync.SendCloseIsMirrored` | src/lsp.rs:3432-3446 | each didClose that is accepted keeps the mirror, and one that is not breaks it |
| `DocumentSync.RefusedCloseEndsClosing` | src/lsp.rs:3432-3446 | the first didClose that is refused is the last one tried |
| `DocumentSync.NeverOpenedNorClosed` | src/lsp.rs:3209-3224 | over any run, a server without open/close synchronization is sent neither didOpen nor didClose |
| `DocumentSync.RetriesMeetTheirDocument` | src/lsp.rs:3765-3828 | a retried request reaches the server when its copy has the text and version that the request was computed from |
| `DocumentSync.RunProgresses` | src/documents.rs:150-168 | over any run a tracked document stays tracked until closing, and its version tells whether it changed |
| `DocumentSync.NoABA` | src/documents.rs:90-96 | a document that matches at two moments has matched at every moment in between |
| `RequestTable.RequestState.Register` | src/lsp.rs:3805-3814 | one critical section registers the id, or refuses with the recorded failure |
| `RequestTable.RequestState.Remove` | src/lsp.rs:3877-3879 | one critical section takes the sender out and tells whether it was there |
| `RequestTable.RequestState.Fail` | src/lsp.rs:4168-4172 | one critical section records the failure and takes all senders |
| `RequestTable.StepKeeps` | src/lsp.rs:3714-3860 | every step of every task and of the reader keeps each id's place in the table, with the reader or with its task in agreement with the log |
| `RequestTable.EachIdOnce` | src/lsp.rs:3805-3892 | at every moment of every run each id is registered, enqueued and settled at most once in this order, and a cancel notice goes out at most once, after the request and only when it was still pending |
| `RequestTable.ReturnsItsOwn` | src/lsp.rs:3847-3858 | what a call returns was sent to its own id before |
| `RequestTable.TableWithinPermits` | src/lsp.rs:3729-3740 | the table never holds more entries than there are permits |
| `RequestTable.StaleResponseExactly` | src/lsp.rs:4246-4250 | a response changes something exactly when its id is pending |
| `RequestTable.LateResponse` | src/lsp.rs:4246-4250 | a response to a request that was settled before, or never made, changes nothing |
| `RequestTable.FailureIsFinal` | src/lsp.rs:4168-4176 | after the reader has failed the table stays empty, the failure stays, and no request enters it |
| `RequestTable.EveryPendingIsFailed` | src/lsp.rs:4168-4176 | when the reader is done, each request that was pending has been resolved with the failure |
| `RequestTable.FailureReachesEveryCall` | src/lsp.rs:4168-4176 | the failed reader can use all the senders it took, and then every call that waits for a pending request returns the failure |
| `RequestTable.NoCallIsLost` | src/lsp.rs:3830-3859 | a waiting call is pending, about to be resolved, or has its outcome; after a finished failure it can always return |
| `RequestTable.CallCompletes` | src/lsp.rs:3714-3860 | while the reader works and a permit is free a new call can run through to its response, under an id of its own, and releases its permit |
| `RequestTable.ResponseIsReturned` | src/lsp.rs:4246-4250 | the response to a pending request is what the call that waits for it returns |
| `RequestTable.CancellationIsSent` | src/lsp.rs:3877-3892 | a call that stops waiting while its request is pending takes it back and can send the cancel notice |
| `RequestTable.EveryCallCanEnd` | src/lsp.rs:3805-3892 | in every state each call can end by steps of its own, which release its permit and leave its request no longer pending |
| `RetryLoop.Call.CheckDeadline` | src/lsp.rs:3641-3662 | a passed check means that the call was not cancelled and its deadline not reached, a failed one that it was, and a cancellation comes first |
| `RetryLoop.Call.PassChecks` | src/lsp.rs:3723-3803 | the request goes on only when it was not cancelled, got a permit, passed its check after that and, for a retried document, found it unchanged and passed another check |
| `RetryLoop.Call.RequestAttempt` | src/lsp.rs:3714-3860 | one attempt sends at most once and observes no readiness; an answer is the last event, that of this send |
| `RetryLoop.Call.WaitToRetry` | src/lsp.rs:3664-3712 | a retry is allowed only 50 ms after the last send, when the server was seen ready or in no known state, or the wait that this kind of answer calls for is over; no sleep outlasts either, or the deadline |
| `RetryLoop.Call.ReadinessWait` | src/lsp.rs:3586-3612 | which answers are retried and how long the server may stay busy before: 1 s after a cancellation by the server, 5 s after modified content, the whole timeout after an empty result |
| `RetryLoop.Call.RequestValueUntil` | src/lsp.rs:3544-3639 | at most four sends, each right behind a passed check, at most one for initialize and shutdown, 50 ms apart, none when cancelled or late before the call; in the codes and values of LSP, a send follows an answer only when that is an error -32802, -32800 or -32801 whose data forbids no retry, 1 s or 5 s before or with the server seen ready since, or an empty result with the server seen ready since, and such an answer is final only for a changed document, after four attempts, or for an empty result when the server was busy neither before nor after; no wait sleeps longer than that; a retried document was just found unchanged; what is returned is the last answer, or after an empty one that the document changed; other errors have a cancellation, the deadline or a broken transport as their reason; the end of the loop is unreachable |
| `RetryLoop.RetryableInProtocolTerms` | src/lsp.rs:3938-3970 | the answers that are retried, by error code, `retriggerRequest`, kind of request and emptiness of the value |
| `RetryLoop.AppendSent` | src/lsp.rs:3756-3828 | what the trace must show for one more send to keep all the rules |
| `RetryLoop.WaitOver` | src/lsp.rs:3672-3699 | when the wait ends every earlier answer allows the next send, except an empty one with the server never seen ready |
| `RetryLoop.LifecycleNotRetried` | src/lsp.rs:3938-3954 | no answer to initialize or shutdown is ever retried |
| `ServerLifecycle.RestartHistory.TryRecord` | src/lsp.rs:80-98 | a restart is granted exactly when fewer than the maximum of all grants ever made lie inside the window, so that any such number of consecutive intervals between grants adds up to a window |
| `ServerLifecycle.WindowIsRemembered` | src/lsp.rs:80-98 | the few remembered attempts decide what the whole history of grants would |
| `ServerLifecycle.LazyLanguageServer.ActiveServer` | src/lsp.rs:1247-1318 | the answer and the new state are those of one step of the lifecycle: served by the running process, refused after shutdown or when a restart finds the window full of grants, and otherwise one spawn, for which every restart takes one grant |
| `ServerLifecycle.LazyLanguageServer.Shutdown` | src/lsp.rs:1220-1240 | the shutdown step of the lifecycle |
| `ServerLifecycle.StateIsHistory` | src/lsp.rs:1247-1318 | the state tells what has happened: a server is running exactly when one was given out and not taken away since, and stopped exactly after a shutdown |
| `ServerLifecycle.AnsweredExactly` | src/lsp.rs:1247-1318 | over any run, each refusal is given exactly for its reason in what happened before |
| `ServerLifecycle.HealthyServerIsKept` | src/lsp.rs:1258-1266 | over any run, a server given out is given out again as long as it is found in order, without a spawn or a grant |
| `ServerLifecycle.FailedServerIsReplaced` | src/lsp.rs:1297-1318 | what is given out for a server found failed, or with none up, was spawned at that moment |
| `ServerLifecycle.SpawnsHaveAReason` | src/lsp.rs:1258-1318 | over any run a spawn has a first start, a failed server, a failed start or a failed stop as its reason, and no grant is spent on the first start |
| `ServerLifecycle.ShutdownIsFinal` | src/lsp.rs:1220-1258 | after a shutdown, over any further run, nothing is spawned or granted and every answer is a refusal |
| `ServerLifecycle.RespawnsAreLimited` | src/lsp.rs:1268-1317 | over any run, however often it crashes and is asked for, a server is not respawned more than the maximum within one window |
| `ServerLifecycle.SpawnsArePaid` | src/lsp.rs:1268-1317 | over any run every spawn attempt but the first happens at a grant, and there are at least as many grants |
| `ServerLifecycle.RefusedOnlyWhenFull` | src/lsp.rs:1268-1295 | over any run a restart is refused only while the maximum of grants lies inside the window |
| `Framing.ParsePrinted` | src/lsp.rs:4780-4785 | parsing a printed length gives the length |
| `Framing.DigitsAreDecimal` | src/lsp.rs:4102-4102 | a length is printed as the decimal digits that denote it, with no leading zero |
| `Framing.ParsedExactly` | src/lsp.rs:4780-4785 | a length is read exactly from decimal digits, maybe behind a plus sign, of a number of 64 bits |
| `Framing.ReadLspMessage` | src/lsp.rs:4761-4801 | the loop over header lines and the exact read return and leave what the specification of one read says |
| `Framing.WriterLoop` | src/lsp.rs:4096-4116 | each body of the queue is written as one frame, in order |
| `Framing.FrameIsLspMessage` | src/lsp.rs:4102-4111 | a frame is `Content-Length: `, the decimal length, a blank line and the body |
| `Framing.FrameRead` | src/lsp.rs:4761-4801 | reading one frame gives its body, whatever bytes it holds, and leaves what follows |
| `Framing.MessageRead` | src/lsp.rs:4761-4801 | a body is read whatever other header lines stand before and behind its length, and whatever spaces around it |
| `Framing.HeadersRefused` | src/lsp.rs:4769-4789 | headers without a length and a length that is no number are refused, and the end of the stream between lines of a header, or messages, is no error |
| `Framing.BrokenStream` | src/lsp.rs:4772-4798 | a stream that ends inside a body, and a header line that is no text, are errors |
| `Framing.FramesRoundTrip` | src/lsp.rs:4127-4132 | reading the concatenated frames gives exactly the bodies and then the end of the stream |
| `Framing.OversizedStopsReader` | src/lsp.rs:4140-4154 | the first body over the limit ends the loop with its size, after all bodies before it |
| `SymbolTree.FlattenSymbols` | src/mcp/output.rs:136-155 | what the recursive flattening appends to the shared list |
| `SymbolTree.FlatEntry` | src/mcp/output.rs:141-154 | an entry's index is its position, its parent stands before it, and it has no children |
| `SymbolTree.FlatNested` | src/mcp/output.rs:141-154 | in the flat list, whatever stands between an item and its parent is below that parent |
| `SymbolTree.RebuildSymbols` | src/mcp/output.rs:157-175 | popping the last node and inserting it first in its parent gives the forest defined by parent indexes |
| `SymbolTree.ForestSum` | src/mcp/output.rs:157-175 | any additive measure of the page is a measure of its forest |
| `SymbolTree.EveryItemOnce` | src/mcp/output.rs:157-175 | every item of the page is in the forest exactly once |
| `SymbolTree.NodesUnderParents` | src/mcp/output.rs:163-172 | a node sits under the node with its parent's index exactly when that is on the page |
| `SymbolTree.WalkIsPageExactly` | src/mcp/output.rs:157-175 | the preorder walk of the forest is the page in order if and only if the page is nested |
| `SymbolTree.ContiguousPageWalk` | src/mcp/output.rs:157-175 | a contiguous page walks in index order |
| `SymbolTree.OmissionReorders` | src/mcp/output.rs:157-175 | a concrete page with an omitted parent whose walk is not in index order |
| `SymbolTree.FullPageIsOriginal` | src/mcp/output.rs:136-175 | a page with everything on it is rebuilt into the original forest, annotated |
| `SymbolTree.AnnotatedIsOriginal` | src/mcp/output.rs:136-155 | without its annotations the annotated forest is the original one; the annotations are the place in preorder, the index of the parent and the number of children |
| `Pagination.Measure` | src/mcp/output.rs:120-134 | however the serializer splits its output, the size is its length, or refused when over the budget; no subtraction underflows |
| `Pagination.SelectPage` | src/mcp/output.rs:70-94 | the loop selects what the specification of a page says, and no subtraction underflows |
| `Pagination.PageCovers` | src/mcp/output.rs:70-94 | a page is a gapless run: it chooses the items that fit, omits exactly those over 64 KiB less 2 bytes, counts the bytes of the array of its items, and ends early only when the next would exceed the budget |
| `Pagination.PageProgresses` | src/mcp/output.rs:70-94 | a page moves the offset on as long as anything is left |
| `Pagination.TruncatedExactly` | src/mcp/output.rs:95-105 | `truncated` is false exactly when the page returns all there is from its offset on |
| `Pagination.FollowingCoversAll` | src/mcp/output.rs:55-117 | following `nextOffset` with any limits ends and gives every item that fits once, in order, and every other index as omitted, independent of the limits |
| `Pagination.PickIsExact` | src/mcp/output.rs:74-94 | the selected and the omitted indexes are exactly those of the items that fit and that do not |
| `Pagination.PageInNumbers` | src/mcp/output.rs:70-105 | what the metadata of any page says, in numbers: total, returned and omitted items add up to the next offset or the end, 64 KiB, and why it ends |
| `Pagination.SizeFormula` | src/mcp/output.rs:86-91 | the compact JSON size of any forest from the sizes of its childless nodes, their number and the number of nonempty arrays |
| `Pagination.ForestSize` | src/mcp/output.rs:86-91 | the rebuilt forest is smaller than the flat list by exactly one byte for each nonempty child array |
| `Pagination.PageForestFits` | src/mcp/output.rs:86-91 | the rebuilt forest never exceeds the bytes the loop counted, and hence the budget |
| `Pagination.GaplessPage` | src/mcp/output.rs:109-114 | a page that omits nothing walks exactly over its run of items |
| `Pagination.ChosenIsRebuildable` | src/mcp/output.rs:74-94 | the items of any page have ascending indexes, empty child lists and parents before them, which is what rebuilding relies on |
| `Pagination.PaginateSymbols` | src/mcp/output.rs:55-117 | the whole operation: forest, metadata in numbers, budget, every chosen item once and under its parent; without omissions the walk is the gapless run of items, and a first page that is not truncated is the original forest, annotated |

## Left out

- Tokio, processes, pipes, stderr capture and timers: what remains is atomic steps, a FIFO queue, a number of permits and a monotone clock.
- JSON and TOML decoding, MCP handlers and tool schemas, rendering of text for the user, configuration.
- Canonicalization, symbolic links, permissions and fsync: a resolved file is an opaque path, and each call on the file system may fail. Power loss is outside, as the repository's own README says.
- Writers outside the transaction: no other process changes files while a rename is applied. Transaction paths are fresh, as a random UUID makes them.
- An edit target without a parent directory: the early return for it cannot be reached from a canonical file path.
- Tasks dropped in the middle of a request: they would release their permit while their entry stays in the table.
- Machine integers: `usize` is 64 bits wide, lengths of things in memory do not overflow it, and neither the request counter nor sizes in memory wrap. `u32` coordinates, `i32` versions and parsed lengths are modelled with their width.
- UUIDs, unified diffs and glob patterns. The content hash is any function of the text.
- The checks of `normalize_workspace_edit_at_snapshot` that precede the edits of one document (URIs, versions, snapshots, repeated documents): targets are distinct where the transaction needs it.
- `DocumentSync.MirrorRefinesStore`: takes the function from paths to URIs as given, with distinct URIs for distinct paths, and states the mirror for servers with open/close synchronization and runs in which no notification is refused; `DocumentSync.MirrorKeptExactly` says that a refused one breaks it, since the store is updated before the notification is queued.
- `Documents.DocumentStore.CloseAll`: returns the documents in any order, where the source lists them in path order; nothing that is proved depends on it.
- `RetryLoop.Call.RequestAttempt`: re-reading the file before a retry is one comparison with any outcome; that the store still matches is stated in `DocumentSync.RetriesMeetTheirDocument`.
- `RetryLoop.Call.WaitToRetry`: a call sees finitely many readiness signals, so that the wait ends; what the readiness tracker makes of server notifications is any state at any time.
- `Framing.ReadLspMessage`: stops at the body's bytes; a body that is not JSON makes the reader loop go on, which is not modelled.
- `Framing.WriterLoop`: does not model a write that fails, after which the loop ends and the reader sees the end of the stream or a cut frame.
- `ServerLifecycle.LazyLanguageServer.ActiveServer`: stopping the old process and initializing the new one are one step each that may fail.
- The range check of `limit`: pages are stated for every limit, and progress for every limit from 1 on.
- The member order of JSON objects: it does not change sizes. `Pagination.SizeFormula` counts the members that pagination adds and takes all others as given bytes.
- Error-code mapping, `result_stability` and other single-branch facts; diagnostics, benchmarks and command-line parsing.
