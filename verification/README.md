# Verified models of the reader's synchronization, sessions, parsers and uploads

A Dafny model of the parts of an e-book reader and its sync backend where the order of steps, failures and
retries matter, with proofs about all inputs and all runs.

- **Synchronization.** `Hlc` is the hybrid logical clock. `Tables` says what local writes and pulled operations
  do to the four synchronized tables; `LocalStore` is the database and the state manager that write them.
  `SyncServer` is the append-only log of the backend. `PullSpec` says what a pull does and how it ends,
  `PullTheorems` what that amounts to, and `SyncEngine` holds the push and pull loops of a device.
  `SyncRuns` puts any number of replicas and the server together as a step machine (local write, send a batch,
  lose its reply, fetch a page, take an operation, save the cursor, crash), and `EngineRuns` shows that the
  loops are runs of it. `Convergence` and `MarkConvergence` prove when replicas agree; `Divergence` says
  exactly when missing one of the demands does harm, and `FailingRuns` gives runs from the start, put together
  from the steps in `RunSteps`. `EngineKeeps` carries what runs keep over to wherever an engine stops.
- **Sessions.** `AuthTables` gives the session handlers as functions on three tables, `AuthEffects` says when each
  answers what and what it does to the rows, `AuthServer` is the same as statements on mutable tables, `AuthRuns` what holds along every run. `AuthClient` is the session manager of a
  client, and client and server together. The scheme is the refresh token rotation of section 10.4 of RFC 6749.
- **Parsers.** `XhtmlDom` is the stack machine that builds a DOM forest, `CfiAnchors` the anchors of its nodes,
  `DomUnique` the proof that both together determine the forest. `TxtSplit` and `SizeSplit` are the splitters of
  plain text.
- **Uploads.** `Upload` is the upload session of the server, the client's loop with retries, and reassembly.

`Basics` holds integer conversions, an option type, bytes, and the fate of a request,
`Strings` white space, trimming and decimal numbers.

Where the source updates variables or fields step by step the model is a class or a method with a loop, proved
to compute a specification function, and the theorems are about that function. Failures (`Err`, panics, HTTP error
codes) are values. The outside world is a parameter: the fate of each request, wall clock readings, what the log
is when a page is served, new identifiers, whether a store can be written.

## What the proofs bring to light

- Last-writer-wins compares stamps without the node, so two devices can write one key with the same largest
  stamp. `FailingRuns.TiedStampsDiverge` is a run after which they hold different values at rest, and
  `Hlc.SameTickSameStamp` says how easily clocks give such stamps. `Convergence.LwwConvergence` shows that this is
  the only obstacle when every local write is stamped above the stored row. That premise is the business of the caller: a
  local write overwrites unconditionally, and `Divergence.OneWriteTravels` says exactly when a write below or at the
  stored stamp does harm.
- A comment in `crates/core_sync/src/engine.rs:201` says that own operations are always skipped. The engine built for the
  FFI has the constant device id "ffi" (`crates/ffi_c/src/lib.rs:1114`), which no row of the log carries, so nothing
  is skipped there. The code is followed. It is also what makes bookmarks and annotations converge
  (`MarkConvergence.MarkTablesConverge`); with skipping they need not (`Divergence.ConcurrentMarksAgreeIff`).
- Operation ids are drawn afresh at every listing, so the deduplication of the server does not recognize a retry
  after a lost reply (`Divergence.EntriesStayUniqueIff`, `FailingRuns.FreshIdsDuplicate`); with ids that stay with
  their entry it would (`SyncRuns.StableIdsPushOnce`). Convergence holds either way.
- A row and its op-log entry are two statements without a transaction: a crash between them leaves a change that
  no other device ever sees (`Divergence.TornWriteAgreesIff`).
- A device that has not registered a book drops its bookmarks and annotations without an error and never asks for
  them again (`FailingRuns.UnknownBookDiverges`).
- `push` stores the text of an operation unchecked, and a pull never passes one that its client cannot read
  (`PullTheorems.PullPassesNone`): nothing is lost, but every pull of that device ends in front of it
  (`PullTheorems.PullSucceedsIff`).
- A refresh whose reply is lost signs the user out on every device (`AuthClient.LostRefreshSignsOut`).
- `split_by_size` can cut inside a UTF-8 character and then panics; `SizeSplit.SplitBySize` and
  `SizeSplit.OnlyHardCutsPanic` give the exact condition, `SizeSplit.ChineseTextPanics` an input.
- Anchors do not name nodes. All top-level nodes have the anchor "/2", and so has the first child of each of them:
  in a body of one paragraph, the paragraph and its text (`CfiAnchors.ParagraphAndItsTextClash`).
  `CfiAnchors.SameAnchorIffSamePlace` says exactly which nodes share an anchor, and `CfiAnchors.NamesOneNodeIff`
  which anchors name one node.
- With chunks smaller than its window of 200 bytes `split_by_size` would run for ever on some texts
  (`SizeSplit.EndsOnEveryTextIff`); its only caller passes 5000.

## Model

| member | source | states |
|---|---|---|
| Hlc.TickIsLeast | crates/core_sync/src/lib.rs:88-102 | `tick` gives the wall time with counter 0 if that is ahead of the clock, else the least stamp above the clock; it panics if and only if the wall time is not ahead and the counter is 65535 |
| Hlc.MergeIsLeast | crates/core_sync/src/lib.rs:107-129 | `merge` gives the wall time with counter 0 if that is ahead of both stamps, else the least stamp above both, whose wall is at least the wall time; it panics if and only if that stamp would need a counter above 65535 |
| Hlc.StepIncreases | crates/core_sync/src/lib.rs:88-129 | one `tick` or `merge` moves the clock strictly past its old value and past the merged stamp, and keeps the node |
| Hlc.RunIncreases | crates/core_sync/src/lib.rs:88-129 | along every run of ticks and merges that does not panic the clock strictly increases and ends above every stamp merged on the way |
| Hlc.RunDoesNotOverflow | crates/core_sync/src/lib.rs:95-129 | no run panics while the largest counter involved at the start plus the length of the run is at most 65535 |
| Hlc.OverflowPanics | crates/core_sync/src/lib.rs:95-129 | that bound is tight: at counter 65535, with the wall clock not ahead, both `tick` and `merge` panic |
| Hlc.EncodingRoundTrip | crates/core_sync/src/lib.rs:70-81 | `from_u64` then `to_u64` is the identity on all 64-bit values; `to_u64` then `from_u64` is, if and only if the wall time is below 2^48 |
| Hlc.EncodingKeepsOrder | crates/core_sync/src/lib.rs:70-81 | below 2^48 the encoded order is exactly the order of (wall, counter) |
| Hlc.StorageAgreesWithLwwResolve | crates/core_sync/src/engine.rs:279-281 | the signed comparison in storage decides like `lww_resolve` exactly when both stamps are equal or lie on the same side of 2^63 |
| Hlc.NodeIsDropped | crates/core_sync/src/lib.rs:70-72 | below 2^48 two stamps encode alike if and only if their walls and counters are equal, whatever their nodes |
| Hlc.SameTickSameStamp | crates/core_sync/src/lib.rs:88-102 | two clocks that tick when the wall clock is ahead of both give the same stamp, whatever their nodes |
| Hlc.TickAfterPullWins | crates/core_sync/src/engine.rs:207-217 | a write stamped by `tick` after a pull is stored as newer than every write that the pull brought in (wall below 2^47) |
| Tables.ApplyAnswers | crates/core_storage/src/db.rs:478-597 | a pulled operation fails if and only if its text is malformed, or it is a progress write for an unregistered book stamped above what is stored; it is ignored if and only if it is not newer than the stored row, or a bookmark or annotation of an unregistered book; only an applied one changes anything |
| Tables.ApplyOnCells | crates/core_storage/src/db.rs:490-596 | applying a pulled operation answers and changes exactly what last-writer-wins (progress, preferences) or unconditional writing (bookmarks, annotations) says for its own key, with the foreign-key outcomes, and leaves every other key alone |
| Tables.LocalOnCells | crates/core_state/src/lib.rs:76-214 | a local write that is logged overwrites its own key whatever stamp is stored; one that is not logged changes nothing |
| Tables.LocalAnswers | crates/core_state/src/lib.rs:76-214 | a local write finds nothing to do if and only if it deletes a row that is not there, is rejected if and only if it needs a book that is not registered, and is logged otherwise, with its effect in its own key; unless it is logged nothing changes |
| Tables.ApplyAllConcat | crates/core_sync/src/engine.rs:198-219 | applying a list that does not fail and then another one is applying both in one go, with the same first failure |
| Tables.LwwDominates | crates/core_storage/src/db.rs:495-519 | after any run of applied operations a last-writer-wins row carries a stamp at least that of every operation of the run on its key |
| Tables.DominatedRun | crates/core_storage/src/db.rs:490-596 | on tables that dominate a run, the run cannot fail, leaves last-writer-wins rows alone and leaves bookmarks and annotations as after any other start |
| Tables.ReplaySafe | crates/core_sync/src/engine.rs:198-242 | replaying a prefix that went through and then the whole sequence gives the same tables and the same first failure as applying the sequence once, for all operation kinds mixed, which makes a re-fetched page harmless |
| Tables.AllApplyIff | crates/core_sync/src/engine.rs:198-233 | a list of operations goes through if and only if none of them is malformed and none is a progress write for an unregistered book stamped above what was stored before the first of them |
| Tables.NumAppliedCounts | crates/core_sync/src/engine.rs:213-219 | the number of applied operations that a pull reports is the number of operations answered with applied rather than ignored |
| LocalStore.Database.constructor | crates/core_storage/src/db.rs:99-115 | a new database is empty |
| LocalStore.Database.UpsertProgress | crates/core_storage/src/db.rs:181-195 | writes the row unconditionally; refused exactly for an unregistered book |
| LocalStore.Database.PutBookmark | crates/core_storage/src/db.rs:221-236 | writes the row; refused exactly for an unregistered book |
| LocalStore.Database.RemoveBookmark | crates/core_storage/src/db.rs:239-245 | removes the row and answers whether there was one |
| LocalStore.Database.PutAnnotation | crates/core_storage/src/db.rs:277-294 | writes the row; refused exactly for an unregistered book |
| LocalStore.Database.RemoveAnnotation | crates/core_storage/src/db.rs:297-303 | removes the row and answers whether there was one |
| LocalStore.Database.SetPreference | crates/core_storage/src/db.rs:337-345 | writes the row unconditionally |
| LocalStore.Database.WriteOpLog | crates/core_storage/src/db.rs:370-385 | appends one unsynced entry and changes no other |
| LocalStore.Database.GetUnsyncedOps | crates/core_storage/src/db.rs:390-416 | returns every unsynced entry exactly once, in ascending order of stamps; the order of equal stamps is left open |
| LocalStore.UnsyncedIsListing | crates/core_storage/src/db.rs:390-416 | sorting the unsynced entries by insertion gives such a listing |
| LocalStore.Database.MarkOpsSynced | crates/core_storage/src/db.rs:419-444 | marks exactly the named entries, the empty list included |
| LocalStore.MarkInTwoParts | crates/core_storage/src/db.rs:419-444 | marking two lists one after the other is marking them together |
| LocalStore.Database.SetPullCursor | crates/core_sync/src/engine.rs:241-252 | the saved cursor is the given one |
| LocalStore.Database.ApplyRemoteOp | crates/core_storage/src/db.rs:478-597 | fails if and only if the text is malformed, or it is a progress write for an unregistered book stamped above what is stored; ignored if and only if outdated, or a bookmark or annotation of an unregistered book; in both cases nothing changes; and in all cases it does what the function does that the convergence theorems are about |
| LocalStore.StateManager.UpdateProgress | crates/core_state/src/lib.rs:76-101 | logged if and only if the book is registered; then the row is the given one and one unsynced entry is appended, else neither |
| LocalStore.StateManager.AddBookmark | crates/core_state/src/lib.rs:111-123 | logged if and only if the book is registered; then the row is the given one and one unsynced entry is appended, else neither |
| LocalStore.StateManager.DeleteBookmark | crates/core_state/src/lib.rs:126-141 | afterwards the row is not there; logged, with one entry appended, if and only if it was there before |
| LocalStore.StateManager.AddAnnotation | crates/core_state/src/lib.rs:151-165 | logged if and only if the book is registered; then the row is the given one and one unsynced entry is appended, else neither |
| LocalStore.StateManager.DeleteAnnotation | crates/core_state/src/lib.rs:168-183 | afterwards the row is not there; logged, with one entry appended, if and only if it was there before |
| LocalStore.StateManager.SetPreference | crates/core_state/src/lib.rs:193-214 | always logged: the row is the given one and one unsynced entry is appended |
| SyncServer.Server.Push | crates/backend/src/handlers/sync.rs:68-134 | a batch is refused exactly when empty or longer than 500; otherwise the log is that of `PushAll` and `accepted` is its growth |
| SyncServer.PushAdds | crates/backend/src/handlers/sync.rs:83-119 | every added row is one of the pushed operations under the authenticated user and device, and afterwards every pushed operation id is in the log |
| SyncServer.PushKeepsUniqueIds | crates/backend/src/db.rs:73-83 | no push ever breaks UNIQUE(user_id, op_id) |
| SyncServer.PushConcat | crates/backend/src/handlers/sync.rs:83-119 | pushing a list in pieces is pushing it whole |
| SyncServer.RetryAddsNothing | crates/backend/src/handlers/sync.rs:83-119 | a batch whose operation ids are all known adds nothing |
| SyncServer.RowsExact | crates/backend/src/handlers/sync.rs:146-162 | the rows above a cursor are exactly the entries of that user above it, each once, in log order |
| SyncServer.RowsGrow | crates/backend/src/handlers/sync.rs:146-162 | a log that has grown still returns the old rows first |
| SyncServer.RowsAdvance | crates/backend/src/handlers/sync.rs:164-174 | moving the cursor to the k-th row drops exactly the rows up to it |
| SyncServer.PageHolds | crates/backend/src/handlers/sync.rs:142-189 | for every cursor and limit: a page is the first rows above the cursor, as many as the limit allows, which counts as 1 below 1 and as 1000 above 1000; `has_more` exactly when a row is left; `next_cursor` is the last position served, and the old cursor when there is none |
| SyncServer.PagesCoverTheLog | crates/backend/src/handlers/sync.rs:146-174 | following `next_cursor` yields exactly the rows of the user above the start in order, without gap or repeat, in max(1, ceil(n / limit)) requests, all pages full but the last |
| SyncEngine.Engine.constructor | crates/core_sync/src/engine.rs:103-115 | the engine starts with its own device id and a clock at the current time |
| SyncEngine.Engine.TickClock | crates/core_sync/src/engine.rs:118-127 | the clock and the answer are those of `tick`, strictly above the old clock |
| SyncEngine.Engine.PushPending | crates/core_sync/src/engine.rs:133-173 | the batches concatenate to a listing of the unsynced entries; it succeeds if and only if every batch is delivered, and then the total is the growth of the server log; otherwise it stops at the first batch that is not delivered, exactly the batches before it are marked, and it is at the server if and only if its reply is what was lost |
| SyncEngine.AnsweredMeans | crates/core_sync/src/engine.rs:144-170 | the batches in front of the first that is not delivered are all of them if and only if every batch is delivered |
| SyncEngine.BatchByBatch | crates/core_sync/src/engine.rs:144-170 | marking and pushing batch by batch is marking and pushing all at once |
| SyncEngine.Engine.PushBatch | crates/core_sync/src/engine.rs:143-170 | a batch of 1 to 500 operations is never refused; it is marked exactly when the reply comes back |
| SyncEngine.Engine.TakeNext | crates/core_sync/src/engine.rs:202-234 | skips an own row, merges and applies any other; stops exactly where the clock overflows or the operation is refused |
| SyncEngine.Engine.TakePage | crates/core_sync/src/engine.rs:201-234 | takes the rows of a page in order up to the first that stops it |
| SyncEngine.Engine.TakeAndSave | crates/core_sync/src/engine.rs:201-256 | after a page the position is saved behind it or in front of the refused operation, not at all if the clock overflowed or the save fails, and the outcome is decided accordingly |
| SyncEngine.Engine.PullRemote | crates/core_sync/src/engine.rs:179-261 | the outcome, the saved cursor, the tables and the clock are exactly those of `PullFrom` for the given replies, saves and clock readings; they are right in the sense of `PullEndsRight`, and no operation is passed over in the sense of `PullPassesNone` |
| PullSpec.PullEndsRight | crates/core_sync/src/engine.rs:179-261 | success means that a request was answered, nothing of the user is left in that log and the cursor is saved behind everything, with the last request unless it stood there before; a transport error means that the next request is not answered; an apply error, that the cursor is saved right in front of the refused operation; a failed save or an overflowing clock, that the last position is not saved; always exactly the rows between the old cursor and the position were taken |
| PullSpec.AtRows | crates/core_sync/src/engine.rs:201-234 | taking the next rows of a log leaves the pull behind exactly these, or stopped in front of one of them |
| PullSpec.AtGrows | crates/core_sync/src/engine.rs:188-199 | where a pull stands does not depend on what the log has grown by since |
| PullSpec.TakeRowsConcat | crates/core_sync/src/engine.rs:201-234 | page by page is all at once, up to the first row that stops the pull |
| PullSpec.NextPullStartsAt | crates/core_sync/src/engine.rs:188-199 | a later pull from a saved position starts with the very operation the earlier one stopped at, however much the log has grown |
| PullTheorems.TakingMeans | crates/core_sync/src/engine.rs:201-234 | taking rows is not stopped if and only if all foreign operations among them apply and no merge overflows, and then leaves the tables, the clock and the counts of applying and merging exactly these in order |
| PullTheorems.StandingMeans | crates/core_sync/src/engine.rs:201-242 | wherever a pull stands it holds the tables with exactly the foreign operations between the old cursor and its position applied in order, and the clock that has merged them |
| PullTheorems.StoppingMeans | crates/core_sync/src/engine.rs:207-233 | in front of a refused operation the clock has merged it and the tables are unchanged by it; in front of an overflow both are |
| PullTheorems.NoneBlocksIff | crates/core_sync/src/engine.rs:198-233 | the operations behind a position of a log go through if and only if no row there of another device is malformed or a progress write for an unregistered book stamped above what is stored |
| PullTheorems.StoppedInFront | crates/core_sync/src/engine.rs:227-252 | a pull stopped by an operation it cannot apply stands in front of the first such row of the log |
| PullTheorems.PullPassesNone | crates/core_sync/src/engine.rs:179-261 | however a pull ends, no such row lies between the old cursor and the saved one; if it succeeds there is none in the whole log last served; if it ends with an apply error there is one and the saved cursor is in front of the first |
| PullTheorems.LastPageUnsaved | crates/core_sync/src/engine.rs:207-252 | a position that cannot be saved, and a clock that overflows, leave the saved cursor where it would be if the last request had not been answered |
| PullTheorems.PullOfFixedLog | crates/core_sync/src/engine.rs:188-257 | with every request answered from one log and every save succeeding, a pull takes the rows of the whole log up to the first that stops it, in exactly as many requests as there are pages if none does |
| PullTheorems.PullSucceedsIff | crates/core_sync/src/engine.rs:179-261 | such a pull succeeds if and only if no row of another device behind the cursor is malformed or a progress write for an unregistered book stamped above what is stored, and no merge overflows; then it takes max(1, ceil(n / 100)) requests for n operations, saves the position behind the last and reports how many were applied |
| EngineRuns.PullIsReachable | crates/core_sync/src/engine.rs:179-261 | every pull, however it ends and whatever the other replicas do between its requests, is a run of the machine, good if those of the others are, that leaves the replica idle with the tables and the saved cursor the engine leaves |
| EngineRuns.PushIsReachable | crates/core_sync/src/engine.rs:133-173 | every end of `PushPending`, after any number of answered batches and after one more whose reply is lost, is a run of the machine with the same op log and server log, good if the operation ids are honest where that is asked |
| EngineKeeps.PullKeeps | crates/core_sync/src/engine.rs:179-261 | after any good run from the start and any pull of an engine, whatever way it ends, the replica has what runs keep: nothing lost below the saved cursor, marked entries in the log, winning progress and preference rows, bookmarks and annotations following the log |
| EngineKeeps.PushKeeps | crates/core_sync/src/engine.rs:133-173 | the same for all replicas after any push of an engine |
| SyncRuns.IdsStayUnique | crates/backend/src/handlers/sync.rs:83-119 | in every reachable state no operation id is twice in the log of a user |
| SyncRuns.NoLostOp | crates/core_sync/src/engine.rs:179-261 | in every reachable state, after any mix of errors, lost replies and crashes, each operation of the user at or below the saved cursor has been applied without error or carries the device id of the engine itself |
| SyncRuns.MarkedIsInLog | crates/core_sync/src/engine.rs:143-170 | in every reachable state an entry marked synced is in the server log, and every row there under a device is one of the entries of that device |
| SyncRuns.PushKeepsEntriesUnique | crates/backend/src/handlers/sync.rs:83-119 | a push under the ids its entries already have puts no entry into the log twice |
| SyncRuns.StableIdsPushOnce | crates/core_sync/src/engine.rs:133-173 | when retries reuse the operation id, each op-log entry is in the log at most once in every reachable state, and exactly once as soon as it is marked |
| Convergence.AlwaysWinning | crates/core_storage/src/db.rs:495-519 | in every reachable state each progress and preference row is a seen write with the largest stamp seen, and an own write gives way only to a strictly larger one |
| Convergence.LwwConvergence | crates/core_storage/src/db.rs:490-519 | for every run with crashes, lost replies and retries: once everything is pushed and pulled, the replicas of a user agree on a progress or preference key if and only if no two different writes to it share the largest stamp |
| Convergence.LwwTablesConverge | crates/core_storage/src/db.rs:571-595 | so without such ties the quiescent replicas hold equal progress and preference tables |
| MarkConvergence.AlwaysMarked | crates/core_storage/src/db.rs:520-570 | in every reachable state a bookmark or annotation that nothing outstanding will touch is the effect of the last write to it in the log |
| MarkConvergence.MarkIsLastLogged | crates/core_storage/src/db.rs:520-570 | when no engine skips anything and the books are the same, every bookmark and annotation of a quiescent replica is the effect of the last write to it in the log, retries that duplicated operations included |
| MarkConvergence.MarkTablesConverge | crates/core_storage/src/db.rs:520-570 | so the quiescent replicas of a user hold equal bookmark and annotation tables |
| Divergence.ConcurrentMarksAgreeIff | crates/core_sync/src/engine.rs:202-205 | two replicas at rest write one bookmark or annotation before seeing the write of the other: once both have pulled everything they agree if and only if the engine of the one that pushed second does not skip its own operations or both writes have the same effect |
| FailingRuns.SkippingOwnDiverges | crates/core_sync/src/engine.rs:202-205 | an instance as a run from the initial state that meets every other demand of the convergence theorem |
| Divergence.WriteAgreesIff | crates/core_storage/src/db.rs:495-519 | two replicas agree on a progress or preference key, one writes it and the other applies the write: they still agree if and only if the write is stamped above the stored row or repeats it |
| Divergence.OneWriteTravels | crates/core_state/src/lib.rs:76-214 | over a whole run: from rest, a write of one replica is pushed and pulled by another and by itself, and both are at rest again; they agree on a bookmark or annotation if and only if the reader has registered the book or holds the row already, and on a progress or preference key on which they agreed if and only if the write is stamped above the stored row or repeats it |
| Divergence.ConcurrentWritesAgreeIff | crates/core_storage/src/db.rs:495-519 | two replicas at rest write one progress or preference key before seeing the write of the other: once both have pulled everything they agree if and only if the stamps differ or the writes are the same |
| FailingRuns.TiedStampsDiverge | crates/core_storage/src/db.rs:495-519 | a run from the initial state that meets every demand of the last-writer-wins theorem but for a tie: two devices write one preference under one stamp and end, at rest, each with its own |
| FailingRuns.UnknownBookDiverges | crates/core_storage/src/db.rs:520-540 | a run from the initial state in which a device that has not registered the book never gets the bookmark, at rest and without an error |
| FailingRuns.StaleStampDiverges | crates/core_state/src/lib.rs:193-214 | an instance as a run from the initial state that meets every other demand of the convergence theorem |
| Divergence.TornWriteAgreesIff | crates/core_state/src/lib.rs:76-214 | a crash between a row and its op-log entry leaves replicas at rest that were at rest, and leaves them in agreement on a key if and only if no row was written, it is of another key, or it is the row that was there |
| FailingRuns.TornWriteDiverges | crates/core_state/src/lib.rs:193-214 | an instance as a run from the initial state that meets every other demand of the convergence theorem |
| Divergence.EntriesStayUniqueIff | crates/backend/src/handlers/sync.rs:83-119 | a push keeps every op-log entry at most once in the log if and only if it sends no entry that is there under another operation id |
| FailingRuns.FreshIdsDuplicate | crates/ffi_c/src/lib.rs:1748-1764 | an instance as a run: with an operation id drawn afresh at every listing, a lost reply puts one entry into the log twice |
| AuthTables.CutoffsKept | crates/backend/src/handlers/auth.rs:261-293 | every request keeps the cutoff of each device at least that of its user and none in the future, given a clock that does not run backwards |
| AuthTables.InvKept | crates/backend/src/handlers/auth.rs:199-635 | every request keeps all invariants of the three tables |
| AuthEffects.LoginSucceedsIff | crates/backend/src/handlers/auth.rs:199-305 | a session if and only if the row names a user who is there, not deleted and has exactly this password, and the new hash is unused; invalid credentials if and only if one of the first three fails |
| AuthEffects.LoginRows | crates/backend/src/handlers/auth.rs:227-305 | row by row what a login does: the unrevoked tokens of the device revoked as replaced, the new token with its expiry thirty days ahead, the device active with the later of its cutoff and now, the claims issued at that cutoff, nothing else; unless it succeeds nothing changes |
| AuthEffects.RefreshRows | crates/backend/src/handlers/auth.rs:308-503 | row by row what a refresh does: the presented token revoked as rotated, the new one there, the device active; on reuse the cutoff of the user raised and all sessions revoked; any other answer changes nothing |
| AuthEffects.ChangePasswordAnswers | crates/backend/src/handlers/auth.rs:547-603 | each of the four answers with its exact condition; only success changes anything, and leaves the user with the new password, a raised cutoff and no session |
| AuthEffects.DeleteAccountRows | crates/backend/src/handlers/auth.rs:606-635 | the user marked deleted with a raised cutoff, all sessions revoked, nothing else |
| AuthEffects.ProtectedAnswers | crates/backend/src/middleware.rs:58-80 | a request behind the middleware is turned away, with nothing changed, if and only if its user is gone or deleted, its device is gone or inactive, or its access token was issued before one of their cutoffs; else it does its work |
| AuthServer.Backend.RevokeAllUserDeviceSessions | crates/backend/src/handlers/auth.rs:90-122 | row by row: every token of the user is revoked and keeps the reason it has, every device of the user is deactivated with the later of its cutoff and now, every other row and column is unchanged |
| AuthServer.Backend.HandleLogin | crates/backend/src/handlers/auth.rs:199-305 | refused if and only if the lookup finds nobody or a deleted user, or the password is another one; a session if also the new hash is unused; only a session changes the tables, and then row by row: the unrevoked tokens of the device replaced, the new token valid for thirty days, the device active, nothing else |
| AuthServer.Backend.HandleRefresh | crates/backend/src/handlers/auth.rs:308-503 | a new session only for a known, unrevoked, unexpired token of the device, which it spends, row by row; reuse if and only if the token was rotated before, and then all sessions of its user are revoked with the cutoff raised; any other answer changes nothing |
| AuthServer.Backend.HandleDrop | crates/backend/src/handlers/auth.rs:513-535 | row by row: the unrevoked tokens of the device are revoked for the reason, the device is deactivated with the later of its cutoff and now, every other row and column is unchanged |
| AuthServer.Backend.HandleChangePassword | crates/backend/src/handlers/auth.rs:547-603 | done if and only if the new password has eight bytes, the user is live and the old password is right; then the user has the new password, a raised cutoff and no session; otherwise nothing changes |
| AuthServer.Backend.HandleDeleteAccount | crates/backend/src/handlers/auth.rs:606-635 | the account marked deleted, the password kept, its cutoff raised and all sessions revoked, row by row |
| AuthServer.Backend.ServeInTime | crates/backend/src/handlers/auth.rs:199-710 | whatever is requested, later than everything before: the invariants of the tables are kept |
| AuthRuns.ReachableInv | crates/backend/src/handlers/auth.rs:236-277 | in every reachable state: at most one unrevoked token per user and device, none for an inactive device or a deleted user, a device row for every token, a reason exactly on revoked tokens, cutoffs of devices at least those of their users and none in the future |
| AuthRuns.DeadBranches | crates/backend/src/handlers/auth.rs:385-448 | in no reachable state does `refresh` answer that the device is missing, inactive or newer; nor with a double spend, which needs no invariant, since lookup and update are one step |
| AuthRuns.RefreshSucceedsIff | crates/backend/src/handlers/auth.rs:323-491 | in reachable states `refresh` succeeds if and only if the token is known, belongs to the device, is neither revoked nor expired, and the new hash is unused; it detects reuse if and only if the token was rotated before; it refuses every other token |
| AuthRuns.NewPasswordSignsIn | crates/backend/src/handlers/auth.rs:547-603 | in every run, after a successful change of password and until the next one: a login of the user with the new password succeeds, unless the account is deleted or the new hash is taken, and with any other password it is refused |
| AuthRuns.FrozenBetween | crates/backend/src/handlers/auth.rs:90-122 | along every run a token keeps its user, device and expiry, and once revoked it stays revoked for the reason first written |
| AuthRuns.RedeemedOnce | crates/backend/src/handlers/auth.rs:323-491 | no refresh token is redeemed twice in any run, from whatever device |
| AuthRuns.CutoffsRiseBetween | crates/backend/src/handlers/auth.rs:261-293 | along every run no cutoff decreases, no row disappears and no deleted account comes back |
| AuthRuns.RejectedForever | crates/backend/src/middleware.rs:77-80 | an access token once below the cutoff of its user or device is rejected in every later state |
| AuthRuns.IssuedIsAccepted | crates/backend/src/handlers/auth.rs:279-304 | the access token of every successful login or refresh passes the middleware in the state right after |
| AuthRuns.SignedOutBetween | crates/backend/src/handlers/auth.rs:506-544 | a signed-out device stays signed out until a successful login on it |
| AuthRuns.SignedOutIsPowerless | crates/backend/src/middleware.rs:61-80 | on a signed-out device no access token is accepted and no refresh token redeemed, whoever presents it and when |
| AuthRuns.RevokesAllSignsOut | crates/backend/src/handlers/auth.rs:342-371 | reuse detection, a password change and an account deletion each sign out every device of that user |
| AuthRuns.GlobalRevocation | crates/backend/src/handlers/auth.rs:90-122 | after any of them, until a later successful login on a device, none of the access tokens of that device is accepted and none of its refresh tokens redeemed |
| AuthRuns.DeletedForever | crates/backend/src/handlers/auth.rs:606-635 | after an account is deleted no login of it ever succeeds, so that revocation is permanent |
| AuthRuns.DropIsLocal | crates/backend/src/handlers/auth.rs:513-535 | logging out or removing a device signs that device out and changes no user, no other device, no token of another device and no decision of the middleware about them |
| AuthClient.AuthManager.constructor | crates/core_auth/src/lib.rs:164-185 | starts from the stored token in the state that asks for a refresh, or signed out |
| AuthClient.AuthManager.SignIn | crates/core_auth/src/lib.rs:218-244 | memory, store and state change only when the provider grants and the store takes the token |
| AuthClient.AuthManager.Refresh | crates/core_auth/src/lib.rs:247-302 | field by field: after a network, server, storage, registration or unknown error the token stays in memory and store and the state asks for a refresh; after the three other errors memory is empty, the store is cleared if it can be, and the state asks for a login; a grant that cannot be saved changes nothing; a saved one is the token held, with the old user id if it has none |
| AuthClient.AuthManager.GetValidToken | crates/core_auth/src/lib.rs:305-321 | answers a token only in the authenticated state, refreshing first exactly when the state asks for it |
| AuthClient.AuthManager.SignOut | crates/core_auth/src/lib.rs:324-336 | signs out locally whatever the server says, unless the store cannot be cleared |
| AuthClient.AnsweredRefresh | crates/core_auth/src/lib.rs:247-302 | client and server: an answered refresh gives the client a new session if and only if its token is known, of its device, unrevoked and unexpired, the new hash is unused and the token is saved; it ends the session if and only if the token is not such; else the client keeps what it has |
| AuthClient.AnsweredLogin | crates/core_auth/src/lib.rs:218-244 | client and server: an answered login signs the client in if and only if the row names a live user with exactly this password, the new hash is unused and the token is saved; else the client keeps what it has |
| AuthClient.KeepsTokenUntilReply | crates/core_auth/src/lib.rs:287-302 | in every run of clients and server, a client that gets no reply, or only that the server is in trouble, holds its tokens in memory and store however often it tries; its state asks for a refresh from its first attempt on |
| AuthClient.OnlyPresentedIsRotated | crates/backend/src/handlers/auth.rs:373-405 | a request rotates no token but the one it presents |
| AuthClient.RefreshKeepsUsable | crates/core_auth/src/lib.rs:247-302 | a client whose tokens were never rotated is not taken for reuse, and holds only such tokens after a refresh unless the server issued a new session that did not arrive or was not saved |
| AuthClient.AlwaysSound | crates/core_auth/src/lib.rs:164-302 | in every run of clients and server in which replies with a new session arrive and are saved (any other reply may be lost), every held token is known, of the holding device, and not rotated |
| AuthClient.ClientsNeverTriggerReuse | crates/backend/src/handlers/auth.rs:332-383 | so whatever other devices and users do, a refresh by a client is never taken for reuse |
| AuthClient.LostRefreshSignsOut | crates/backend/src/handlers/auth.rs:332-383 | that demand is needed: in every run, after a new session that did not arrive or was not saved, whatever happens meanwhile, as long as the client holds the old token its next refresh is taken for reuse and signs the user out on every device |
| XhtmlDom.ParseXhtmlToDom | crates/core_parser/src/epub.rs:668-805 | the event loop builds the forest of the step function, and fails exactly when the reader does |
| XhtmlDom.ReadEvent | crates/core_parser/src/epub.rs:681-800 | the body of the loop is one step, branch by branch |
| XhtmlDom.LocalNameIs | crates/core_parser/src/epub.rs:682 | a local name is what lies behind the last colon of its tag, and all of it when there is none |
| XhtmlDom.HeadingTags | crates/core_parser/src/epub.rs:808-816 | headings are exactly the tags of an h, in either case, and a digit from 1 to 6, which is the level |
| XhtmlDom.SingleTags | crates/core_parser/src/epub.rs:817-833 | which tags, in lower case, stand for paragraphs, links, breaks, lists, items, quotes, tables and rows |
| XhtmlDom.TagsInPairs | crates/core_parser/src/epub.rs:817-833 | which pairs of tags stand for images, emphasis, strong text, code and cells |
| XhtmlDom.StartWrites | crates/core_parser/src/epub.rs:680-719 | inside the body a start tag opens a node of its type with all its attributes |
| XhtmlDom.EmptyWrites | crates/core_parser/src/epub.rs:741-771 | an empty tag opens and closes one |
| XhtmlDom.TextWrites | crates/core_parser/src/epub.rs:720-740 | a text becomes a node as it is, unless it is white space throughout |
| XhtmlDom.EndWrites | crates/core_parser/src/epub.rs:772-796 | an end tag closes the innermost open node |
| XhtmlDom.BuiltIsRead | crates/core_parser/src/epub.rs:668-805 | after every properly nested prefix the built forest with its open elements, written back, is what was read of the body, and the counter stack is one longer than the node stack |
| XhtmlDom.RoundTrip | crates/core_parser/src/epub.rs:668-805 | for every nested stream with all elements closed the forest, written back, is the body with tags mapped to node types, empty tags expanded and blank text dropped; both stacks end at their start depth |
| DomUnique.WritingDetermines | crates/core_parser/src/epub.rs:668-805 | forests written alike are alike in types, texts, attributes and nesting |
| DomUnique.OnlyForest | crates/core_parser/src/epub.rs:668-805 | of all forests with anchors by place, the one the parser builds is the only one that writes back as the body of the stream |
| CfiAnchors.RenderInjective | crates/core_parser/src/epub.rs:852-863 | different numeric paths are rendered as different anchors |
| CfiAnchors.FeedPlaced | crates/core_parser/src/epub.rs:696-795 | every event keeps the counters counting their level and every node anchored by its place |
| CfiAnchors.AnchorsOfForest | crates/core_parser/src/epub.rs:696-743 | siblings below the top level get 2, 4, 6, ... in document order behind the path of their parent; top-level nodes all get "/2" |
| CfiAnchors.DescendantAnchor | crates/core_parser/src/epub.rs:852-863 | the anchor of a strict descendant spells out its place and extends that of its parent by one even step |
| CfiAnchors.DescendantsDiffer | crates/core_parser/src/epub.rs:852-863 | two strict descendants of one top-level node have the same anchor if and only if they are the same node |
| CfiAnchors.SameAnchorIffSamePlace | crates/core_parser/src/epub.rs:852-863 | any two nodes of a forest have the same anchor if and only if they are at the same place below their top-level nodes, where a top-level node has the place of its first child |
| CfiAnchors.NamesOneNodeIff | crates/core_parser/src/epub.rs:852-863 | an anchor names one node of the whole forest if and only if that is an only top-level node without children, or it is not a first child of a top-level node and no other top-level node has a node at its place |
| CfiAnchors.FirstChildClash | crates/core_parser/src/epub.rs:852-863 | a top-level node with children shares its anchor "/2" with the first of them |
| CfiAnchors.ParagraphAndItsTextClash | crates/core_parser/src/epub.rs:696-743 | a concrete body: one paragraph and the text in it both have the anchor "/2" |
| CfiAnchors.TopLevelClash | crates/core_parser/src/epub.rs:852-863 | all top-level nodes share their anchor, and so do equal places below different ones, since the root counter is left out |
| TxtSplit.SplitIntoParagraphs | crates/core_parser/src/txt.rs:245-286 | the index loop computes the declarative split at runs of two or more CR/LF bytes, blank parts removed |
| TxtSplit.SplitParagraphs | crates/core_parser/src/txt.rs:207-241 | the nodes are the trimmed paragraphs, numbered "/2", "/4", ... |
| TxtSplit.ParagraphsAreUnbroken | crates/core_parser/src/txt.rs:245-286 | no paragraph is blank or holds two adjacent line ends, LF or CR |
| TxtSplit.ParagraphsAreCutOut | crates/core_parser/src/txt.rs:245-286 | the paragraphs lie in the text in order, each ending at the second of two adjacent line ends or at the end of the text, with nothing but white space outside them |
| Strings.WhiteOnesAre | crates/core_parser/src/txt.rs:213-217 | white space is what trimming removes: the 25 characters with the property White_Space |
| Strings.TrimIsTight | crates/core_parser/src/txt.rs:213-217 | trimmed text lies between two positions outside which there is only white space, and has none at its ends |
| Strings.DecimalSpells | crates/core_parser/src/txt.rs:221 | a number is written in digits that spell it, without leading zeros |
| TxtSplit.ParagraphsConserve | crates/core_parser/src/txt.rs:245-286 | the paragraphs hold, in order, exactly the characters of the text that are not white space |
| TxtSplit.UnbrokenIsOneParagraph | crates/core_parser/src/txt.rs:245-286 | a text without a blank line is one paragraph |
| TxtSplit.SplitIntoChapters | crates/core_parser/src/txt.rs:290-317 | for any ordered disjoint heading matches, two or more: a preface if there is something in front, then for each heading its title and what follows up to the next; together exactly the characters of the text that are not white space |
| TxtSplit.ChaptersCarryTheText | crates/core_parser/src/txt.rs:290-317 | the preface and the first n chapters carry exactly the text in front of the next heading |
| TxtSplit.ChaptersConserve | crates/core_parser/src/txt.rs:119-141 | splitting the chapters further into paragraphs loses nothing either |
| SizeSplit.FindCut | crates/core_parser/src/txt.rs:336-376 | the cut is the end of the text, or the last double newline in its window, or the last single one, or the limit |
| SizeSplit.CutIsUnique | crates/core_parser/src/txt.rs:336-376 | that description fixes the cut |
| SizeSplit.SplitBySize | crates/core_parser/src/txt.rs:324-388 | for every text and chunk size: the sections are the trimmed, non-blank slices between the cuts numbered 1, 2, 3, ...; the call panics if and only if a cut falls inside a character or behind the one before, and else runs for ever if and only if a cut is where the one before is |
| SizeSplit.SectionsAreSlices | crates/core_parser/src/txt.rs:379-383 | the sections are exactly the slices that are not blank, trimmed, in the order of the text and numbered from 1 |
| SizeSplit.CutsExist | crates/core_parser/src/txt.rs:336-388 | every text has its list of cuts, up to its end or to the first cut that does not get ahead |
| SizeSplit.EndsOnEveryTextIff | crates/core_parser/src/txt.rs:336-388 | there is no text on which the loop runs for ever if and only if chunks are at least 200 bytes; below, one is given for every chunk size |
| SizeSplit.SlicesPartition | crates/core_parser/src/txt.rs:336-388 | the raw slices concatenate to the text, each is at most a chunk, and each but the last longer than a chunk less 200 |
| SizeSplit.SectionCount | crates/core_parser/src/txt.rs:336-388 | at most len / (chunk - 199) + 1 slices |
| SizeSplit.OnlyHardCutsPanic | crates/core_parser/src/txt.rs:340-380 | a cut falls inside a character if and only if its window holds no newline and the limit itself lies inside a character |
| SizeSplit.AsciiNeverPanics | crates/core_parser/src/txt.rs:324-388 | texts of ASCII characters are never cut inside a character |
| SizeSplit.ChineseTextPanics | crates/core_parser/src/txt.rs:324-388 | a concrete text of three-byte characters without newlines makes the call panic |
| Upload.UploadInit | crates/backend/src/handlers/files.rs:77-161 | the exact conditions for a session and for a conflict; the chunk size is the one asked for, or 4 MiB, and the number of chunks is rounded up: the last one is not empty and nothing is left over |
| Upload.CeilingBounds | crates/backend/src/handlers/files.rs:113-120 | (total - 1) * chunk < size <= total * chunk |
| Upload.SlicesAssemble | crates/backend/src/handlers/files.rs:300-330 | chunk files that hold the slices of a file concatenate to the file |
| Upload.AnyOrderAssembles | crates/backend/src/handlers/files.rs:188-230 | whatever was there, and however sends are ordered and repeated, once every index was sent the chunks concatenate to the file |
| Upload.CountIsEnough | crates/backend/src/handlers/files.rs:272-296 | distinct indexes in range are as many as the total if and only if none is missing |
| Upload.Session.constructor | crates/backend/src/handlers/files.rs:113-161 | a new session has no chunks |
| Upload.Session.Receive | crates/backend/src/handlers/files.rs:164-243 | a chunk is taken if and only if the session is pending, the user owns it, the index is in range and the size is within the limit; then exactly its row and file are replaced; the other answers each with their condition |
| Upload.Session.Complete | crates/backend/src/handlers/files.rs:246-408 | success if and only if all chunks are there and their concatenation has the promised hash and size and is no duplicate; then exactly that is stored; otherwise nothing changes, and each answer, in their order, has its exact condition; a chunk file is never found missing |
| Upload.ReadChunk | crates/core_sync/src/file_sync.rs:183-196 | short reads or not, the buffer is filled with the next slice of the file |
| Upload.SendChunk | crates/core_sync/src/file_sync.rs:198-224 | succeeds if and only if one of the first four attempts gets through and back; a lost reply leaves at most this chunk at the server |
| Upload.SendChunks | crates/core_sync/src/file_sync.rs:181-240 | the loop gets to the end if and only if each chunk gets through; then the session holds the slices of the file and as many bytes were acknowledged as it has |
| Upload.FillSession | crates/core_sync/src/file_sync.rs:181-255 | on an open session: success if and only if each chunk and the completion get through and there is no duplicate; then the server stores exactly the file; in any case it stores that or what was there |
| Upload.OpenSession | crates/core_sync/src/file_sync.rs:170-175 | a session is opened if and only if the request arrives and `upload_init` accepts it; its chunks then cover the file |
| Upload.UploadFile | crates/core_sync/src/file_sync.rs:126-255 | from the file on: success if and only if file and name are of legal size, no active file has its hash before or at the end, the requests to open and to complete get through and back, and each chunk does within four attempts; then the session stores exactly the file; in any case it stores that or nothing |

## Left out

- JSON: a stored operation is a value or a malformed text; the redundant `op_type` column is not modelled. `percentage` is a real number.
- SQLite: transactions are atomic steps, the position in the log is the sequence number, and I/O errors of the database are not modelled, apart from foreign keys and UNIQUE constraints. (`apply_remote_op` turns every failure of a bookmark or annotation write into `Ok(false)`, which the model has for foreign keys.)
- The text form of the saved cursor: it is a number, and a missing one counts as 0.
- The device id inside an op-log entry: the backend replaces it by the authenticated one.
- Books: the registered books of a replica are fixed; registering, deleting and cascades are not modelled.
- Engine.PushPending: between the batches of one push nobody else pushes; in the run model they do, at any point.
- A mutex poisoned by a clock panic: the panic is an outcome of the pull, what later calls would meet is not modelled.
- Reads of the backend outside its transactions: each handler is one atomic step at one time.
- Cryptography: a refresh token and a password stand for their hashes; signature and `exp` of an access token are taken as checked.
- Registration: checks of names, e-mail addresses and password lengths, and the lookup of a user by name; the row found is a parameter of the login.
- `AuthManager` calls that overlap: each call is one move of the run model. Changing a password or removing a device through the manager only forwards a request; it appears as a request of anyone.
- AuthClient.AlwaysSound: two clients of one run have different device ids, and only clients present the tokens they hold.
- XhtmlDom.RoundTrip: XML tokenizing, entity unescaping and attribute decoding are done by the library before an event arrives. Streams with surplus end tags are modelled by the step function but not by the theorem.
- CfiAnchors.AnchorsOfForest: counters are unbounded; the 32-bit wrap-around after 2^31 siblings is not modelled.
- TxtSplit.SplitIntoChapters: the heading pattern is a library matter; any ordered disjoint matches are covered. With fewer than two matches the text goes to `SplitBySize`.
- SizeSplit.SplitBySize: trimming UTF-8 bytes is a parameter.
- The table of contents (NCX, NAV), spine, metadata, path normalization, encoding detection and chunked decoding are not part of this model.
- Upload: one session at a time; whether another active file has the same hash is a parameter. Expiry of sessions, file names, downloads and listing are not part of this model.
- FFI, WASM bridge, scheduler, views, localization and configuration are not part of this model.
