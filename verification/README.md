# IRRd in Dafny

A model of the parts of IRRd, the Internet Routing Registry daemon, where several pieces of state have to agree,
with proofs of what they keep. Every component follows the branches, order and edge cases of its code.

| files | component |
|---|---|
| Journal, Store, StatusUpdates, DatabaseHandler, Transactions, Visibility, StatusOutcomes, Serials | the journaled object store: buffered writing, three visibility statuses, serials, commit and rollback |
| Nrtm4Server, Nrtm4Client, Nrtm4Convergence, Nrtm4ServerRuns, Nrtm4ClientRuns, Nrtm4Gap, Nrtm4StaleClock | NRTM version 4: deltas, snapshots and expiry, the client, and both together as a state machine |
| Text, Nrtm3Parser, Nrtm3Grammar, Nrtm3Streams, Nrtm3Generator, Nrtm3RoundTrip, Nrtm3Polling | NRTM versions 1 and 3: response text, stream parser, and polling |
| JsonSeq | the JSON sequence codec of NRTM version 4 |
| References, Acceptance, SubmissionHandler, BatchIntegrity | acceptance of a submission of changes and referential integrity |
| RoaTrie | ROA validation by a binary trie, by a query, and as RFC 6811 defines it |
| RoutePref, RoutePrefValidator | route preference, for all routes and around changed prefixes |
| SetResolver | resolving as-sets and route-sets |
| Preload, PreloadManager | reloading of the preload store by updater threads |
| RpslText, RpslRoundTrip, RpslLayout, Alphabets | RPSL attributes: extraction, rendering, and the characters they are made of |

Classes with fields stand for the classes and loops of the source; each method is proved equal to a specification
function, and the theorems are about that function or about a state machine built from it. Protocols with several
parties (both NRTM versions, serial allocation, preloading) are state machines; their steps may follow each other in
any order their guards, which are the locks and checks of the source, allow.

## Findings

Where a promise does not hold for all inputs, the exact condition is proved and a concrete case is given.

- An upsert that turns a visible object invisible writes no journal entry, so mirrors keep the old object.
- The scope filter update is keyed on the RPSL primary key alone; it changes rows that share the key without journaling them.
- An NRTM version 4 client that is behind takes over the version of the notification file without the data when the
  delta list does not lead up to that version: it is empty, or its newest delta is older than the version.
- A server run reads its clock before it has the lock. Delta expiry filters by timestamp, so with clocks out of order it
  can leave a hole, and then the notification file does not validate; or it can remove the newest delta and keep an
  older one. The file then validates but misleads clients that are behind, and after that every update that has
  something new fails until all listed deltas have expired.
- When all deltas expire and the snapshot is older than the status, the notification file does not validate.
- A failed update of the server has already removed the files of the deltas that had expired; when there are any, the
  next run finds them missing and gives the session up.
- A submission can leave a dangling reference when it deletes an object that it also writes, before the deletion, or
  submits again unchanged, before or after: a request is compared with the version that was stored before the submission.
- A reference that may mean a role or a person is refused when the submission deletes the one of that name, although
  the other stays.
- The preload manager counts live threads. A thread that has released the lock but has not ended yet is counted too,
  and then a reload request can be lost.
- The partial route preference pass can miss a route that outranks one strictly covering the changed prefix.
- Setting all preferences to zero does nothing at all: the early exit looks for a value that is true in Python. The
  administrator documentation (docs/admins/route-object-preference.rst) says that the same preference everywhere resets all routes to visible.
- In NRTM version 1 a client rejects the response when the journal has grown between the reading of status and journal.
- Between journal expiry and the next journaled commit the recorded bounds are stale, and a mirror that polls then can
  skip entries.
- A client of its own session whose next delta is gone falls back on the snapshot even when that is older than what it holds,
  and then goes back to an earlier version.
- An empty line in the middle of an object also loses the attribute it interrupts.
- Rendering drops empty lines at the ends of an attribute value, so parsing does not give these back.

## Model

| member | source | states |
|---|---|---|
| Visibility.ReplayEqualsVisibility | irrd/storage/database_handler.py:345-561 | over any sequence of upserts, deletes, suspensions, commits, rollbacks and status updates that are safe in this sense, replaying the journal of a source gives exactly its rows that are visible under all three statuses |
| Visibility.StepExact | irrd/storage/database_handler.py:563-694 | with status lists that describe the rows as they are, one event keeps journal replay and visible rows equal if and only if it is safe: an upsert hides no shown row, and a scope filter update reaches no shown row by accident |
| Visibility.UpsertSync | irrd/storage/database_handler.py:709-763 | an upsert keeps the mirror in step if and only if it does not turn a visible row invisible: such an upsert journals nothing |
| Visibility.StaleMirrorExample | irrd/storage/database_handler.py:755-763 | a concrete upsert of a visible row by an RPKI-invalid one leaves the mirror with the old text |
| Visibility.DeleteSync | irrd/storage/database_handler.py:563-633 | a delete keeps journal replay and visible rows equal |
| Visibility.SuspendSync | irrd/storage/database_handler.py:635-694 | a suspension, which journals a DEL whether or not the row was visible, keeps them equal |
| Visibility.RpkiSync | irrd/storage/database_handler.py:345-413 | with truthful old statuses, an RPKI update and the entries it journals keep them equal |
| Visibility.PrefSync | irrd/storage/database_handler.py:498-561 | a route preference update and the entries it journals keep them equal |
| Visibility.ScopeSync | irrd/storage/database_handler.py:415-496 | a scope filter update, which is keyed on the RPSL primary key alone, keeps them equal if and only if each row of the source is safe: one that shares its key with a row going out of scope is itself going out of scope or hidden anyway, and one that shares it only with rows coming into scope is itself listed, in scope already or hidden anyway |
| Visibility.ClosedListsSync | irrd/storage/database_handler.py:431-437 | it does when the lists hold every row with one of their primary keys |
| Visibility.SharedPkBreaksSync | irrd/storage/database_handler.py:431-437 | and does not for another visible row of the source that shares its primary key with a row put out of scope |
| Transactions.RollbackRestores | irrd/storage/database_handler.py:191-199 | after any calls without a commit, a rollback leaves exactly what was committed when they began, with a fresh tracker |
| Transactions.RollbackUndoes | irrd/storage/database_handler.py:191-199 | and whatever is called later answers and leaves the same as if the calls that were rolled back had never been made |
| Transactions.RollbackToLastCommit | irrd/storage/database_handler.py:163-199 | in any history, what follows a rollback answers and leaves the same as right after the last commit before it |
| Transactions.RollbackUndoesUpdates | irrd/storage/database_handler.py:191-199 | a rollback undoes status updates too |
| Transactions.CommitKeeps | irrd/storage/database_handler.py:163-189 | a commit makes durable the rows, journal, suspended objects and protected names that were visible just before it, and leaves nothing pending |
| Transactions.CallsTell | irrd/storage/database_handler.py:244-694 | after any calls, the committed database is what the committed calls make of the first one, and the visible one what they and the pending calls make of it: each row is the last write to its key, the journal has one entry for each visible upsert and each deletion or suspension that found its row, suspended objects keep their text, and a name is protected exactly when it was or was given up by a deletion that protects it |
| Transactions.StatusRowsTell | irrd/storage/database_handler.py:1095-1236 | a commit gives a status row to every source with a visible upsert, or a deletion or suspension that found its row, journaled or not, and to no other |
| Transactions.QueriesAnswerLastWrites | irrd/storage/database_handler.py:244-283 | a query answers, for every key, the last write that was not rolled back |
| Transactions.CallsAnswerWhatTheyFind | irrd/storage/database_handler.py:563-694 | a deletion or suspension answers whether that write left a row |
| StatusOutcomes.RpkiStatusesBecome | irrd/storage/database_handler.py:361-372 | with truthful lists without a common row, an RPKI update leaves each listed row with the status it is listed with, its text and its other statuses, and every other row as it was |
| StatusOutcomes.PrefStatusesBecome | irrd/storage/database_handler.py:523-534 | so does a route preference update |
| StatusOutcomes.ScopeStatusesBecome | irrd/storage/database_handler.py:431-441 | a scope filter update gives every row the status of the last list with its primary key and keeps all else |
| StatusOutcomes.ListedScopeExactly | irrd/storage/database_handler.py:431-441 | a listed object gets the scope status it is listed with if and only if no later list has its primary key |
| StatusOutcomes.RpkiJournalsChanges | irrd/storage/database_handler.py:374-413 | an RPKI update adds an ADD entry exactly for the rows of journaled sources it makes appear and a DEL entry exactly for those it makes disappear, each with the text of the row |
| StatusOutcomes.ScopeJournalsChanges | irrd/storage/database_handler.py:443-496 | a scope filter update does so for the listed objects that come into sight or go out of it |
| StatusOutcomes.PrefJournalsListed | irrd/storage/database_handler.py:536-561 | a route preference update does so for all listed objects that neither RPKI nor the scope filter hides |
| DatabaseHandlers.DatabaseHandler.Execute | irrd/storage/database_handler.py:244-322 | running any sequence of upserts, deletes, suspensions, flushing queries, commits and rollbacks with the buffer ends, and answers, as writing each operation at once does |
| Visibility.Perform | irrd/storage/database_handler.py:244-561 | any sequence of calls to the buffering handler, and of status updates that find its buffer empty, keeps journal replay and visible rows equal when all of it is safe |
| DatabaseHandlers.DatabaseHandler.UpsertRpslObject | irrd/storage/database_handler.py:285-322 | an upsert is buffered, after a flush if its key is in the buffer or it may exist; its effect is that of an immediate upsert |
| DatabaseHandlers.DatabaseHandler.Flush | irrd/storage/database_handler.py:709-763 | flushing changes nothing a reader could see: table, journal and tracker are those of immediate writing |
| DatabaseHandlers.DatabaseHandler.DeleteRpslObject | irrd/storage/database_handler.py:563-633 | a delete flushes first, removes the row if there is one, and journals it |
| DatabaseHandlers.DatabaseHandler.SuspendRpslObject | irrd/storage/database_handler.py:635-694 | a suspension flushes, removes the row, keeps its data aside, and journals a DEL |
| DatabaseHandlers.DatabaseHandler.UpdateRpkiStatus | irrd/storage/database_handler.py:345-413 | sets the status of the listed rows and journals those whose visibility changes |
| DatabaseHandlers.DatabaseHandler.UpdateScopefilterStatus | irrd/storage/database_handler.py:415-496 | sets the status of all rows with a listed primary key and journals the listed ones |
| DatabaseHandlers.DatabaseHandler.UpdateRoutePreferenceStatus | irrd/storage/database_handler.py:498-561 | sets the status of the listed rows and journals those whose visibility changes |
| DatabaseHandlers.DatabaseHandler.FinaliseTransaction | irrd/storage/database_handler.py:1095-1236 | records the oldest and newest journal serials and the serials of this transaction for every source seen |
| DatabaseHandlers.DatabaseHandler.Commit | irrd/storage/database_handler.py:163-189 | flushes, finalises and makes the whole transaction the committed state: rows, journal, suspended objects and protected names are those that were visible before |
| DatabaseHandlers.DatabaseHandler.Rollback | irrd/storage/database_handler.py:191-199 | the database is the committed one again, the buffer and the tracker are empty |
| DatabaseHandlers.DatabaseHandler.RecordOperation | irrd/storage/database_handler.py:1026-1093 | appends one journal entry with the next serial of its source if a journal is kept |
| Store.BatchIsOneByOne | irrd/storage/database_handler.py:709-763 | inserting a batch of rows without repeated keys and journaling afterwards equals upserting and journaling one by one |
| Store.InsertRowsIsBatch | irrd/storage/database_handler.py:725-747 | the batch statement, which is only accepted without repeated keys, equals its rows inserted in order |
| Serials.SerialsStayContiguous | irrd/storage/database_handler.py:1026-1093 | over all interleavings of transactions under the journal lock, rollbacks and expiry, the serials of every source are one contiguous interval |
| Serials.BoundsAreTheEnds | irrd/storage/database_handler.py:1095-1172 | after a commit that journaled the source, the recorded oldest and newest serials are the ends of that interval |
| Serials.RecordedBounds | irrd/storage/database_handler.py:1095-1172 | a commit that made serials records as journal bounds the smallest and largest serial in the journal of the source, and as bounds of what was seen the smallest and largest of those, the new serials and what was seen before; otherwise it changes nothing |
| Serials.SerialsAreUnique | irrd/storage/database_handler.py:1052-1075 | no two entries of a source have the same serial |
| Serials.SerialsAreNeverReused | irrd/storage/database_handler.py:1052-1075 | over runs in which the status of the source is not reset, a committed serial is never given to another entry, not even after expiry |
| Serials.StepKeepsInv | irrd/storage/database_handler.py:788-796 | each step, expiry of oldest entries included, keeps this |
| Nrtm4Convergence.ClientConverges | irrd/mirroring/nrtm4/nrtm4_client.py:75-114 | in every run of journal commits, server runs and client runs in which no client takes over a version that the listed deltas do not lead to, the client agrees on every key with the replay of the journal up to the last entry its version contains, except for keys touched by entries its snapshot saw already; once it is past those, it is exactly that replay |
| Nrtm4Convergence.ServerNeverSkips | irrd/mirroring/nrtm4/nrtm4_server.py:144-170 | in every run, whatever the clients do and however stale the clock and the highest serial of a server run are, each journal entry committed so far is after a successful update in the base snapshot of the session or in one of its deltas |
| Nrtm4Convergence.VersionsStayContiguous | irrd/mirroring/nrtm4/nrtm4_server.py:268-284 | in every run the notification file of the stored status validates, and the listed deltas have successive versions, none above that of the status |
| Nrtm4Convergence.NewestStayListed | irrd/mirroring/nrtm4/nrtm4_server.py:268-284 | when no update runs with a clock older than a listed delta, the listed deltas are the newest of the session, up to the version of the status |
| Nrtm4Convergence.StepKeepsInv | irrd/mirroring/nrtm4/nrtm4_server.py:108-219 | every step of server, client and journal writers keeps what is known of the server, and of the client too unless the step is a client run that skips |
| Nrtm4Convergence.OverlapIsHarmless | irrd/mirroring/nrtm4/nrtm4_server.py:348-361 | replaying entries that were replayed before, and more, leads where replaying them once does |
| Nrtm4Convergence.DeltasLead | irrd/mirroring/nrtm4/nrtm4_client.py:338-380 | loading the listed deltas after a version leads to the newest of them |
| Nrtm4Gap.ExactUnlessSkippedChanges | irrd/mirroring/nrtm4/nrtm4_client.py:220-260 | in every run, an exact client that runs without a reload takes over the version of the file, and is exact again if and only if it did not skip, or every object touched in the journal range it skipped ends there with what the client holds |
| Nrtm4Gap.SkippedDeltaIsLost | irrd/mirroring/nrtm4/nrtm4_client.py:240-260 | a complete run in which the only delta expires and the client takes over the newest version without its object |
| Nrtm4StaleClock.SkippedNewestIsLost | irrd/mirroring/nrtm4/nrtm4_client.py:240-260 | a complete run in which a server clock is behind, the newest delta expires before the one it follows, and an exact client takes over the newest version without its object although the delta list is not empty |
| Nrtm4StaleClock.NextUpdateFails | irrd/mirroring/nrtm4/nrtm4_server.py:144-172 | and the next update of that run fails, because the listed deltas would have versions 2 and 4, although none of them has expired |
| Nrtm4Server.FreshIsSuffix | irrd/mirroring/nrtm4/nrtm4_server.py:268-284 | with non-decreasing timestamps expiry keeps a tail of the deltas |
| Nrtm4Server.StaleTimestampExample | irrd/mirroring/nrtm4/nrtm4_server.py:268-284 | with a timestamp out of order it can remove a delta from the middle |
| Nrtm4Server.AllExpiredExample | irrd/mirroring/nrtm4/nrtm4_server.py:268-284 | when the only delta expires and the snapshot is older, the file does not validate |
| Nrtm4Server.ExactlyWhenUnfIsValid | irrd/mirroring/nrtm4/nrtm4_types.py:116-133 | for deltas with increasing versions up to the current one at most and any timestamps, the notification file validates after expiry if and only if any two deltas that stay with none that stays between them have successive versions, and the snapshot has the current version or a delta of that version stays |
| Nrtm4Server.ConsecutiveExactly | irrd/mirroring/nrtm4/nrtm4_server.py:268-284 | for any deltas and timestamps, what is left after expiry has consecutive versions if and only if neighbours that stay have successive versions |
| Nrtm4Server.ValidWithoutHole | irrd/mirroring/nrtm4/nrtm4_types.py:116-133 | while the listed versions run up to the current one, the file validates if and only if no expired delta lies between two that stay, and the newest delta stays or the snapshot has the current version |
| Nrtm4Convergence.UpdateSucceedsExactly | irrd/mirroring/nrtm4/nrtm4_server.py:144-172 | in every run, an update succeeds if and only if this condition holds for its listed deltas, the new one included |
| Nrtm4ServerRuns.UpdateExactly | irrd/mirroring/nrtm4/nrtm4_server.py:133-187 | in every run, a successful update moves on to the next version exactly when the journal has an entry behind the last delta, keeps session and snapshot, lists exactly the old and new deltas that are not older than a day, publishes what it stores, and goes on to make a snapshot exactly when the version has moved on since the last one, that one is older than the configured frequency and no other run is making one |
| Nrtm4ServerRuns.UpdateFailsCleanly | irrd/mirroring/nrtm4/nrtm4_server.py:144-172 | a failed update changes nothing in the stored state |
| Nrtm4Convergence.GapBlocksUpdates | irrd/mirroring/nrtm4/nrtm4_server.py:144-172 | in every run, once the listed deltas do not lead up to the version, an update with something new succeeds if and only if all listed deltas have expired |
| Nrtm4Server.WhenUnfIsValid | irrd/mirroring/nrtm4/nrtm4_types.py:116-133 | with non-decreasing timestamps and listed versions up to the current one, it validates if and only if deltas are left or the snapshot has the current version |
| Nrtm4Server.QueryIsSuffix | irrd/mirroring/nrtm4/nrtm4_server.py:352-361 | the entries of a delta are the tail of the journal from its first serial on |
| Nrtm4Server.NRTM4ServerWriter.ExpireDeltas | irrd/mirroring/nrtm4/nrtm4_server.py:268-292 | keeps exactly the deltas that are not older than the limit, and no other delta files |
| Nrtm4Server.NRTM4ServerWriter.WriteDelta | irrd/mirroring/nrtm4/nrtm4_server.py:348-361 | the entries of a delta file are the tail of the journal from its first serial on |
| Nrtm4Server.NRTM4ServerWriter.UpdateRepository | irrd/mirroring/nrtm4/nrtm4_server.py:144-172 | the status, the delta files and the notification file after one server run, also when the file does not validate |
| Nrtm4Server.NRTM4ServerWriter.VerifyIntegrity | irrd/mirroring/nrtm4/nrtm4_server.py:396-411 | a run goes on with the session exactly when the file of every listed delta exists |
| Nrtm4Server.FailedUpdateKeepsSession | irrd/mirroring/nrtm4/nrtm4_server.py:221-292 | after an update that failed, the next run goes on with the session if and only if no delta that was listed had expired |
| Nrtm4Server.NRTM4ServerWriter.PublishSnapshot | irrd/mirroring/nrtm4/nrtm4_server.py:200-217 | takes over the snapshot of an earlier version into the current status |
| Nrtm4Server.NRTM4ServerWriter.Initialise | irrd/mirroring/nrtm4/nrtm4_server.py:132-143 | begins a session at version 1 with a snapshot and no deltas |
| Nrtm4Client.NRTM4Client.Run | irrd/mirroring/nrtm4/nrtm4_client.py:75-114 | one client run equals its specification; it fails and changes nothing for an older file of its session unless a reload is forced, and a run that reloads holds exactly the snapshot |
| Nrtm4Client.NRTM4Client.ApplyDeltas | irrd/mirroring/nrtm4/nrtm4_client.py:338-380 | applies the items of all deltas from the next version on in order, and fails on an empty one |
| Nrtm4Client.NRTM4Client.LoadSnapshot | irrd/mirroring/nrtm4/nrtm4_client.py:288-336 | replaces all objects by those of the snapshot |
| Nrtm4Client.OlderFileFails | irrd/mirroring/nrtm4/nrtm4_client.py:243-247 | a file of the own session that is older than what is held fails the run unless a reload is forced |
| Nrtm4Client.ReloadExactly | irrd/mirroring/nrtm4/nrtm4_client.py:220-238 | after a forced reload, without a known version, in another session or when the next delta is gone, a run succeeds exactly when the snapshot is no newer than the file and, if the deltas are asked for at once, they continue it and none is empty; it then holds the snapshot, or the snapshot and those deltas, under their version |
| Nrtm4Client.ContinueExactly | irrd/mirroring/nrtm4/nrtm4_client.py:248-260 | otherwise a run succeeds exactly when no delta it needs is empty, and applies the deltas from the next version on |
| Nrtm4Client.GoesBackExactly | irrd/mirroring/nrtm4/nrtm4_client.py:252-258 | in its own session and without a forced reload, a client goes back to an earlier version if and only if the delta it needs is gone, the deltas are not loaded at once, and the snapshot is older than what it holds |
| Nrtm4Client.GoesBackExample | irrd/mirroring/nrtm4/nrtm4_client.py:252-258 | a file that lists deltas 5 and 6 and a snapshot of version 1 takes a client from version 3 back to version 1 |
| Nrtm4ClientRuns.OlderFileChangesNothing | irrd/mirroring/nrtm4/nrtm4_client.py:243-247 | in every run, a client that is given an older file of its session without a forced reload keeps what it holds, and nothing else changes |
| Nrtm4ClientRuns.ForcedReloadHoldsSnapshot | irrd/mirroring/nrtm4/nrtm4_client.py:224-226 | in every run, with a forced reload the client holds the snapshot of the file, whatever it held before |
| Nrtm4ClientRuns.VersionNeverGoesBack | irrd/mirroring/nrtm4/nrtm4_client.py:220-260 | over any stretch of a run in which the client gets files of its session, no reload is forced, and snapshots it falls back on are not older than what it holds, its session stays and its version never decreases |
| BatchIntegrity.IntegrityExactly | irrd/updates/parser.py:185-207 | if every strong reference in a source is satisfied before a submission, then after the requests of a self-supporting set are saved in strict mode that is so if and only if each reference of a write that lasts has a target that is written, resubmitted or kept and whose last request with an effect, if any, does not delete it |
| BatchIntegrity.BatchKeepsIntegrity | irrd/updates/handler.py:160-190 | so integrity is kept in strict mode whenever no object that the submission writes or resubmits is gone in the end |
| BatchIntegrity.LoadTextBlob | irrd/updates/handler.py:30-58 | a whole submission of writes and deletions, from new validators to the last write, keeps every strong reference of every source satisfied under these conditions |
| BatchIntegrity.DuplicateKeyBreaksIntegrity | irrd/updates/handler.py:160-190 | two submissions that are accepted and leave a reference dangling: one modifies an object and then deletes it, the other deletes it and then submits it again unchanged |
| BatchIntegrity.OldVersionIsDropped | irrd/updates/parser.py:196-205 | a modification stays although the stored version is submitted again after it |
| BatchIntegrity.SavedAt | irrd/updates/parser.py:185-225 | what saving leaves at a key is decided by the last accepted request for it that does not submit what was stored when the requests were read; without one, what was stored stays |
| SubmissionHandler.ChangeSubmissionHandler.ResolveValidity | irrd/updates/handler.py:160-186 | the loop ends as it would without a cache of reference checks; it makes at most one pass more than there are requests, so its guard is never reached; it ends in a set that supports itself; without deletions it keeps every self-supporting subset of the initially valid requests |
| SubmissionHandler.ChangeSubmissionHandler.OnePass | irrd/updates/handler.py:164-178 | announces the valid requests and validates each of them |
| SubmissionHandler.ChangeSubmissionHandler.Save | irrd/updates/parser.py:185-207 | saves the accepted requests in order, of which those equal to the version stored when the requests were read write nothing |
| SubmissionHandler.ChangeSubmissionHandler.HandleChangeRequests | irrd/updates/handler.py:140-192 | what is saved in the end is a set of requests that supports itself, and nothing else is written; each meets the conditions of PassesExactly within that set, and none that creates an object without an override takes a protected name |
| Acceptance.AuthIsMonotone | irrd/updates/validators.py:325-336 | approving more maintainers in advance never takes an approval away |
| Acceptance.PassShrinks | irrd/updates/handler.py:160-178 | a pass never makes a request valid that was not |
| Acceptance.PassIgnoresCache | irrd/updates/handler.py:175-178 | each status that a pass sets is what the request gets without any cache, and only requests of the pass change |
| Acceptance.PassKeepsSelfSupporting | irrd/updates/handler.py:160-178 | without deletions no member of a self-supporting set is lost in a pass |
| Acceptance.PassedIsMonotone | irrd/updates/validators.py:156-179 | announcing more new objects never turns a passing request down |
| Acceptance.PassesExactly | irrd/updates/parser.py:329-424 | a request passes as part of a submission if and only if a create is well-formed and in scope, a create or modify follows the rules and conflicts with no ROA, it has an override or maintainers of the new object, of the current object or else of a related one approve, references hold in both directions unless checks are not strict, and a create without override takes no protected name and none that is still referred to |
| Acceptance.ErrorsAreReal | irrd/updates/parser.py:329-424 | each error status names a check that the request fails, after all checks before it were passed |
| SubmissionHandler.SupportMeansQualified | irrd/updates/handler.py:160-186 | a set of requests supports itself if and only if each of them meets these conditions as part of it |
| Acceptance.ChangeRequest.Validate | irrd/updates/parser.py:329-351 | sets the status to what authorisation, references, protected names and rules ask for, in their order |
| Acceptance.ChangeRequest.CheckReferences | irrd/updates/parser.py:367-399 | checks references to others for a create or modify, and from others for a deletion |
| Acceptance.ChangeRequest.CheckProtectedNames | irrd/updates/parser.py:401-424 | refuses a create whose name is protected |
| References.CheckAllExact | irrd/updates/validators.py:134-179 | whatever the cache holds that checks of this submission have left in it, all references pass exactly when each is to a written or remaining object, and the first of its classes under which the submission has the key, if any, is one of a written object |
| References.CacheIsInvisible | irrd/updates/validators.py:156-179 | the cache never changes an answer |
| References.RefusedThoughKept | irrd/updates/validators.py:163-166 | a contact is refused when the submission deletes the role of that name, although a person of that name stays |
| References.ReferenceValidator.Preload | irrd/updates/validators.py:111-132 | the new and deleted keys are those of the given requests |
| References.ReferenceValidator.CheckReferenceToOthers | irrd/updates/validators.py:156-179 | decides one reference by cache, new, deleted and stored objects, in that order |
| References.ReferenceValidator.CheckReferencesFromOthers | irrd/updates/validators.py:257-288 | a deletion is refused while an object that is not deleted with it refers to it |
| RoaTrie.BulkRouteROAValidator.ValidateRoute | irrd/rpki/validators.py:131-153 | the trie gives Valid, Invalid or NotFound exactly as section 2 of RFC 6811 defines, for all ROAs and routes of either family |
| RoaTrie.SingleRouteROAValidator.ValidateRoute | irrd/rpki/validators.py:199-213 | so does the per-route query |
| RoaTrie.ValidationMeans | irrd/rpki/validators.py:131-153 | the answer is Valid exactly when some ROA has a block that holds every address of the route, allows its length and has its origin, which is not AS 0; NotFound exactly when no block holds them all; and Invalid otherwise |
| RoaTrie.ContainsExactly | irrd/rpki/validators.py:131-153 | one block contains another by its bounds exactly when every address with the network bits of the second has those of the first |
| RoaTrie.KeyPrefixIsContainment | irrd/rpki/validators.py:182-192 | a truncated binary string is a prefix of another exactly when the first address block contains the second, for 32 and 128 bits |
| RoaTrie.JoinedIsBits | irrd/rpki/validators.py:182-192 | joining the pregenerated digits of the address bytes gives the binary digits of the address |
| RoaTrie.ItemsAreCovering | irrd/rpki/validators.py:139-145 | the trie items found for a route hold exactly the ROAs that cover it |
| RoaTrie.BulkRouteROAValidator.Add | irrd/rpki/validators.py:155-180 | adding a ROA keeps the trie exact |
| RoaTrie.BulkRouteROAValidator.FromDatabase | irrd/rpki/validators.py:167-180 | the trie built from database rows holds exactly their ROAs, each with the address, length, origin and maximum length of its row |
| RoutePrefValidator.UpdateRoutePreferenceStatus | irrd/routepref/routepref.py:133-158 | after an update, every route that was looked at is suppressed exactly when an overlapping one among them has a higher preference, and all others are unchanged; nothing happens when no preference is set to something else than zero |
| RoutePrefValidator.UpdateMeans | irrd/routepref/routepref.py:133-158 | an update changes statuses only, and none unless some preference is set and not zero; without changed prefixes, or with more than 5000, a route ends suppressed exactly when an overlapping route is strictly preferred; otherwise this holds among the routes that overlap a changed prefix, and all others stay as they are |
| RoutePrefValidator.ResetsExactly | irrd/routepref/routepref.py:133-158 | with the same preference wherever one is set, an update of all routes makes them all visible if and only if that preference is not zero or they were visible before |
| RoutePrefValidator.ZeroResetsNothing | irrd/routepref/routepref.py:142-147 | with all preferences at zero a suppressed route stays suppressed |
| RoutePrefValidator.RoutePreferenceValidator.ValidateKnownRoutes | irrd/routepref/routepref.py:63-89 | the two lists are exactly the routes whose status is not the right one |
| RoutePrefValidator.RoutePreferenceValidator.EvaluateRoute | irrd/routepref/routepref.py:91-105 | suppressed exactly when some overlapping entry is preferred: the shortcut for the highest preference changes nothing |
| RoutePrefValidator.RoutePreferenceValidator.AddRoute | irrd/routepref/routepref.py:45-61 | the tree holds exactly the routes with a preference, the list exactly the suppressed ones without |
| RoutePrefValidator.BuildValidator | irrd/routepref/routepref.py:108-130 | all routes without a filter, otherwise those that contain or are contained in a filter prefix |
| RoutePref.NoMixedVisibleOverlaps | irrd/routepref/routepref.py:63-105 | after a full pass, two visible routes with preferences that overlap have the same preference |
| RoutePref.FullPassIsStable | irrd/routepref/routepref.py:63-89 | a second full pass changes nothing |
| RoutePref.PartialSuppressesNoMore | irrd/routepref/routepref.py:108-130 | what the pass around changed prefixes suppresses, the full pass suppresses too |
| RoutePref.PartialIsExactBelow | irrd/routepref/routepref.py:108-130 | for routes equal to or more specific than a changed prefix both passes agree |
| RoutePref.PartialMissesExactly | irrd/routepref/routepref.py:108-130 | the two passes differ on a route if and only if it is outranked, and all that outranks it lies strictly inside its prefix and beside every changed prefix |
| RoutePref.PartialMissesAbove | irrd/routepref/routepref.py:108-130 | for a route that strictly covers the changed prefix the partial pass can miss what outranks it |
| RoutePref.NestedOrDisjoint | irrd/storage/queries.py:311-340 | two blocks with a common block are nested |
| SetResolver.QueryResolver.MembersForSet | irrd/server/query_resolver.py:205-252 | the answer to a set query, direct or recursive, for any depth, root source and excluded sets; the recursion ends on every finite graph, cyclic or not |
| SetResolver.UnlimitedIsReachable | irrd/server/query_resolver.py:254-317 | without a depth limit the recursive answer is exactly the terminal members of the sets reachable from the root without entering an excluded set |
| SetResolver.QueryResolver.RoutesForAsSet | irrd/server/query_resolver.py:173-187 | the prefixes that some source stores for the AS numbers in the sets reachable from an as-set: among its IPv4 routes, among its IPv6 routes, or among both without a family |
| SetResolver.QueryResolver.RecursiveSetResolve | irrd/server/query_resolver.py:254-317 | resolving one level of the graph and the rest gives what the sets from that level on add; the measure is the names not seen yet |
| SetResolver.QueryResolver.FindSetMembers | irrd/server/query_resolver.py:319-355 | the members of the given sets, the names without a set, and the root class taken from the first set found |
| SetResolver.QueryResolver.Classify | irrd/server/query_resolver.py:278-305 | prefixes and AS numbers are terminal; in route-sets an AS number yields the prefixes it originates |
| SetResolver.NextLevel | irrd/server/query_resolver.py:307-317 | the new names one step further are exactly the next level of the graph |
| SetResolver.Preloader.SetMembersOf | irrd/storage/preload.py:125-149 | the first source that has the set, as-sets before route-sets |
| SetResolver.LookupMeans | irrd/storage/preload.py:125-149 | below an as-set only as-sets are found; otherwise an as-set of the first source that has one, and a route-set only if no source has an as-set of the name |
| SetResolver.ResolvingMeans | irrd/server/query_resolver.py:254-355 | the class of the root decides how members are read: a member is followed unless it is excluded, an AS number or, except from an as-set, a prefix; those are answered themselves, but below a route-set an AS number stands for the prefixes some source stores for it |
| SetResolver.Preloader.RoutesForOrigin | irrd/storage/preload.py:151-192 | for IPv4 exactly the prefixes that some source has in its IPv4 routes for the origin, for IPv6 those in its IPv6 routes, without a family both |
| SetResolver.EmptySetAnswer | irrd/server/query_resolver.py:205-252 | a set without members, which is stored as an empty text, is answered with one member without a name, directly and at depth 1; without a depth limit it adds nothing |
| Preload.RunsKeepInv | irrd/storage/preload.py:298-343 | in every run in which each request finds threads that can answer it, each part of the store is up to date, requested, about to be read or just read: no reload is lost, failures included |
| Preload.AtomicEndsAreHeard | irrd/storage/preload.py:335-343 | when each thread ends as it releases the lock, every request finds threads that can answer it |
| Preload.QuietIsUpToDate | irrd/storage/preload.py:472-578 | in such a run, with no request on its way and no thread left, the store holds what is in the database |
| Preload.AtMostTwoThreads | irrd/storage/preload.py:335-343 | in every run at most two threads are on the list and at most one has the lock |
| Preload.NeverStuck | irrd/storage/preload.py:450-470 | as long as there is a request or a live thread some step can be taken that loses no request |
| Preload.StepsAreFinite | irrd/storage/preload.py:450-498 | without new commits and failures every step comes closer to quiet |
| Preload.ReleaseBeforeExitLosesReload | irrd/storage/preload.py:335-343 | if a thread can be seen alive after it released the lock, a run without failures ends quiet with a stale store |
| Preload.ReloadsExactlyTheDependents | irrd/storage/preload.py:312-321 | a part is reloaded exactly when a class it is computed from has changed |
| Preload.RequestExactly | irrd/storage/preload.py:298-321 | a request reloads a part exactly when it names no classes, or one of route and route6 for the routes, of as-set and aut-num for the as-sets, or of route-set, route and route6 for the route-sets |
| Preload.RequestIsTaken | irrd/storage/preload.py:326-343 | after a request that does not find two live threads of which none waits, some thread that has not begun to read is flagged for everything requested |
| Preload.AnsweredExactly | irrd/storage/preload.py:326-343 | after a request some live thread will still read each of its parts, if and only if no two live threads are on the list of which none waits, or the running one has not come past any of the parts |
| Preload.FailureAnsweredExactly | irrd/storage/preload.py:478-578 | the reload of everything that a failing thread asks for will be done if and only if no two live threads are on the list of which none waits |
| PreloadManager.PreloadStoreManager.PerformReload | irrd/storage/preload.py:298-343 | the list and flags after a request |
| PreloadManager.PreloadStoreManager.RemoveDeadThreads | irrd/storage/preload.py:416-423 | dead threads are removed from the list that is being iterated over, so one after a removed one is skipped |
| Preload.RemovalExactly | irrd/storage/preload.py:416-423 | for a list of any length: live threads stay in order, and of dead ones exactly those go that are not right behind a removed one |
| Nrtm3RoundTrip.RoundTrip | irrd/mirroring/nrtm_generator.py:105-134 | a generated response, with any newlines behind it, parses to the same operations with the same serials; in version 1 it is rejected exactly when the journal went on past the serial in its START line |
| Nrtm3RoundTrip.GrownJournalIsRejected | irrd/mirroring/parsers.py:360-368 | in version 1 a response with a row that was committed after the status was read is rejected |
| Nrtm3RoundTrip.Truncation | irrd/mirroring/parsers.py:337-371 | every strict prefix of a response is rejected, or nothing of it is applied and no serial recorded |
| Nrtm3RoundTrip.IncreasingFollows | irrd/mirroring/parsers.py:425-443 | increasing serials not below the requested one are accepted in version 3 |
| Nrtm3RoundTrip.GaplessFollows | irrd/mirroring/parsers.py:425-428 | serials without gaps from the requested one on are accepted in version 1 |
| Nrtm3RoundTrip.CommentTakesNothing | irrd/mirroring/parsers.py:345-346 | a warning or error line takes nothing |
| Nrtm3Generator.Generate | irrd/mirroring/nrtm_generator.py:48-109 | a query is refused, answered by a warning, or answered by the rows of its range, under exactly these conditions |
| Nrtm3Generator.SelectedAreInRange | irrd/storage/queries.py:498-503 | the selected rows are all rows of the journal in the range |
| Nrtm3Generator.ServesExactly | irrd/mirroring/nrtm_generator.py:30-109 | while the recorded bounds fit the journal, a query gets a response exactly when a journal is kept, the first serial and any last serial other than 0 are in the journal in this order, no more is asked for than allowed, and the first row is not too old; it then has exactly the rows of the range |
| Nrtm3Generator.WriteResponse | irrd/mirroring/nrtm_generator.py:111-134 | START line, one piece per row, END line |
| Nrtm3Parser.NRTMStreamParser.SplitStream | irrd/mirroring/parsers.py:337-371 | accepts or rejects a stream, and records the newest serial only if it is accepted |
| Nrtm3Parser.NRTMStreamParser.HandleOperation | irrd/mirroring/parsers.py:414-458 | the serial of an operation, and that it can not be lower than expected |
| Nrtm3Parser.NRTMStreamParser.HandleStartLine | irrd/mirroring/parsers.py:373-412 | a second START line, another source or another version is rejected |
| Nrtm3Parser.StartLineParses | irrd/mirroring/parsers.py:17-22 | a generated START line parses to its version, source and serials |
| Nrtm3Streams.StreamExactly | irrd/mirroring/parsers.py:337-458 | a stream is taken, with these operations and this newest serial, if and only if it has no START line and no operation, or one START line, for the source, of version 1 or 3 and before any operation, the last comment is the END line of the source, no operation lacks its object, each has the name, the text and the serial its paragraph means, counting on from the START line and never down, and in version 1 none is beyond the last serial of the START line |
| Nrtm3Grammar.StartLineExactly | irrd/mirroring/parsers.py:17-22 | a START line is accepted, with these fields, if and only if it is written as the grammar says, with spaces where they may or must be |
| Nrtm3Grammar.NumberExactly | irrd/mirroring/parsers.py:430-431 | a serial is accepted if and only if it is digits with at most one sign, and white space around it |
| Nrtm3Grammar.OperationExactly | irrd/mirroring/parsers.py:414-446 | an operation is read with this name and serial if and only if its paragraph is the name alone, for the next serial, or the name, one space and a serial that is not below the next one |
| Nrtm3Polling.NothingSkipped | irrd/mirroring/mirror_runners_import.py:330-360 | over every run of polls, cut answers and server commits, with the status read before the journal, in which no response needs a row that has expired, the mirror has applied every entry up to its newest serial, and that never goes back |
| Nrtm3Polling.CatchesUp | irrd/mirroring/mirror_runners_import.py:330-360 | a whole response leaves the mirror with the whole journal, entries repeated from an earlier poll being harmless |
| Nrtm3Polling.CatchesUpExactly | irrd/mirroring/mirror_runners_import.py:330-360 | a whole response leaves the mirror with the whole journal if and only if none of the rows it had not applied has expired, or it holds already what those end with |
| Nrtm3Polling.NothingMissing | irrd/mirroring/nrtm_generator.py:48-74 | the response holds everything after the newest serial of the mirror exactly when no such entry has expired |
| Nrtm3Polling.PollExactly | irrd/mirroring/nrtm_generator.py:48-103 | while the bounds that were read fit the journal, a poll gets a response exactly when the journal has rows newer than the mirror, still has the first of them, and they are neither too many nor too old; the response has all of them |
| Nrtm3Polling.StaleBoundsSkip | irrd/mirroring/nrtm_generator.py:54-63 | when entries have expired and the bounds are stale, the mirror takes over the newest serial without them |
| Nrtm3Polling.ExpiredRowIsLost | irrd/mirroring/nrtm_generator.py:54-63 | a run in which a mirror holds the first of three rows, the second expires, and the mirror ends at the newest serial without the object of that row |
| Nrtm3Polling.ServedRowsOk | irrd/mirroring/nrtm_generator.py:105-109 | serials within a response strictly increase and are not below the requested one |
| Nrtm3Polling.RepeatedTail | irrd/mirroring/mirror_runners_import.py:356-360 | replaying a repeated tail of the journal and what follows leads to the whole journal |
| Nrtm3Polling.NRTMImportUpdateStreamRunner.Run | irrd/mirroring/mirror_runners_import.py:356-360 | saves the operations of an accepted stream in order and takes over its newest serial; a rejected one changes nothing |
| Text.SplitParagraphs | irrd/utils/text.py:50-79 | the loop gives the paragraphs of the text |
| Text.ParagraphsKeep | irrd/utils/text.py:50-79 | the paragraphs have exactly the lines that are not empty, not comments with a number sign and, on request, not lines with a percent sign, in order; only a blank end is dropped |
| Text.SplitLinesOfJoin | irrd/utils/text.py:36-47 | lines joined by newlines split into the same lines |
| RpslRoundTrip.RoundTrip | irrd/rpsl/parser.py:184-222 | extracting rendered attributes gives the same attributes in order, in normal form |
| RpslRoundTrip.NothingIsLost | irrd/rpsl/parser.py:258-310 | they are the same exactly when no value has an empty line at either end and every empty line is continued by a plus sign |
| RpslRoundTrip.EmptyLastLineIsLost | irrd/rpsl/parser.py:205-217 | a value that ends in an empty line does not come back |
| RpslRoundTrip.NormalIff | irrd/rpsl/parser.py:205-217 | the same for one attribute |
| RpslRoundTrip.AnyTextAgain | irrd/rpsl/parser.py:258-310 | whatever was extracted from any text, rendering and extracting it again gives its normal form |
| RpslRoundTrip.ExtractIsOk | irrd/rpsl/parser.py:258-310 | extraction only produces names that are allowed or well-formed, stripped lines and one continuation character per further line |
| RpslLayout.FailsExactly | irrd/rpsl/parser.py:258-310 | extraction fails exactly when some line is empty, or is neither a continuation nor an attribute with an acceptable name; it keeps what the lines before the first such line give, except that an empty line also loses the attribute it interrupts |
| RpslLayout.RenderedInColumns | irrd/rpsl/parser.py:184-222 | every line of a rendered attribute ends with its line of the value behind 16 columns, or more for a long name: the name and a colon, or the continuation character, which is a plus sign on an empty line, and spaces |
| RpslLayout.RenderedEmpty | irrd/rpsl/parser.py:207-208 | an attribute without a value is rendered as its name and a colon |
| Alphabets.NamesExactly | irrd/rpsl/parser.py:97 | attribute names are made of small letters, digits, underscores and hyphens |
| Alphabets.CaseExactly | irrd/rpsl/parser.py:296 | case conversion maps each letter to its partner and leaves all else as it is |
| RpslText.RPSLObject.ExtractAttributesValues | irrd/rpsl/parser.py:258-310 | the loop over the lines, with its errors, gives the specified attributes |
| RpslText.RPSLObject.RenderRpslText | irrd/rpsl/parser.py:184-222 | the text of all attributes, or of all but last-modified with a new one behind |
| JsonSeq.Decoder.Decode | irrd/mirroring/nrtm4/jsonseq.py:11-34 | the items, and whether one could not be loaded, depend only on the bytes and not on how they are cut into chunks |
| JsonSeq.RoundTrip | irrd/mirroring/nrtm4/jsonseq.py:46-52 | decoding what was encoded, cut in any way, gives the items back, if the texts of these items hold no record separator and load as the items |
| JsonSeq.AnyCutDecodes | irrd/mirroring/nrtm4/jsonseq.py:46-52 | whatever the lengths of the chunks in which encoded items arrive, they decode to the items |
| JsonSeq.Encoder.Encode | irrd/mirroring/nrtm4/jsonseq.py:37-43 | each item behind a separator and before a newline |
| JsonSeq.ChunkNext | irrd/mirroring/nrtm4/jsonseq.py:18-24 | the complete items of a buffer can be yielded before the rest is known |

## Left out

- SQL, SQLAlchemy, Redis commands, sockets, files, compression, downloads, email, logging, the web interface, GraphQL and scripts.
- Signatures, password hashes and keys: authentication is a predicate that is monotone in the approved maintainers.
- Removing password hashes and replacing personal data in served texts: texts are those that are served.
- The row identifier is the key (rpsl_pk, source, object_class); creation and update times are not modelled.
- Serials that are synchronised with another registry, and serials seen but not journaled.
- Journaling that is switched on or off while rows are buffered; loading ROA objects; deleting a source with its journal.
- What the changed objects tracker journals after the transaction is finalised, and its messages.
- Restoring and deleting suspended objects; suspension requests within a submission; two submissions at the same time.
- The fields of an object: references, names and rules are data of the model, not computed from attributes.
- The history of file hashes of the NRTM version 4 client; signing keys; a crash between writing a
  notification file and committing the status; journal expiry during an NRTM version 4 session; the force_reload flag of the server.
- The NRTM version 3 response header; texts of error answers, except that a line starting with a percent sign takes nothing.
- Attributes and object classes that a mirror filters out, and operations it cannot parse: every operation of a stream is applied.
- Timeouts and end markings of the whois client: a response arrives whole or as a prefix.
- Lost Redis messages and reconnection; the in-memory copies of the workers; threads of the preload manager are taken
  to perform a reload request without interruption.
- Characters outside ASCII in case conversion, white space, digits and names; digit separators in numbers.
- Sorting of query answers, and time-based caches.
- IP address parsing is a parameter of set resolution; prefixes in the other modules are address and length.
- Nrtm3Polling.NothingSkipped: assumes that no row a response needs has expired, since the stale bounds are then not noticed; the exact condition for one response is Nrtm3Polling.CatchesUpExactly, and a failing case Nrtm3Polling.ExpiredRowIsLost.
- Serials.SerialsAreNeverReused: assumes that the status of the source is not reset by a forced reload, which lets serials start again.
- Preload.RunsKeepInv: assumes that each request finds threads that can answer it, which is so when a thread ends as it releases the lock; the other case is Preload.ReleaseBeforeExitLosesReload.
- Nrtm4Convergence.ClientConverges: assumes that no client skips, that is, takes over a version the listed deltas do not lead to; the other case is Nrtm4Gap.ExactUnlessSkippedChanges.
- Nrtm4Convergence.GapBlocksUpdates: is about a session that goes on. The state machine lets a new session start at any time, and not just when a file is missing; Nrtm4Server.FailedUpdateKeepsSession says when a failed update leads to that.
- Nrtm4Convergence.NewestStayListed: assumes clocks in order; without that Nrtm4Convergence.VersionsStayContiguous remains, and Nrtm4StaleClock.SkippedNewestIsLost is a case where the newest delta is not listed.
- BatchIntegrity.BatchKeepsIntegrity: assumes strict mode and that no object that is written or resubmitted is gone in the end; the exact condition is BatchIntegrity.IntegrityExactly, and a failing case BatchIntegrity.DuplicateKeyBreaksIntegrity.
