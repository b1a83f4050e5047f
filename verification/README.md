# A verified model of chainbase's undo container and its journal

chainbase keeps objects in an in-memory table with several unique ordered indices. The table can be
rolled back through nested undo sessions, and every call on it can be logged to a journal file from
which an equal table is rebuilt after a crash.

The undo layer does not copy the table when a session starts. It keeps one live table, a list of
backups, a list of removed nodes and, for each open session, a record of two list positions, the next
key and a time stamp. This project shows that this small state stands for a stack of full copies.

The layers, each resting on the ones before it:

| file | what it holds |
|---|---|
| `Objects.dfy` | objects with a primary key and other keys, nodes, and the table as a map from key to object |
| `Snapshots.dfy` | what a client may rely on: a table, a next key, a revision and a stack of full snapshots |
| `OrderedIndex.dfy`, `Container.dfy` | one ordered index as a sequence of handles; the container with several of them, as a class |
| `UndoSessions.dfy`, `UndoSquash.dfy`, `UndoCompress.dfy`, `UndoDelta.dfy`, `UndoCommit.dfy` | the theory of sessions as values: what undo rebuilds, and what each operation does to it |
| `UndoStamps.dfy`, `UndoFailure.dfy`, `UndoTrust.dfy`, `UndoMarks.dfy` | what a failed modify does: states that differ in their stamps alone, when such a stamp does harm, and how the calls alone tell |
| `SessionLists.dfy`, `UndoReplay.dfy` | how the two shared lists and the stack of records encode the sessions; the three phases of undo |
| `UndoContainer.dfy` | the undo container itself, as a class, refining the stack of snapshots |
| `Runs.dfy`, `Histories.dfy` | whole runs: refinement, brackets of `start_undo` and `undo`, well-formedness |
| `Reports.dfy` | what `last_undo_session` reports, told from the calls |
| `Archive.dfy`, `ArchiveFiles.dfy`, `ArchiveChecksum.dfy` | the binary archives over a file, with their CRC-32 |
| `JournalLog.dfy` | the journal as a sequence of records: writing, merging, replay |
| `JournalFrames.dfy`, `JournalFile.dfy`, `JournalRecovery.dfy` | the journal as bytes in a file, and the recovery loop |
| `JournalFailure.dfy` | what a failed modify, which is not logged, does to the truth of the journal |
| `JournaledContainer.dfy`, `JournaledRuns.dfy` | the container paired with its journal; whole runs followed by recovery |
| `Conflicts.dfy` | concrete collisions in one of several secondary indices |
| `Departures.dfy` | concrete runs on which the program does not do what it is there for |

The key idea of the undo theory: `UndoSessions.UndoTop(st)` is the state that undo rebuilds from `st`,
and every operation made inside a session leaves `UndoTop(st)` exactly as it was. The invariant
`UndoSessions.Inv` holds of a state when the table and the newest session are well formed and `Inv`
holds again of `UndoTop(st)`, so it speaks of all open sessions at once.

A modify that collides and is reverted leaves a stamp too high and so breaks `Inv`. The container keeps,
as a ghost, its shadow: the state it would be in had no modify been reverted. The shadow satisfies `Inv`
and differs from the state in its stamps alone, which no client can see. Every call is shown to do the
same to both, except a modify of an object whose stamp is wrong. That one keeps a shadow and every snapshot
if and only if no open session was started between the stamp the object has and the one it should have, or
the modify changes nothing and takes no backup (`UndoTrust.ModifyIsRight`). Which case it is follows from
the calls alone: for every object, in the table and in each snapshot, two counts are kept, of the open
sessions whose start its stamp lies past and of those whose start it should lie past (`UndoMarks.Mark`).
`UndoMultiIndex.Valid` asks for the shadow; `UndoMultiIndex.Usable` is what is left when it is lost, and
`Modify`, `Undo` and the squashes have contracts there as well.

## Where the code departs from its purpose

The model follows the code in each of these cases, and the lemmas named say exactly when they matter.

* A modify that collides puts the value back but not the time stamp
  (include/chainbase/undo_multi_index.hpp:95-104, 458); one that took no backup destroys the object
  without telling the undo layer (include/chainbase/multi_index.hpp:241, 249). The invariant survives a
  failed modify if and only if no session is open or the object was created in the newest one
  (`UndoFailure.FailedModify`). A reverted modify shows in nothing at first. What a later modify of the object
  does depends on the sessions open then: it is right if and only if none of them was started between the
  stamp the object should have and the one it has (`UndoTrust.ModifyIsRight`, `Runs.SafeIsExact`). If one was,
  then squashing the sessions from that one on, and undoing the result, leaves the new value where the old
  one belongs (`UndoTrust.CrossedShows`), and if the modify wrote the old value, then the next one does the
  harm (`UndoTrust.CrossedLater`). `Departures.RevertedModifyDefeatsUndo` is a run with one session,
  `Departures.SquashLosesBackup` one with a refused modify in an inner session that is undone and an accepted
  one in the next, which is squashed, and `Departures.UndoLeavesDuplicates` one that ends with two objects
  under one key of a unique index. Undo leaves every index strictly sorted if and only if no object that it
  wrongly leaves as it is has a key that another had at the session's start (`UndoTrust.UndoLeavesOrder`).
* A failed modify writes nothing to the journal. The journal stays true if and only if the value was put
  back, that is, if a session is open and the object carries a stamp from before it
  (`JournaledContainer.Journaled.Modify`, `JournalFailure.FailureFaith`).
  `Departures.DestroyedObjectComesBack` and `Departures.UndoneModifyIsKept` are runs after which the
  container and the one rebuilt from its journal differ.
* `commit` returns the container's revision, not the committed one
  (include/chainbase/undo_multi_index.hpp:273), and the journal records that
  (include/chainbase/journaled.hpp:289-294), so a commit that keeps sessions is replayed as one that
  keeps none (`Departures.PartialCommitReplaysAsFull`).
* A session opened inside another and committed at once is merged into a revision record
  (src/journal.cpp:8), which replay refuses (`Departures.NestedCommitIsNotReplayed`). One call leaves
  the journal true to the container if and only if it is neither of these two kinds of commit
  (`JournalLog.StepIsFaithful`).
* A `session` object undoes on the container alone (include/chainbase/undo_multi_index.hpp:188-211), and
  `journaled` hands it out (include/chainbase/journaled.hpp:264-269). After such an undo the next record of
  the undo protocol is refused, but for three cases (`JournalFailure.UnloggedUndo`);
  `Departures.UnloggedUndoIsRefused` is a run whose journal cannot be opened again.
* The size and the checksum of an entry are compared after the entry has been applied
  (src/journal.cpp:69-77 with include/chainbase/detail/journal.hpp:69-72); `JournalRecovery.ReadHeader`
  has that order.

## Model

| member | source | states |
|---|---|---|
| Runs.Execute | include/chainbase/undo_multi_index.hpp:228-379 | every safe run of emplace, modify, remove, start_undo, undo, undo_all, both squashes, commit, set_revision and last_undo_session on the delta structure takes the stack of full snapshots through the same run, with reverted modifies in it |
| Runs.ExecuteFromNothing | include/chainbase/undo_multi_index.hpp:60-379 | the same for a new container, where the calls alone decide what is safe |
| Runs.SafeIsExact | include/chainbase/undo_multi_index.hpp:88-105 | a modify is safe if and only if after it the container shows what the specification says and is, but for stamps, in a state reached without a reverted modify |
| Runs.TraceTells | include/chainbase/undo_multi_index.hpp:442-464 | the marks of an object, which follow from the calls, decide whether its stamp can be trusted, whether a modify takes a backup, and whether a collision is reverted |
| Runs.Perform | include/chainbase/undo_multi_index.hpp:80-379 | the same for one call, for any container in a reachable state |
| Runs.ExpendableIsHarmless | include/chainbase/undo_multi_index.hpp:469-480 | the objects whose failed modify does no harm are, seen from outside, those of the newest session, or all when none is open |
| Histories.BracketRestores | include/chainbase/undo_multi_index.hpp:389-403 | as long as a session stays open, undoing down to its start gives back the table, next key and revision from just before start_undo, and the outer sessions except committed ones, whatever the run inside did |
| Histories.RunHolds | include/chainbase/undo_multi_index.hpp:228-274 | throughout such a run the session's snapshot is still at its depth and revision minus depth has not changed |
| Histories.SquashThenUndo | include/chainbase/undo_multi_index.hpp:350-374 | in the snapshot specification squash then undo is undo twice; that the delta structure does the same is UndoSquash.MergeUndo |
| Histories.UndoneAllIs | include/chainbase/undo_multi_index.hpp:299-304 | undo_all goes back to the start of the oldest session and lowers the revision by the number of sessions |
| Histories.CommitKeepsSuffix | include/chainbase/undo_multi_index.hpp:257-274 | in the snapshot specification commit keeps the newest min(height, revision - r) sessions, or none, and commutes with undo of a kept session; that the delta structure does the same is UndoCommit.CommitSessions |
| Histories.RunWellFormed | include/chainbase/undo_multi_index.hpp:385-399 | after any run from empty the table and all snapshots have distinct keys below their next key, next keys do not decrease up the stack, and no more sessions are open than the revision counts |
| Histories.SquashKeepsTable | include/chainbase/undo_multi_index.hpp:350-374 | in the snapshot specification a squash keeps the table and the next key, and leaves the revision and the sessions that undo would |
| UndoSessions.StartSession | include/chainbase/undo_multi_index.hpp:228-236 | starting a session keeps the invariant, and undo would rebuild exactly the present state |
| UndoSessions.UndoSession | include/chainbase/undo_multi_index.hpp:306-348 | the state undo rebuilds satisfies the invariant and is the popped snapshot |
| UndoSessions.EmplaceNode | include/chainbase/undo_multi_index.hpp:434-440 | a new stamped object keeps the invariant and every snapshot |
| UndoSessions.ModifyNode | include/chainbase/undo_multi_index.hpp:442-464 | a modify, with a backup only when the node's stamp is older than the session, keeps the invariant and every snapshot |
| UndoSessions.ModifyKeepsUndo | include/chainbase/undo_multi_index.hpp:446-458 | a node stamped in this session needs no new backup: undo rebuilds the same state with or without one |
| UndoSessions.RemoveNode | include/chainbase/undo_multi_index.hpp:467-481 | removing keeps the invariant and every snapshot, whether the node is destroyed or kept in the removed list |
| UndoSessions.SameUndo | include/chainbase/undo_multi_index.hpp:307-348 | two states undo to the same state when the same nodes survive, are rebuilt alike and are reachable alike |
| UndoSquash.MergeUndo | include/chainbase/undo_multi_index.hpp:356-366 | undoing the merged session, with its duplicate backups, is undoing both sessions, as states with stamps and marks |
| UndoSquash.SquashTwo | include/chainbase/undo_multi_index.hpp:356-366 | dropping the top record keeps the invariant and drops exactly the top snapshot |
| UndoCompress.CompressKeepsUndo | include/chainbase/undo_multi_index.hpp:498-519 | filtering both lists, while writing old values into removed nodes, changes nothing that undo rebuilds |
| UndoCompress.CompressSession | include/chainbase/undo_multi_index.hpp:492-519 | compression of any prefix of the top session's lists keeps the invariant, the table and every snapshot |
| UndoContainer.CompressMerged | include/chainbase/undo_multi_index.hpp:368-374 | compressing the top session for the one below and then merging is merging and then compressing the newer part: the same view as a plain merge |
| UndoDelta.FullyCompressed | include/chainbase/undo_multi_index.hpp:503-518 | a compressed session lists only backups of live nodes and removed nodes older than the session |
| UndoDelta.SessionDelta | include/chainbase/undo_multi_index.hpp:281-297 | the three ranges of a compressed session are the exact net difference from the session-start snapshot: disjoint by key, old values, and applying them backwards gives the snapshot |
| UndoDelta.ReportedOlds | include/chainbase/undo_multi_index.hpp:503-507 | the old values are exactly the backups of objects of the table whose stamp is older than the session |
| Reports.Report | include/chainbase/undo_multi_index.hpp:281-297 | an object is reported as modified if and only if it is in the table, was there when the newest session started, and by the marks that follow from the calls has been touched in that session |
| Reports.ReportOfRun | include/chainbase/undo_multi_index.hpp:281-297 | start_undo, any run in the session, with sessions opened, undone and squashed inside it, then the report: only objects that an accepted modify of the run has changed are listed as modified, and with an empty run all three ranges are empty |
| Reports.BackupMark | include/chainbase/undo_multi_index.hpp:442-464 | the newest session has a backup from before it if and only if the object is older than the session and has been touched in it |
| Reports.StepUntouched | include/chainbase/undo_multi_index.hpp:80-379 | a call that does not modify an object leaves it untouched by the session and those inside it |
| UndoCommit.CommitSessions | include/chainbase/undo_multi_index.hpp:260-274 | forgetting the oldest sessions and the nodes only they could bring back keeps the invariant, the table and the kept snapshots |
| UndoFailure.FailedModify | include/chainbase/undo_multi_index.hpp:91-105 | a modify that collides keeps the invariant if and only if no session is open or the object is of the newest session |
| UndoFailure.HarmlessIsRemove | include/chainbase/multi_index.hpp:241-250 | in that case it is a remove |
| UndoFailure.RevertedKeepsView | include/chainbase/undo_multi_index.hpp:95-101 | a reverted modify at first shows neither in the table nor in any snapshot |
| UndoFailure.RevertedThenModified | include/chainbase/undo_multi_index.hpp:95-101 | after a reverted modify the next one takes no backup, and undo gives back what it wrote instead of the value the session found |
| UndoFailure.FailOutcome | include/chainbase/multi_index.hpp:241-250 | everything a collision does: reverted, it leaves what undo needs and the whole view; not reverted, the object is gone |
| UndoStamps.AgedView | include/chainbase/undo_multi_index.hpp:427-432 | raising stamps changes neither the table nor any snapshot |
| UndoStamps.AgedUndoable | include/chainbase/undo_multi_index.hpp:314-344 | raising stamps spoils nothing that the phases of undo need |
| UndoStamps.RestampKeepsInv | include/chainbase/undo_multi_index.hpp:446-458 | the stamp of an object in the table may be any later one that no open session was started before and after the right one |
| UndoStamps.ShadowModify | include/chainbase/undo_multi_index.hpp:442-464 | modifying a node whose stamp lies past no more session starts than it should keeps the state a stamp-wise copy of one that satisfies the invariant, and every snapshot |
| UndoTrust.ModifyIsRight | include/chainbase/undo_multi_index.hpp:446-458 | an accepted modify keeps every snapshot and a shadow if and only if no open session was started between the right stamp and the one the node has, or it changes nothing and takes no backup |
| UndoTrust.FailureIsRight | include/chainbase/undo_multi_index.hpp:95-104 | a refused modify keeps every snapshot and a shadow if and only if the value was put back or no session needed the object |
| UndoTrust.SidesAgree | include/chainbase/undo_multi_index.hpp:382-403 | the lists of the sessions determine on which side of each session's start the stamp of an object in the table must lie |
| UndoTrust.CrossedShows | include/chainbase/undo_multi_index.hpp:319-331 | otherwise squashing the sessions from the one crossed on and undoing the result leaves the new value |
| UndoTrust.CrossedLater | include/chainbase/undo_multi_index.hpp:446-448 | and whatever the modify wrote, the one after the squash takes no backup and undo leaves what it wrote |
| UndoTrust.UndoLeavesOrder | include/chainbase/undo_multi_index.hpp:325-327 | undo leaves every index in order if and only if no object it wrongly leaves as it is has a key another had at the session's start |
| UndoTrust.WrongFits | include/chainbase/undo_multi_index.hpp:325-327 | for a single such object: if and only if what the modify wrote fits the snapshot |
| UndoMarks.MarkTells | include/chainbase/undo_multi_index.hpp:446-458 | an object's stamp is trusted exactly if its two marks are equal, and a modify takes a backup exactly if the second is below the number of sessions |
| UndoMarks.MarkedRaise | include/chainbase/undo_multi_index.hpp:95-104 | a reverted modify raises the second mark in the table and in each snapshot back to the session that last touched the object, and no other |
| UndoMarks.MarkedMerge | include/chainbase/undo_multi_index.hpp:356-366 | a squash forgets the marks of one snapshot and caps those of the table |
| UndoMarks.MarkedCommit | include/chainbase/undo_multi_index.hpp:257-274 | a commit forgets the marks of the oldest snapshots and lowers all others by their number |
| UndoFailure.DestroyedHasBackup | include/chainbase/multi_index.hpp:248-250 | otherwise, a node destroyed by a failed modify has a backup left that undo will follow |
| Departures.RevertedModifyDefeatsUndo | include/chainbase/undo_multi_index.hpp:95-101 | a run on the container: two objects, one refused and one accepted modify, and undo leaves the new value |
| Departures.UndoLeavesDuplicates | include/chainbase/undo_multi_index.hpp:325-327 | a run on the container after which undo has left two objects under one key of a unique index |
| Departures.SquashLosesBackup | include/chainbase/undo_multi_index.hpp:505-506 | a run on the container: a refused modify in an inner session, undone, an accepted one in the next, squashed with or without compression, and undo of the outer session leaves the new value |
| SessionLists.LinkedCommit | include/chainbase/undo_multi_index.hpp:533-541 | after a partial commit each list has at most one element beyond the bottom session, the one its record points at |
| SessionLists.LinkedMerge | include/chainbase/undo_multi_index.hpp:364-365 | dropping a record hands its list segments to the session below |
| SessionLists.FilterOldsStep | include/chainbase/detail/multi_index.hpp:255-266 | one step of the list filter erases or keeps one element, leaves the rest alone, and reaches the end pointer exactly when the segment is used up |
| SessionLists.OldPositionIs | include/chainbase/undo_multi_index.hpp:564-572 | an end pointer leads to exactly the end of its segment |
| SessionLists.BeyondKept | include/chainbase/undo_multi_index.hpp:536-540 | no element that a commit destroys belongs to a kept session |
| UndoReplay.PhasesCompose | include/chainbase/undo_multi_index.hpp:307-348 | replaying the backups and then reinserting the removed nodes is restoring every node from its oldest backup |
| UndoReplay.ReplayedDistinct | include/chainbase/undo_multi_index.hpp:324-328 | once all backups are replayed no two nodes share a key, circular exchanges included, if undo gives back different keys |
| UndoReplay.UndoTable | include/chainbase/undo_multi_index.hpp:325-327 | all that can be wrong with the table undo gives back is that two objects share a key |
| UndoReplay.ReplayReady | include/chainbase/undo_multi_index.hpp:320-331 | each backup undo follows belongs to a live node, marked exactly when it is out of the table |
| UndoReplay.Phase3Step | include/chainbase/undo_multi_index.hpp:336-344 | each removed node is live and out of the table, and finds its keys free unless it shares one with another object that undo gives back |
| UndoContainer.UndoMultiIndex.constructor | include/chainbase/undo_multi_index.hpp:60-64 | a new container is empty at revision zero |
| UndoContainer.UndoMultiIndex.StartUndo | include/chainbase/undo_multi_index.hpp:228-236 | pushes a full snapshot |
| UndoContainer.UndoMultiIndex.SetRevision | include/chainbase/undo_multi_index.hpp:238-250 | succeeds if and only if no session is open and the revision neither decreases nor exceeds the 64-bit limit |
| UndoContainer.UndoMultiIndex.Emplace | include/chainbase/undo_multi_index.hpp:79-86 | succeeds if and only if no object agrees with the new one in the member an index orders by, each index in its own; all or nothing; the constructor may raise the key |
| UndoContainer.UndoMultiIndex.Modify | include/chainbase/undo_multi_index.hpp:88-105 | succeeds if and only if no other object agrees with the new value in the member an index orders by; the exact state left in every case, also where stamps are wrong; an accepted modify is right for the client, and stays so, if and only if the stamp can be trusted or nothing is changed and backed up |
| UndoContainer.UndoMultiIndex.ModifyOrRevert | include/chainbase/undo_multi_index.hpp:94-104 | indices, lists and ownership stay in order whether the modify succeeds, is reverted or destroys the object |
| UndoContainer.UndoMultiIndex.OnModify | include/chainbase/undo_multi_index.hpp:442-464 | takes a backup and stamps the node exactly when the node was not stamped in this session |
| UndoContainer.UndoMultiIndex.Remove | include/chainbase/undo_multi_index.hpp:107-110 | takes the object out of the table and changes no snapshot |
| UndoContainer.UndoMultiIndex.OnRemove | include/chainbase/undo_multi_index.hpp:466-481 | destroys exactly the nodes that no session needs |
| UndoContainer.UndoMultiIndex.RestoreOldValues | include/chainbase/undo_multi_index.hpp:314-334 | walks exactly the top session's backups, through non-unique orders, and never touches a node that is gone |
| UndoContainer.UndoMultiIndex.ReinsertRemoved | include/chainbase/undo_multi_index.hpp:335-344 | walks exactly the top session's removed nodes, in strict or tied indices, and each insertion succeeds |
| UndoContainer.UndoMultiIndex.Undo | include/chainbase/undo_multi_index.hpp:306-348 | reinstates the popped snapshot; where a stamp is wrong, still ends in the state the lists describe |
| UndoContainer.UndoMultiIndex.UndoNewest | include/chainbase/undo_multi_index.hpp:311-347 | the three phases end in that state whenever the program's own assertion holds, and with every index strictly sorted if and only if no two of its objects share a key |
| UndoContainer.UndoMultiIndex.UndoAll | include/chainbase/undo_multi_index.hpp:299-304 | undoes every session |
| UndoContainer.UndoMultiIndex.CompressOlds | include/chainbase/undo_multi_index.hpp:502-515 | the list filter with its side effects: the segment before the end becomes its order-preserving filter, the rest is untouched |
| UndoContainer.UndoMultiIndex.CompressRemoved | include/chainbase/undo_multi_index.hpp:516-518 | the same for the removed list, destroying each dropped node once |
| UndoContainer.UndoMultiIndex.CompressLastUndoSession | include/chainbase/undo_multi_index.hpp:376-379 | changes nothing a client can see |
| UndoContainer.UndoMultiIndex.SquashFast | include/chainbase/undo_multi_index.hpp:356-366 | drops the top snapshot and keeps the contents; where a stamp is wrong, still joins the two sessions as the lists say |
| UndoContainer.UndoMultiIndex.SquashAndCompress | include/chainbase/undo_multi_index.hpp:368-374 | has the same effect for a client as squash_fast, and the exact state left also where a stamp is wrong |
| UndoContainer.UndoMultiIndex.LastUndoSession | include/chainbase/undo_multi_index.hpp:287-297 | reports the exact net delta of the newest session, new values by ascending key, and as old values exactly the backups of objects of the table that were taken before the session had changed them; changes nothing a client can see |
| UndoContainer.UndoMultiIndex.DisposeRemoved | include/chainbase/undo_multi_index.hpp:539-547 | destroys each node from a position on once, all of them live, and none of the table |
| UndoContainer.UndoMultiIndex.ForgetOldest | include/chainbase/undo_multi_index.hpp:267-271 | a partial commit keeps exactly the newer snapshots, destroys only nodes no kept session needs, and keeps ownership exact |
| UndoContainer.UndoMultiIndex.Commit | include/chainbase/undo_multi_index.hpp:257-274 | forgets the oldest snapshots, or all, or none, and returns the container's revision |
| UndoContainer.OwnedUndo | include/chainbase/undo_multi_index.hpp:399-401 | after undo every live node is again in exactly one of the table and the removed list |
| Container.MultiIndex.Emplace | include/chainbase/multi_index.hpp:128-149 | all or nothing across the indices: succeeds if and only if no object of the table agrees in the member an index orders by, each index in its own; the next key is one above the object's, which the constructor may raise |
| Container.MultiIndex.InsertImpl | include/chainbase/multi_index.hpp:325-340 | inserts into all remaining indices if and only if no key is taken in any, and otherwise leaves every index sequence as it was |
| Snapshots.FitsMembers | include/chainbase/multi_index.hpp:325-340 | index k collides exactly on member k - 1: the key test of the specification is equality of that member, for every index |
| OrderedIndex.OrderedByMembers | include/chainbase/multi_index.hpp:325-340 | the primary index lists the objects by ascending key, every other by ascending value of its own member |
| Conflicts.InsertFails | test/undo_index.cpp:532-559 | an object whose second member alone is taken is refused in a session, and undo gives back the three objects |
| Conflicts.ModifyFails | test/undo_index.cpp:561-594 | the same for a change of the second member to one that is taken |
| Container.MultiIndex.Reposition | include/chainbase/multi_index.hpp:356-383 | looking at the neighbours only, succeeds if and only if no other element has the key; on a collision the index is in order but for that element |
| Container.MultiIndex.PostModifyImpl | include/chainbase/multi_index.hpp:351-387 | the same over all remaining indices, stopping at the first collision |
| Container.MultiIndex.ModifyWithRevert | include/chainbase/multi_index.hpp:230-262 | on a collision with a backup the value and every index sequence are restored and the second fix-up succeeds; without one the object is gone from every index |
| Container.MultiIndex.EraseImpl | include/chainbase/multi_index.hpp:389-397 | takes one element out of every remaining index |
| Container.MultiIndex.EraseNewIds | include/chainbase/multi_index.hpp:291-300 | destroys exactly the objects whose key is at least the bound |
| Container.MultiIndex.Insert | include/chainbase/multi_index.hpp:274-278 | an insertion that must succeed does, when its keys are free |
| Container.MultiIndex.PostModifyTransient | include/chainbase/multi_index.hpp:280-284 | the non-unique fix-up always succeeds and sorts the element in |
| Container.MultiIndex.Find | include/chainbase/multi_index.hpp:166-177 | finds an object exactly when there is one with the key |
| OrderedIndex.NeighboursSuffice | include/chainbase/multi_index.hpp:357-369 | an element strictly between its neighbours is in its place and its key is free |
| OrderedIndex.InsertUnique | include/chainbase/multi_index.hpp:374-377 | putting an element before the element with its key leaves the others in order, and is in order when the key is free |
| OrderedIndex.FreeLowerBound | include/chainbase/multi_index.hpp:374-376 | a key is taken exactly when the element at its lower bound has it |
| OrderedIndex.OrderIsUnique | include/chainbase/multi_index.hpp:243-247 | a set of nodes with distinct keys has one order, so restored values mean restored sequences |
| OrderedIndex.StrictOnceDistinct | include/chainbase/undo_multi_index.hpp:325-327 | indices sorted with ties are strictly sorted once the keys are distinct |
| Archive.RoundTrip | include/chainbase/detail/binary_iarchive.hpp:55-81 | loading what was saved gives the same value and leaves the rest, for every composition of integers, bool, arrays and strings under 2^32 bytes |
| Archive.DecodeThenEncode | include/chainbase/detail/binary_iarchive.hpp:55-81 | loading gives a value of the type asked for and consumes as many bytes as saving it writes, and the same bytes if no boolean is among them |
| Archive.UnsignedRoundTrip | include/chainbase/detail/binary_oarchive.hpp:124-129 | the bytes of a number that fits its width give it back |
| Archive.BigEndian | include/chainbase/detail/binary_oarchive.hpp:124-129 | byte k of a number of w bytes is the number divided by 256 to the power w - 1 - k, modulo 256 |
| Archive.ReadsBigEndian | include/chainbase/detail/binary_iarchive.hpp:127-135 | bytes are read as a number exactly if they are its bytes in that order |
| Archive.TwosComplement | include/chainbase/detail/binary_oarchive.hpp:114-122 | a negative number i of w bytes is written as i plus 256 to the power w |
| Archive.EncodeIs | include/chainbase/detail/binary_oarchive.hpp:53-76 | the encoding of any composition of values, place by place |
| Archive.OnlyEncode | include/chainbase/detail/binary_oarchive.hpp:53-76 | and nothing else has that layout |
| Archive.DecodedBool | include/chainbase/detail/binary_iarchive.hpp:55 | any byte but zero loads as true |
| Archive.SignedRoundTrip | include/chainbase/detail/binary_iarchive.hpp:117-125 | a signed number survives the conversion to unsigned and back |
| Archive.CrcInPieces | include/chainbase/detail/binary_oarchive.hpp:137-143 | running the checksum over pieces is running it over the whole |
| Archive.CrcOfNothing | src/journal.cpp:74-77 | the checksum of nothing is zero, which the first header check needs |
| ArchiveChecksum.DamageShows | include/chainbase/detail/binary_oarchive.hpp:107-112 | the CRC-32 of a payload differs whenever up to four adjacent bytes of it differ |
| ArchiveChecksum.PolynomialIs | include/chainbase/detail/binary_oarchive.hpp:147 | the generator polynomial is that of IEEE 802.3, with its bits reversed |
| ArchiveChecksum.KnownChecksum | include/chainbase/detail/binary_oarchive.hpp:107-112 | the checksum of the byte 7F is 12B88320: initial value, polynomial, bit order and final complement together |
| ArchiveFiles.OArchive.Save | include/chainbase/detail/binary_oarchive.hpp:53-91 | leaves in the file, from its position on, the value place by place: numbers most significant byte first, signed ones in two's complement, a boolean as 0 or 1, a string after its length in four bytes, the elements of an array one after the other; runs the checksum over exactly that |
| ArchiveFiles.OArchive.SaveArray | include/chainbase/detail/binary_oarchive.hpp:60-72 | the loop over an array's elements writes their encodings one after the other |
| ArchiveFiles.IArchive.Load | include/chainbase/detail/binary_iarchive.hpp:46-84 | decodes the value, consumes exactly its bytes and runs the checksum over them; fails exactly when the input is too short |
| ArchiveFiles.IArchive.Skip | include/chainbase/detail/binary_iarchive.hpp:109-115 | moving over a payload in chunks of 1024 consumes it exactly and gives the checksum of the whole |
| JournalLog.StepIsFaithful | include/chainbase/journaled.hpp:182-318 | after one call the log replays to the container's new state if and only if the call is not a commit that keeps a session, nor one merged into a nested start_undo |
| JournalLog.ReplayEqualsRun | include/chainbase/detail/journal.hpp:156-265 | replaying the journal of a run gives the run's contents, next key, revision and snapshots, and no record is refused |
| JournalLog.MergePair | src/journal.cpp:6-11 | replaying a merged pair is replaying both records, except that a commit inside an outer session is refused |
| JournalLog.MergingPreservesRuns | src/journal.cpp:27-41 | the merged log of a run replays to the same state as the log with nothing merged |
| JournalLog.CondensedReplays | src/journal.cpp:27-41 | the same for any log that replays, through chains of merges of any length |
| JournalLog.RevisionChecked | include/chainbase/detail/journal.hpp:207-258 | a record of the undo protocol is accepted if and only if the revision and the number of open sessions fit it, and then leaves the revision it carries |
| JournalLog.LastRevision | include/chainbase/detail/journal.hpp:207-258 | a log that ends with such a record and replays leaves the revision in it |
| JournalLog.ObjectChecked | include/chainbase/detail/journal.hpp:156-193 | a record about an object is refused if and only if the object is missing or a member of it is taken in its index; otherwise it changes that object alone |
| JournalLog.AppendedTight | src/journal.cpp:27-41 | writing a record, merged or not, leaves nothing to merge among the records this process wrote and the others as they were |
| JournalLog.CondensedTight | src/journal.cpp:27-41 | in a log written from nothing no revision is directly followed by a revision or a start_undo, and no start_undo by a commit |
| JournalLog.RunTight | src/journal.cpp:6-11 | the same for what a whole run writes after the records it found |
| Departures.PartialCommitReplaysAsFull | include/chainbase/journaled.hpp:289-294 | a run whose journal replays to fewer sessions than the run kept |
| Departures.NestedCommitIsNotReplayed | src/journal.cpp:8-9 | a run whose journal is refused |
| JournalFailure.UnloggedUndo | include/chainbase/undo_multi_index.hpp:188-211 | after an undo that is not logged, the next record of the undo protocol makes the journal true again if all sessions are undone, or if none was left and it is that of one more undo or of a commit merged into the start of the session; any other is refused |
| Departures.UnloggedUndoIsRefused | include/chainbase/journaled.hpp:264-269 | a run on the classes in which a session object undoes itself without a record, and after which the journal cannot be opened |
| JournalFrames.HeaderRoundTrip | src/journal.cpp:79-89 | a header read back is the header written |
| JournalFrames.FrameAt | src/journal.cpp:43-65 | where in the file the frame of a record is, and what is before and after it |
| JournalFrames.FrameLayout | include/chainbase/detail/journal.hpp:17-34 | an entry byte by byte: checksum, size, kind (2 to 9) and version in four bytes each, then the key and the members, or the revision, in eight bytes each |
| JournalFrames.RevisionsFit | include/chainbase/undo_multi_index.hpp:243-247 | the revisions that can be set are exactly the non-negative ones that fit the 64-bit signed field of their record |
| JournalFile.Journal.WriteEntry | include/chainbase/detail/journal.hpp:84-87 | header, payload and the header again with size and checksum: the complete frame stands in the file |
| JournalFile.Journal.UpdateHeader | src/journal.cpp:50-65 | fills in the checksum and size of the entry just written and returns to the end of the file |
| JournalFile.Journal.AppendEntry | include/chainbase/detail/journal.hpp:78-113 | the file stays a concatenation of frames with one more at its end |
| JournalFile.Journal.Overwrite | src/journal.cpp:31-36 | overwriting the last entry in place leaves a concatenation of frames with the last one replaced |
| JournalFile.Journal.UndoEntry | src/journal.cpp:27-41 | appends or merges exactly as the log of records does; among the entries written since the file was opened no revision is directly followed by a revision or a start_undo, and no start_undo by a commit, and the entries found there stay |
| JournalFile.CompressAgrees | src/journal.cpp:6-11 | the test on kinds of entries is the test on records |
| JournalRecovery.ReadHeader | src/journal.cpp:67-93 | goes on exactly when size and checksum of the last entry agree and a whole header follows; where the position is left otherwise |
| JournalRecovery.DamagedEntryRefused | src/journal.cpp:74-77 | an entry whose payload changed within four adjacent bytes fails the comparison, and an unchanged one passes it |
| JournalRecovery.ApplyStep | include/chainbase/detail/journal.hpp:207-258 | does what replaying a record of the undo protocol means, with an exception exactly when the revision and the number of sessions do not fit the record; afterwards the container has the revision in the record |
| JournalRecovery.ApplyRecoverUndo | include/chainbase/detail/journal.hpp:204-265 | the same on the entry in the stream, consuming exactly its payload and leaving unknown kinds to be skipped |
| JournalRecovery.ApplyRecover | include/chainbase/detail/journal.hpp:156-202 | the same for object records, leaving unknown kinds to be skipped |
| JournalRecovery.Recover | include/chainbase/detail/journal.hpp:54-76 | over a concatenation of frames the loop decodes exactly those records, accepts every size and checksum, replays them all and stops at the end of the file; the container ends with the revision of the last record, if that is one of the undo protocol |
| JournaledContainer.Journaled.Emplace | include/chainbase/journaled.hpp:182-188 | container and log move together, and a refused object is not logged; the journal stays true if and only if the constructor does not raise the key |
| JournalLog.RaisedKeyFaith | include/chainbase/detail/journal.hpp:163-166 | a log whose members do not hold the key replays a new object under the next one, so it is true if and only if that is the object's |
| JournaledContainer.Journaled.Modify | include/chainbase/journaled.hpp:190-195 | a successful modify is logged, a failed one is not; after a failed one the journal is still true if and only if the value was put back |
| JournaledContainer.Journaled.Remove | include/chainbase/journaled.hpp:197-201 | container and log move together |
| JournaledContainer.Journaled.StartUndo | include/chainbase/journaled.hpp:271-276 | container and log move together |
| JournaledContainer.Journaled.SetRevision | include/chainbase/journaled.hpp:278-282 | container and log move together, and a refused revision is not logged |
| JournaledContainer.Journaled.Commit | include/chainbase/journaled.hpp:289-294 | container and log move together; the revision logged is the container's |
| JournaledContainer.Journaled.UndoAll | include/chainbase/journaled.hpp:306-312 | container and log move together; nothing is logged without a session |
| JournaledContainer.Journaled.Undo | include/chainbase/journaled.hpp:314-318 | container and log move together; the record is written also where undo gives back the wrong value |
| JournaledContainer.FaithAfter | include/chainbase/journaled.hpp:182-318 | a call on the two objects leaves the journal true to the container if and only if the call keeps faith |
| JournaledContainer.Rebuild | include/chainbase/detail/journal.hpp:54-76 | the file of a journal that is true to its container rebuilds an equal container from nothing |
| JournaledContainer.Open | include/chainbase/detail/journal.hpp:54-76 | opening a well-formed file gives a container with what the file replays to and a journal that is true to it and goes on at its end; it fails exactly when a record is refused |
| JournalFailure.FailureFaith | include/chainbase/journaled.hpp:190-195 | a failed modify leaves the journal true if and only if the value was put back |
| JournalFailure.LaterDivergence | include/chainbase/journaled.hpp:190-195 | after a reverted modify, an accepted one and an undo the log replays to the snapshot, and the container agrees if and only if the accepted modify wrote the old value |
| Departures.DestroyedObjectComesBack | include/chainbase/journaled.hpp:190-195 | a run with no session in which a failed modify destroys an object that the rebuilt container has |
| Departures.UndoneModifyIsKept | include/chainbase/journaled.hpp:314-318 | a run after which the container and the one rebuilt from its journal hold different values |
| JournaledRuns.RunAndRebuild | include/chainbase/detail/journal.hpp:54-265 | a whole journaled run and then recovery of its file: the new container has the objects, next key, revision and all snapshots of the old one |

## Left out

- UndoContainer.UndoMultiIndex.Modify: where the object is destroyed although an open session has a backup of it, only the exact state and the loss of the object are stated; the code then follows the backup into a destroyed node (see `UndoFailure.DestroyedHasBackup`).
- UndoContainer.UndoMultiIndex.Undo: asks, where stamps are wrong, that what comes back finds its keys free, which the program asserts (include/chainbase/multi_index.hpp:276-277); what a build without assertions does is not modelled.
- Runs.Execute: runs with a modify that `Runs.Safe` rules out are excluded, by `Runs.SafeIsExact` exactly those after which the container is wrong or has no shadow; `UndoTrust.CrossedShows`, `UndoTrust.CrossedLater` and `UndoTrust.DestroyedShows` show the harm.
- JournaledContainer.Rebuild: the file must be well formed; a torn or corrupted tail, of which the code applies the last entry before it compares the checksum, is covered only by `JournalRecovery.ReadHeader` and `JournalRecovery.DamagedEntryRefused`.
- JournaledRuns.RunAndRebuild: runs with a commit that does not keep faith are excluded, as `JournalLog.StepIsFaithful` shows they must be, and so are failed modifies, of which `JournalFailure.FailureFaith` says which are harmless at once and `JournalFailure.LaterDivergence` which are later.
- JournaledContainer.Journaled.Emplace: the logged members are taken not to hold the key; an object type whose own serialization writes it is not modelled.
- UndoContainer.UndoMultiIndex.SquashAndCompress: asks, where stamps are wrong, that compression finds what it looks into (`CanCompressSquash`).
- JournalLog.StepIsFaithful: asks for a revision in the range of the program's 64-bit counter.
- Container.Allocate: stands for the allocator; any address not in use may come back, and allocation never fails.
- Archive.RoundTrip: an object's own serialization function is modelled as an array of 64-bit members; user-defined serialization, version numbers inside it and wider archive types are left out.
- 64-bit overflow of stamps, keys and revisions: the counters are unbounded.
- Exceptions thrown by constructors and modifiers of user code, and modifiers that change the primary key, which the class forbids (include/chainbase/undo_multi_index.hpp:386).
- Index keys are integers; any finite family of keys of another ordered type embeds in them. User-supplied comparison objects are left out.
- The trees, lists and deque of Boost.Intrusive and the standard library are sequences with the effect of their documented operations, not node structures; offset pointers and the colour field shared with the removed mark appear as handles and a flag.
- The list filter is one generic function in the source and two loops here, one for each list, since its predicates act on different state.
- `removed_nodes_tracker` and the `session` class: lifetime management around calls that are modelled. The squash that a `session` makes reaches no journal either, as its undo does not.
- Copying and moving of containers (`insert_impl_nc`), `clear_impl`, iterators, `project`, `undo_stack_revision_range` and lookup by secondary key: no property of their own.
- The journaled form of the container without undo: its calls are the first three of the one modelled.
- `src/database.cpp`, `include/chainbase/database.hpp` and `include/chainbase/environment.hpp`: file mapping, locks and the dirty flag.
- Opening, flushing and closing of the journal file, and a journal that is not open; input and output errors other than a read beyond the end.
