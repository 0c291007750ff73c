# Verified model of the A3S Use state protocols

A3S Use keeps an installation's durable state in plain directories and promises that it survives
being killed at any moment. This project models the parts of it where that promise is hard and
proves them in Dafny:

- the immutable capability catalog store: publication, reviewed retention under a recovery
  journal, and clean-target restore;
- whole-installation restore: the reviewed plan as a difference of two inventories, and the
  seven-status resumable operation that applies it, and the records such operations leave over the
  life of an installation;
- surface scheduling and reconciliation over a plugin's dependency graph;
- artifact reachability: reference accounting, the logical/physical join, and the zero-reference
  proof that gates deletion;
- the chunked byte scanner that looks for repository paths in release files.

`dafny verify dfyconfig.toml` checks everything.

## How it is built

Each crash-recoverable protocol is modelled twice. A transition system (`RetentionProtocol`,
`RetentionDurability`, `RestoreProtocol`, `PublicationProtocol`, `StateRestoreProtocol`) says which steps the disk can
take; its theorems hold in every state of every run. A kill is the end of a process between two
steps, so every reachable state is also what a restarted process may find; writes that are not
atomic are split into steps until a kill in the middle is visible. A class
(`CatalogRetention.CatalogStore`, `CatalogRestore.RestoreTarget`,
`CatalogPublication.RecordSlot`, `InstallationRestore.Installation`) holds the operations with the
loops and branches of the program. Its ghost `history` is proved to be a run of the transition
system, so the safety theorems apply to it, and its postconditions state convergence: from every
state earlier attempts can have left, what the next call achieves.

Loops that compute (validation, accounting, scheduling, evaluation, scanning) are methods proved
against a definition that does not mention the loop: reachability in a graph, sums over a map, the
members of a list, an occurrence in the whole file.

Digests are collision free: a SHA-256 over a value is that value in a constructor. A catalog
digest is a number, because fixed-length lower-case hexadecimal text sorts like the number it
writes. Canonical JSON is a codec with the three properties the journal needs (it round-trips,
contains no newline, and no proper prefix of a record is a record).

## What turned out not to hold

Each of these has a reachable state or a concrete run, and the exact condition under which the
promise does hold.

- A retention process killed while it creates its journal, before the first record is whole, leaves
  a file that no later call can open; retention, publication and reads stay refused. A journal can
  be recovered exactly if it has a readable record and belongs to this installation
  (`RetentionProtocol.CreationWindow`, `CatalogRetention.CatalogStore.RecoverRetention`).
- Readers hold a shared lock and each repairs the journal's tail. Two readers that both meet a whole
  last record without its newline leave an empty line, and the journal cannot be opened again; on
  every other readable file two readers leave what one does (`JournalFile.TwoReaders`). Which byte
  strings are readable at all is stated exactly (`JournalFile.OpenedIff`).
- Retention synchronizes every change before the next one, but a process that takes over after a
  kill does not repeat a synchronization its predecessor owed. A power loss can then bring back a
  removed record, a retired journal, or a journal without its last announcement, or take away the
  journal of a half-applied plan. This happens exactly if a kill left the name of a readable
  journal, an announcement, a removal or a retirement unsynchronized; retention passes through all
  four. Whatever happens, no record is lost that the plan does not remove
  (`RetentionDurability.KillIsSafeIff`, `RetentionDurability.HarmIsReachable`,
  `RetentionDurability.OnlyCondemnedAreLost`).
- Retrying a clean restore converges from every state except exactly four. Two are kill windows: an
  activation partial of length zero, and a staging directory left empty after its marker was
  removed. Two the store's own operations bring about, because they do not look at restore staging:
  the live root was changed before the staging directory was retired, or it was made equal to the
  plan and a retry was killed while it discarded the candidate. The first of these two lasts until
  the live root is the plan's again, and no longer. From the other three, whatever is attempted and
  whatever the store does, no plan can ever be restored again, and these are the only such states
  (`RestoreProtocol.RetryConverges`, `RestoreProtocol.OvertakenUntil`,
  `RestoreProtocol.HopelessIff`, `RestoreProtocol.WindowsAreReachable`,
  `RestoreProtocol.OvertakingIsReachable`).
- Publication accepts an earlier staging file with the right bytes without syncing it. A kill before
  the target exists can cost a record that is published later exactly if it leaves the whole record
  staged but unsynced: the retry publishes the bytes as they are, and a power loss can still take
  them (`PublicationProtocol.KillIsSafeIff`, `PublicationProtocol.UnsyncedKillLosesTheRecord`).
- During whole-installation publication a path is not always at its before or after evidence: a
  replacement passes through an absent file, and a read-only file passes through a writable one.
  Every path stays at one of its two sides exactly when no action that a process can get to replaces
  a file or removes a read-only one (`StateRestoreReach.BeforeOrAfterIff`). What always holds is that
  actions are applied in order, one at a time, and that the candidate stays staged until it is live.
- An interrupted whole-installation restore is completed by the next attempt exactly unless one of
  five things has happened: it was killed while a checkpoint file was still empty; it was killed while
  its first checkpoint was incomplete; it had completed and was applied again after some operation
  other than a restore changed the installation; there were already 64 records of earlier restores,
  of which starting removes the oldest although the plan was reviewed with it; or a path that the
  plan still has to work on is a directory. Each is reached, and no later attempt ever finishes. In
  the first three no live file changes any more, in the fourth none but the oldest record
  (`StateRestoreRecovery.RetryConverges`, `StateRestoreRecovery.DoomIsFinal`,
  `StateRestoreRecovery.WindowsAreReachable`, `StateRestoreReach.RepeatedRestoreWedges`,
  `StateRestoreRecovery.FullHistoryDooms`, `StateRestoreRecovery.KillBlocks`).
- A plan can be carried to its end at all exactly if none of its paths lies above a reviewed file,
  because a restore removes files and never directories. A plan that removes a file and publishes
  another below that path can be, but not if it is killed once it has made the directory; and its
  rollback never can (`StateRestoreRecovery.FinishableIff`, `StateRestoreRecovery.KillBlocks`,
  `StateRestoreRoundTrip.RollbackFinishableIff`).
- The record a completed restore leaves is a live file to every other plan. The rollback therefore is
  not the bare inverse, which can never be started: it also removes that record, and its end is the
  original installation. But a restore that removes the record of another leaves an empty operation
  directory behind, and every new restore is then refused. A later restore can still begin exactly if
  no plan applied so far removed the record of another: a rollback is the last restore of an
  installation, and so is a restore from any backup made before an earlier restore. Since a full
  history lets none complete either, an installation completes at most 64
  (`StateRestoreRollback.RollbackReturns`, `StateRestoreRoundTrip.RollbackRoundTrip`,
  `StateRestoreHistory.IntactIff`, `StateRestoreHistory.LastRestore`,
  `StateRestoreHistory.LifetimeBound`).

## Model

| member | source | states |
|---|---|---|
| `RetentionPlan.BuildPlanExact` | src/capability_catalog_store/retention.rs:625-670 | a plan is built exactly for an inventory within bounds whose protected digests are all present (and not none of a non-empty one); it passes validation, and its two lists are the inventory split by protection |
| `RetentionPlan.ValidPlanIff` | src/capability_catalog_store/retention.rs:87-138 | validation accepts exactly the bounded, strictly ordered, disjoint splits that retain something of a non-empty inventory |
| `RetentionPlan.ValidPlanIsBuilt` | src/capability_catalog_store/retention.rs:625-670 | a plan with its own inventory digest is valid exactly if some inventory and protected set give it |
| `RetentionPlan.ExpectedDecides` | src/capability_catalog_store/retention/journal.rs:183-194 | the listing expected after i removals equals a directory listing exactly when the directory holds the reviewed records without the first i removals |
| `RetentionPlan.HeldBounds` | src/capability_catalog_store/retention.rs:87-138 | at every point of a valid plan the records still held lie between the retained set and the reviewed inventory, and after the last removal they are the retained set |
| `RetentionJournal.ContinueExact` | src/capability_catalog_store/retention/journal.rs:346-446 | after m records exactly one record is accepted next, and it leads to the progress of m + 1 records |
| `RetentionJournal.JournalGrammar` | src/capability_catalog_store/retention/journal.rs:300-446 | replay accepts exactly the non-empty prefixes of the one journal a valid plan can produce, and yields their progress |
| `JournalFile.Load` | src/capability_catalog_store/retention/journal.rs:300-344 | reading line by line with a valid, an invalid or no tail gives the progress and repaired file of the recursive reading |
| `JournalFile.TornJournal` | src/capability_catalog_store/retention/journal.rs:71-83 | a journal cut at any byte reopens to exactly the records that are there and is repaired to exactly their bytes, unless it lacks its first record |
| `JournalFile.OpenedIff` | src/capability_catalog_store/retention/journal.rs:300-344 | of all byte strings exactly these can be opened: some records of a valid plan's one journal followed by nothing or by bytes that are no record (after at least one record), or by the next record without its newline; and what is read and what is left are exactly the records that are there |
| `JournalFile.OneReader` | src/capability_catalog_store/retention/journal.rs:76-80 | the newline or the truncation a reader applies leaves exactly the file that opening it means |
| `JournalFile.TwoReaders` | src/capability_catalog_store.rs:509-516 | for every readable file: two readers that read before either repairs leave an unreadable one exactly if the last record lacks only its newline, and otherwise what one reader leaves |
| `RetentionProtocol.AnyCutIsAJournal` | src/capability_catalog_store/retention/journal.rs:274-344 | the journal states of the protocol are all there is: any cut file is one of them |
| `RetentionProtocol.InvStep` | src/capability_catalog_store/retention.rs:319-449 | every step of publication, journalling, unlinking, repair and retirement keeps directory and journal in agreement |
| `RetentionProtocol.RetentionSafety` | src/capability_catalog_store/retention.rs:287-449 | in every state of every run with a journal, the store is the reviewed inventory without the first k removals, k being the recorded count or one more while one is announced, and all of it while no record is readable; nothing protected is missing; a completed journal means exactly the retained set |
| `RetentionProtocol.OnlyCondemnedDisappear` | src/capability_catalog_store/retention.rs:394-426 | a record that was held and no longer is was removed under a journalled plan that selects it and does not protect it |
| `RetentionProtocol.PendingExcludesPublication` | src/capability_catalog_store/retention.rs:539-549 | while a journal is pending the store only shrinks and the plan does not change |
| `RetentionProtocol.CreationWindow` | src/capability_catalog_store/retention/journal.rs:548-575 | a kill during journal creation reaches a state whose journal has no readable record |
| `RetentionDurability.OnlyCondemnedAreLost` | src/capability_catalog_store/retention.rs:394-448 | through any kills and power losses, a record leaves the store only under a journalled plan that removes it |
| `RetentionDurability.PowerKeeps` | src/capability_catalog_store/retention.rs:420-448 | a power loss leaves directory and journal in agreement, and a journal lost with it had removed nothing |
| `RetentionDurability.RetentionSurvives` | src/capability_catalog_store/retention/journal.rs:548-638 | every state of every run without a stranding kill, and whatever a power loss leaves of it, is as the retention protocol promises |
| `RetentionDurability.KillIsSafeIff` | src/capability_catalog_store/retention.rs:573-613 | a kill can cost the agreement at a later power loss exactly if it leaves the name of a readable journal, an announcement, a removal or a retirement unsynchronized |
| `RetentionDurability.HarmIsReachable` | src/capability_catalog_store/retention.rs:401-448 | for every plan and each of its removals retention passes through every kind of such a kill |
| `CatalogRetention.AfterInFlight` | src/capability_catalog_store/retention/journal.rs:197-205 | dropping the announced record from the expected listing is the expected listing of the next checkpoint |
| `CatalogRetention.CompareExact` | src/capability_catalog_store/retention.rs:573-613 | the verdict of reconciliation tells exactly which of the two agreeing inventories the directory holds or that it holds neither, and reports a stale plan exactly if nothing was removed or announced yet |
| `CatalogRetention.CatalogStore.LoadJournal` | src/capability_catalog_store/retention/journal.rs:71-83 | opening repairs the tail and returns the progress of the readable records; it fails exactly if there is none |
| `CatalogRetention.CatalogStore.Reconcile` | src/capability_catalog_store/retention.rs:573-613 | an unrecorded unlink is recorded; afterwards the directory holds exactly what the progress says |
| `CatalogRetention.CatalogStore.RemoveNext` | src/capability_catalog_store/retention.rs:377-448 | one removal is announced if need be, made and recorded; the journal grows |
| `CatalogRetention.CatalogStore.Drain` | src/capability_catalog_store/retention.rs:319-449 | the recovery loop ends, from any open journal, with the retained set, no journal, and all planned removals reported |
| `CatalogRetention.CatalogStore.ApplyRetention` | src/capability_catalog_store/retention.rs:224-450 | without a journal: no-op on the retained set, complete removal on exactly the reviewed inventory, refusal with nothing touched otherwise; with this plan's journal: convergence; with another's or an unreadable one: refusal |
| `CatalogRetention.CatalogStore.RecoverRetention` | src/capability_catalog_store/retention.rs:511-533 | the journalled plan is completed exactly when the journal is readable and belongs to this installation, with exactly the outcome of applying it: changed, its removals and its retained count; a failure removes nothing |
| `CatalogRetention.CatalogStore.Publish` | src/capability_catalog_store.rs:225-276 | refused while a journal is pending; idempotent for a stored record; otherwise adds exactly the record unless the digest conflicts or the store is full |
| `CatalogRetention.CatalogStore.Get` | src/capability_catalog_store.rs:281-314 | refused while a journal is pending; otherwise exactly the record with the digest, or none |
| `CatalogRetention.CatalogStore.PlanRetention` | src/capability_catalog_store/retention.rs:198-222 | refused while a journal is pending; otherwise a plan exactly when the protected digests are admissible, confirmed for this inventory and retaining exactly the protected records |
| `RestorePlan.Validate` | src/capability_catalog_store/restore.rs:94-136 | accepts exactly the canonical plans; the running byte total cannot overflow and its bound never rejects |
| `RestorePlan.PlanRestoreSound` | src/capability_catalog_store/restore.rs:184-210 | planning succeeds exactly on a bounded list of valid records without a repeated digest, and yields a valid plan of exactly those records |
| `RestorePlan.PlanRestoreOrderFree` | src/capability_catalog_store/restore_prepare.rs:3-64 | the outcome, plan or refusal, does not depend on the order of the supplied catalogs |
| `RestoreProtocol.LiveStep` | src/capability_catalog_store/restore_prepare.rs:313-341 | a step never changes an existing live root, and creates one only as the complete candidate of a marked plan |
| `RestoreProtocol.LiveIsFinal` | src/capability_catalog_store/restore.rs:297-332 | over any run only the store's own operations change an existing live root |
| `RestoreProtocol.InvStep` | src/capability_catalog_store/restore_prepare.rs:105-449 | every step of staging, activation, discarding and retirement keeps candidate, marker and live root consistent |
| `RestoreProtocol.AllOrNothing` | src/capability_catalog_store/restore.rs:258-333 | from a clean target, whatever is live in any state is what one earlier step left, and that step made the whole of a valid, complete, marked plan live at once or was the store's own |
| `RestoreProtocol.QuietAllOrNothing` | src/capability_catalog_store/restore.rs:258-333 | while only restores run, whatever is live is exactly one whole reviewed plan |
| `RestoreProtocol.RetryConverges` | src/capability_catalog_store/restore_prepare.rs:190-449 | a retry succeeds from every state attempts and the store can leave, except exactly four |
| `RestoreProtocol.QuietRetryConverges` | src/capability_catalog_store/restore_prepare.rs:343-449 | while only restores run, exactly the empty partial and the empty staging directory remain |
| `RestoreProtocol.HopelessIsFinal` | src/capability_catalog_store/restore_prepare.rs:190-449 | over any run of attempts at any plans and of the store's operations, an empty partial, and beside a live root an empty staging directory or an incomplete candidate, stay as they are, and no plan can be restored in any state |
| `RestoreProtocol.HopelessIff` | src/capability_catalog_store/restore_prepare.rs:343-449 | a staged plan can be restored at some later time exactly if it is in none of those states |
| `RestoreProtocol.OvertakenUntil` | src/capability_catalog_store/restore.rs:297-332 | otherwise, beside a live root, a retry succeeds exactly when the live root is again the plan's records |
| `RestoreProtocol.WindowsAreReachable` | src/capability_catalog_store/restore_prepare.rs:233-270 | both kill windows are reached from a clean target for every plan that restores something, and are of the final kind |
| `RestoreProtocol.OvertakingIsReachable` | src/capability_catalog_store.rs:225-276 | so are the two the store brings about: an overtaken one, which is refused but not final, and an incomplete candidate, which is final |
| `CatalogRestore.RestoreTarget.RecoverMarker` | src/capability_catalog_store/restore_prepare.rs:190-231 | a full partial becomes the marker, a short one is dropped, unusable evidence is refused; tells whether activation had begun |
| `CatalogRestore.RestoreTarget.PrepareStaging` | src/capability_catalog_store/restore_prepare.rs:105-141 | succeeds exactly on a recoverable disk, leaving a complete candidate |
| `CatalogRestore.RestoreTarget.CreateMarker` | src/capability_catalog_store/restore_prepare.rs:233-270 | writes the marker through its partial and changes nothing else |
| `CatalogRestore.RestoreTarget.RetireCompleted` | src/capability_catalog_store/restore_prepare.rs:343-385 | beside a target that already is the plan's, succeeds exactly if recoverable, and clears the staging directory |
| `CatalogRestore.RestoreTarget.ApplyCleanRestore` | src/capability_catalog_store/restore.rs:258-333 | succeeds exactly for a confirmed plan with its source on a recoverable disk; then exactly the records are live and nothing is staged; a failure leaves the live root alone, and everything else too on what attempts and the store can have left |
| `PublicationProtocol.InvStep` | src/capability_catalog_store/mutation.rs:27-141 | every step, kill and power loss keeps targets leading to whole durable records |
| `PublicationProtocol.PublicationDurable` | src/capability_catalog_store/mutation.rs:27-64 | in every run of attempts, kills and power losses, unless a process stranded the record: once a synced staging name or the target holds it, some durable name does in every later state; a published record stays published; any target holds the addressed bytes |
| `PublicationProtocol.KillIsSafeIff` | src/capability_catalog_store/mutation.rs:66-113 | after a kill before the target exists, some completed publication can lose the record at a power loss exactly if the whole record was staged unsynced |
| `PublicationProtocol.UnsyncedKillLosesTheRecord` | src/capability_catalog_store/mutation.rs:75-77 | for every record, a run from a clean slot publishes it and a power loss takes it |
| `CatalogPublication.RecordSlot.PrepareStaging` | src/capability_catalog_store/mutation.rs:66-113 | the staging name holds exactly the record, whatever was there |
| `CatalogPublication.RecordSlot.RetireStaging` | src/capability_catalog_store/mutation.rs:115-141 | only the staging name goes, and only when the target is settled or the bytes are not the record |
| `CatalogPublication.RecordSlot.Publish` | src/capability_catalog_store.rs:252-276 | succeeds exactly unless the target holds other bytes; the target entry is then durable and leads to the record, and no staging name remains |
| `StateRestorePlan.ValidateEntries` | src/state_restore.rs:723-754 | accepts exactly the bounded, typed, strictly ordered inventories without case-insensitive collisions |
| `StateRestorePlan.KeyLessIff` | src/state_restore.rs:617-634 | data paths come before state paths; within a root the first differing character decides, and a path comes before its continuations |
| `StateRestorePlan.PortableIff` | src/state_restore.rs:731-737 | two paths collide exactly if they are in one root and agree letter by letter up to ASCII case |
| `StateRestorePlan.AllKeysSound` | src/state_restore.rs:617-634 | the merged keys are every path of either inventory, once, in order |
| `StateRestoreDiff.DiffRebuilds` | src/state_restore.rs:617-658 | the before side of the actions is the live inventory and the after side the backup, entry by entry |
| `StateRestoreDiff.ActionsAreTheDiff` | src/state_restore.rs:617-658 | every well-formed ordered action list is the difference of its own two sides, so plans and pairs of inventories determine each other |
| `StateRestoreDiff.NoChangeIffEqual` | src/state_restore.rs:595-602 | all actions retain exactly when the two sides are equal |
| `StateRestoreDiff.RollbackInverts` | src/state_restore.rs:617-658 | the difference the other way round is the inverse of each action |
| `StateRestoreSummary.Summarize` | src/state_restore.rs:688-721 | fails exactly when a 64-bit counter would overflow; each kind of action is counted and weighed by itself |
| `StateRestoreSummary.SummaryConserved` | src/state_restore.rs:688-721 | the file and byte counts add up to both inventories |
| `StateRestoreSummary.SummaryFits` | src/state_restore.rs:688-721 | between valid inventories no counter overflows |
| `StateRestoreReview.AuthorityValid` | src/state_restore/authority.rs:78-89 | the Registry and Grant entries of a valid inventory are a valid inventory |
| `StateRestoreReview.AuthorityCompared` | src/state_restore.rs:235-249 | comparing the filtered lists decides whether two inventories agree about every Registry and every Grants entry |
| `StateRestoreReview.SameAuthorityRetained` | src/state_restore.rs:235-249 | equal authority on both sides already implies that every authority action retains |
| `StateRestoreReview.ValidateActions` | src/state_restore.rs:203-225 | accepts exactly valid, strictly ordered, portably distinct actions and collects both sides |
| `StateRestoreReview.Validate` | src/state_restore.rs:187-265 | accepts exactly the valid plans; in those both sides agree about every Registry and Grants entry, every action of these two families retains, and the authority digest lists exactly these entries |
| `StateRestoreReview.ValidateAction` | src/state_restore.rs:203-225 | accepts exactly actions of an admissible path, bounded evidence and the kind their two sides call for |
| `StateRestoreReview.ValidPlanIsBuilt` | src/state_restore.rs:187-265 | a plan passes its review exactly when it is the plan some live inventory calls for |
| `StateRestoreReview.BuildPlan` | src/state_restore.rs:589-615 | succeeds exactly when both inventories are valid, their paths compatible, they agree about every Registry and Grants entry and the authority lists exactly these; the sides are then live and backup, and the status is no-change exactly if they are equal |
| `StateRestoreReview.OtherFamiliesAreFree` | src/state_restore/authority.rs:78-89 | a difference in any other family alone never makes planning refuse |
| `StateRestoreRollback.RollbackReturns` | src/state_backup/inventory.rs:296-345 | over what a completed restore leaves, the backup and its own record, the plan for the rollback backup is the inverse of the first plan with the removal of that record merged in; its sides are that inventory and the original one |
| `StateRestoreRollback.RollbackPlannableIff` | src/state_restore.rs:849-875 | that plan passes its review exactly if the record is a valid entry of its own and the inventory has room for it |
| `StateRestoreProtocol.AncestorsIff` | src/state_restore/filesystem.rs:378-412 | the directories above a path are exactly those whose path and a slash begin it |
| `StateRestoreProtocol.OnlyReviewedContentGoes` | src/state_restore/filesystem.rs:162-245 | only a file with the reviewed length and digest is made writable or unlinked, and only for a removal or a replacement whose candidate is staged |
| `StateRestoreProtocol.WritableSetsOneBit` | src/state_restore/filesystem.rs:524-535 | making a file writable sets the owner's write bit and nothing else |
| `StateRestoreProtocol.MidwayStep` | src/state_restore/filesystem.rs:162-255 | every touch, unlink, rename and duplicate removal stays within the conditions one path can be in, and none applies to a settled path |
| `StateRestoreProtocol.DuplicatesAreWritable` | src/state_restore/filesystem.rs:206-220 | a duplicate candidate arises only from a replacement that sets the write bit, and is never read-only |
| `StateRestoreProtocol.PublishInvStep` | src/state_restore/filesystem.rs:121-255 | publication works on one action at a time, in order, and only where no directory is in its way |
| `StateRestoreProtocol.InvStep` | src/state_restore.rs:318-587 | every step of activation, pruning, checkpointing, staging, publication, cleanup and completion keeps journal, marker, candidates, directories and live files consistent |
| `StateRestoreSafety.StatusOnlyAdvances` | src/state_restore/journal.rs:136-153 | over any run the status moves through its values in order, one at a time, never back |
| `StateRestoreSafety.LiveIsInventory` | src/state_restore.rs:573-579 | being on one side of the plan path by path is having exactly that side's inventory |
| `StateRestoreSafety.RestoreSafety` | src/state_restore.rs:464-587 | over any run: live files are the reviewed ones until publication, but for the one record that starting over a full history removes, the backup's up to one action during it, and exactly the backup's after it |
| `StateRestoreSafety.MarkerClearedAtBackup` | src/state_restore.rs:559-587 | the marker disappears only when live equals the backup inventory exactly |
| `StateRestoreSafety.NothingIsLost` | src/state_restore/filesystem.rs:121-255 | over any run, from the completion of staging to the end of publication every file the plan brings is live or still staged, and every retained file is as it was, but for a pruned record |
| `StateRestoreReach.BeforeOrAfterIff` | src/state_restore/filesystem.rs:162-255 | every path is at its before or after evidence in all reachable publishing states exactly when no action before the first obstructed one replaces a file or removes a read-only one |
| `StateRestoreReach.RepeatedRestoreWedges` | src/state_restore.rs:362-384 | repeating a completed restore over an installation that has changed while the record was kept reaches a marked state that is not the backup's |
| `StateRestoreRecovery.RetryConverges` | src/state_restore.rs:341-545 | a started restore, in whatever reachable state its process ended, is completed by the next attempt exactly if its journal can be read, it was not completed and overtaken, no reviewed record has to be or was pruned, no path still to be worked on is a directory, and the archives its progress still needs are there; from staging on it needs none |
| `StateRestoreRecovery.DoomIsFinal` | src/state_restore.rs:464-545 | otherwise no run of later attempts finishes the restore or clears its marker |
| `StateRestoreRecovery.WindowsKeepLive` | src/state_restore/journal/storage.rs:169-229 | with an unreadable or overtaken journal no run of later attempts changes a live file |
| `StateRestoreRecovery.ForgettingKeepsLive` | src/state_restore/journal/history.rs:94-176 | with a full history no run of later attempts changes a live file but the oldest record |
| `StateRestoreRecovery.FullHistoryDooms` | src/state_restore/journal/history.rs:121-160 | with 64 records every plan reaches such states, before and after the oldest is removed |
| `StateRestoreRecovery.KillBlocks` | src/state_restore/filesystem.rs:378-412 | a plan that publishes below one of its own paths reaches, by a kill after that directory was made, a state whose path is a directory |
| `StateRestoreRecovery.FinishableIff` | src/state_restore/filesystem.rs:442-455 | some run of a plan finishes exactly if no path of the plan lies above a reviewed file |
| `StateRestoreRecovery.WindowsAreReachable` | src/state_restore/journal/storage.rs:120-167 | a kill in the middle of any checkpoint, in particular of the first, reaches its window |
| `InstallationRestore.Installation.LoadJournal` | src/state_restore/journal.rs:524-552 | finishes or discards an interrupted checkpoint; fails exactly on an unloadable one |
| `InstallationRestore.Installation.Advance` | src/state_restore.rs:547-557 | the journal moves to the next status and nothing else changes |
| `InstallationRestore.Installation.Begin` | src/state_restore/journal.rs:570-589 | the operation starts at its first status; exactly over a full history the oldest record is gone |
| `InstallationRestore.Installation.StageCandidates` | src/state_restore/filesystem.rs:20-63 | complete candidates from the backup, or accepted as staged earlier; fails exactly without either |
| `InstallationRestore.Installation.EnsureDirectories` | src/state_restore/filesystem.rs:378-412 | exactly the missing directories above the path are made; no live file is ever in their way |
| `InstallationRestore.Installation.PublishCandidate` | src/state_restore/filesystem.rs:179-255 | from any condition a kill can leave, the path ends with the new file live and no candidate |
| `InstallationRestore.Installation.ApplyActions` | src/state_restore/filesystem.rs:121-160 | every action is applied, from wherever publication stopped, exactly if no path of the plan was a directory at the start |
| `InstallationRestore.Installation.RemoveCandidates` | src/state_restore/filesystem.rs:257-282 | the candidate roots go, and nothing else |
| `InstallationRestore.Installation.Prepare` | src/state_restore.rs:476-510 | staging and the second look at the live files succeed exactly with the backup or complete candidates and with no reviewed record pruned; no live file changes |
| `InstallationRestore.Installation.Resume` | src/state_restore.rs:464-545 | carries the operation to completion from any status exactly if it can be continued |
| `InstallationRestore.Installation.ApplyRestore` | src/state_restore.rs:318-462 | succeeds exactly on a restorable disk, and live is then the backup; it reports no change exactly for a first attempt whose two sides are equal, and otherwise nothing is staged and the marker is gone; a failure changes no live file, except that a full history loses its oldest record and that publication stops where a path is a directory |
| `StateRestoreRoundTrip.FinishedIsBackup` | src/state_restore.rs:559-587 | a finished restore leaves exactly the files of the reviewed backup |
| `StateRestoreRoundTrip.RollbackRoundTrip` | src/state_restore.rs:831-875 | the rollback plan is valid and starts on what the first restore left with its record, and its end is the original installation; the bare inverse can never be started there |
| `StateRestoreRoundTrip.RollbackFinishableIff` | src/state_restore/filesystem.rs:442-455 | some run of the rollback finishes exactly if the restore put no file below a path of its plan |
| `StateRestoreHistory.LoadHistory` | src/state_restore/journal/history.rs:70-92 | reading the history for a new restore succeeds exactly if it is within its bound and every operation directory holds its record |
| `StateRestoreHistory.ForgetsIff` | src/state_backup/inventory.rs:497-500 | a completed restore removed the record of another operation exactly if its backup lacks one |
| `StateRestoreHistory.IntactIff` | src/state_restore/journal/history.rs:70-92 | over any history of completed restores and other changes, the history can be read exactly if no plan applied so far removed the record of another operation |
| `StateRestoreHistory.LastRestore` | src/state_restore.rs:425-430 | after a restore whose backup lacks the record of an earlier restore no other restore ever completes |
| `StateRestoreHistory.RollbackIsLast` | src/state_restore.rs:849-875 | in particular none after a rollback |
| `StateRestoreHistory.LifetimeBound` | src/state_restore/journal/history.rs:121-160 | the completed restores of any history, with the records it began with, are at most 64 |
| `SurfaceRefs.RefOrder` | crates/core/src/plugin/mod.rs:185-190 | surface identities are totally ordered by kind and then identifier |
| `SurfaceRefs.RefLessByKind` | crates/core/src/plugin/mod.rs:174-190 | the kinds are ordered flow, MCP, OKF, skill, tool, UI, and identifiers of one kind as text |
| `SurfaceGraph.StuckIsCyclic` | src/surface_graph.rs:61-77 | if every remaining surface waits for a remaining one, there is a dependency cycle |
| `SurfaceGraph.LevelIsDepth` | src/surface_graph.rs:78-93 | an assigned level is the length of the longest dependency chain below the surface |
| `SurfaceGraph.LevelledIsAcyclic` | src/surface_graph.rs:47-94 | a graph in which every surface has a level has no cycle |
| `SurfaceGraph.RequiredIsLeast` | src/surface_graph.rs:96-111 | the required surfaces are the least dependency-closed set with every mandatory surface |
| `SurfaceScheduler.AssignLevels` | src/surface_graph.rs:47-94 | the level loop succeeds exactly on acyclic graphs; the 32-bit level is never exhausted |
| `SurfaceScheduler.CloseRequired` | src/surface_graph.rs:96-111 | the worklist yields exactly the required surfaces |
| `SurfaceScheduler.Schedule` | src/surface_graph.rs:29-133 | succeeds exactly on well-formed acyclic input, with its one schedule: by level then identity, levels as longest chains, required as the least closure |
| `SurfaceScheduler.ScheduleUnique` | src/surface_graph.rs:113-132 | a graph has at most one schedule |
| `SurfaceScheduler.ScheduleOrderFree` | src/surface_graph.rs:29-133 | whether a list can be scheduled, and its schedule, are the same for every ordering of the list |
| `SurfaceScheduler.DependenciesFirst` | src/surface_graph.rs:113-132 | every dependency is scheduled strictly before its dependent |
| `SurfaceReconciler.HostedByKind` | src/surface_reconciler.rs:197-211 | each kind of surface has its own host |
| `SurfaceReconciler.WantedByKind` | src/surface_reconciler.rs:271-291 | nothing runs unless the plugin is enabled; knowledge, and eager tools and MCP servers, have to be healthy, all else prepared |
| `SurfaceReconciler.SatisfiedIsEnough` | src/surface_reconciler.rs:428-442 | comparing wanted and observed state decides exactly whether a surface is healthy, or prepared where that is enough |
| `SurfaceReconciler.EvaluateExact` | src/surface_reconciler.rs:290-340 | given exact results for the dependencies, a surface is satisfied iff its whole dependency closure is explicitly satisfied, and failed iff the closure contains an explicit failure |
| `SurfaceReconciler.EvaluateMeans` | src/surface_reconciler.rs:290-369 | the evaluated state and its reason are those the graph gives |
| `SurfaceReconciler.AggregateExact` | src/surface_reconciler.rs:371-426 | the plugin state computed from the surface list is the one the graph and the observations define |
| `SurfaceReconciler.ReadyStates` | src/surface_reconciler.rs:177-182 | publication is allowed exactly when the plugin is enabled, compatible and every required surface explicitly satisfied |
| `SurfaceReconciler.PublicationIsClosed` | src/surface_reconciler.rs:183-187 | whatever is published has all its dependencies published |
| `SurfaceReconciler.Reconcile` | src/surface_reconciler.rs:119-195 | succeeds exactly for a schedulable version-3 manifest and observations of its own surfaces; host and wanted state of each surface are those of its kind and activation, and every other field of the snapshot is what graph and observations say |
| `SurfaceSnapshots.SnapshotOrderFree` | src/surface_reconciler.rs:119-195 | two reconciliations of the same surfaces under the same observations give the same snapshot, whatever the order of the manifest |
| `SurfaceSnapshots.OptionalNeverBlocks` | src/surface_reconciler.rs:177-187 | two reconciliations whose observations agree on the required surfaces agree on readiness |
| `SurfaceSnapshots.PublishedByObservations` | src/surface_reconciler.rs:177-187 | in kinds, activation and observations alone: a surface is published exactly if the plugin is enabled and compatible and every required surface and everything it depends on is observed healthy, or prepared where it need not run |
| `SurfaceSnapshots.PublicationIsMonotone` | src/surface_reconciler.rs:183-187 | if every surface that was satisfied still is, everything one snapshot published the other publishes |
| `SurfaceSnapshots.PublishedIsClosed` | src/surface_reconciler.rs:183-187 | a snapshot publishes all the dependencies of whatever it publishes |
| `ArtifactReferences.ValidateFact` | src/artifact_reachability.rs:255-273 | accepts exactly facts with positive expectations, no file count for a blob, and an installation exactly for all but registry observations |
| `ArtifactReferences.MergedExact` | src/artifact_reachability.rs:275-287 | the merged expectation is a value exactly if some fact about the artifact states it |
| `ArtifactReferences.InventoryOrderFree` | src/artifact_reachability.rs:189-253 | acceptance and the finished inventory depend only on the multiset of facts |
| `ArtifactReferences.ReferenceAccumulator.Observe` | src/artifact_reachability.rs:189-236 | a fact is rejected exactly when it is invalid, exceeds the bound or disagrees with an earlier one |
| `ArtifactReferences.Accumulate` | src/artifact_reachability.rs:189-253 | folding succeeds exactly on acceptable lists and yields their inventory |
| `ArtifactReferences.CountsAreConserved` | src/artifact_reachability.rs:212-236 | the counts of the owners of any targets sum to the number of facts naming them |
| `ArtifactReferences.TotalIsFactCount` | src/artifact_reachability.rs:212-236 | every fact is counted exactly once |
| `ArtifactMaintenance.TargetSummary` | src/artifact_reachability/maintenance.rs:36-66 | the reference count is exactly the number of raw facts naming a target, and no counter overflows |
| `ArtifactMaintenance.SummaryOrdered` | src/artifact_reachability/maintenance.rs:36-66 | referenced targets, owner groups and references are ordered, and the count is zero exactly when no fact names a target |
| `ArtifactMaintenance.ArtifactStore.RequireUnreferenced` | src/artifact_reachability/garbage_collection.rs:58-83 | succeeds exactly when the facts are acceptable and none names a target |
| `ArtifactMaintenance.ArtifactStore.PlanCollection` | src/artifact_reachability/garbage_collection.rs:20-32 | a collection is planned exactly when the facts are acceptable and none names a target |
| `ArtifactMaintenance.ArtifactStore.ApplyCollection` | src/artifact_reachability/garbage_collection.rs:37-56 | a completed plan is replayed without touching anything; otherwise deletion happens only with no fact naming a target |
| `ArtifactJoin.MergeReferences` | src/artifact_reachability/joined.rs:135-185 | groups a list of references by artifact, accepting exactly well-formed lists without a repeated owner |
| `ArtifactJoin.PlacePhysical` | src/artifact_reachability/joined.rs:187-207 | attaches evidence, rejecting exactly invalid or repeated physical entries |
| `ArtifactUsage.ArtifactsByKind` | src/artifact_reachability/joined.rs:103-107 | blobs come before expanded packages, and within a kind the digest decides |
| `ArtifactUsage.OwnersBySource` | src/artifact_reachability.rs:53-65 | owners are ordered by source as declared, and within a source by installation, none first |
| `ArtifactUsage.ValidateRow` | src/artifact_reachability/joined.rs:380-449 | accepts exactly the valid rows: counted, strictly ordered, valid owners, valid evidence and a status that is right by cases of expectation and evidence |
| `ArtifactUsage.StatusByCases` | src/artifact_reachability/joined.rs:262-281 | the computed status is unspecified without expectation, unavailable without complete evidence, and otherwise tells whether some expectation differs from the evidence |
| `ArtifactUsage.StorageUsage` | src/artifact_reachability/joined.rs:300-378 | accepts exactly the accountable inventories; every counter is the number of artifacts it names, and every byte sum the total over the referenced, the other or all entries |
| `ArtifactUsage.UsageBalanced` | src/artifact_reachability/joined.rs:300-378 | keys are referenced plus unreferenced and physical plus missing; content and physical bytes add up |
| `ArtifactReachability.JoinedRowValid` | src/artifact_reachability/joined.rs:380-449 | every row of a join passes row validation |
| `ArtifactReachability.TotalsConserved` | src/artifact_reachability/joined.rs:300-378 | whatever is measured, the rows hold exactly the physical input |
| `ArtifactReachability.JoinedMeans` | src/artifact_reachability/joined.rs:300-378 | rows that say exactly what the two inputs say have the usage of the inputs: referenced, stored, missing, unreferenced, incomplete and contradicted artifacts, and the bytes of referenced and other content |
| `ArtifactReachability.AccountableIffFits` | src/artifact_reachability/joined.rs:300-378 | joined rows pass every bound exactly when the physical totals fit |
| `ArtifactReachability.FinishedIsWellReferenced` | src/artifact_reachability.rs:238-253 | the inventory of any acceptable list of facts can be joined, in whatever order it is listed |
| `ArtifactReachability.Join` | src/artifact_reachability/joined.rs:123-242 | succeeds exactly for well-formed references and valid, distinct, fitting evidence; every artifact of either side has one row that says exactly what both sides say, with the status these call for; every figure of the usage is counted or added up over the two inputs |
| `ArtifactReachability.ValidatedUsage` | src/artifact_reachability/joined.rs:283-298 | re-validation accepts exactly an accountable inventory every figure of whose usage is right for its rows |
| `ReleaseScan.WindowSuffices` | scripts/verify-release-portability.py:112-122 | an occurrence in what has been read is an old one or lies in the kept tail and the new chunk |
| `ReleaseScan.FileContains` | scripts/verify-release-portability.py:112-122 | true exactly when some needle occurs in the whole file, for every cut into chunks |

## Left out

- Canonical JSON, SHA-256 and the textual form of digests, schema strings, platform and version fields: constants and encodings without behaviour of their own.
- Link, reparse-point, file-identity and no-follow checks, path resolution, and layout validation of foreign names: platform I/O.
- I/O errors: an operation that fails half way is modelled as a kill at that point, not as its own error result.
- Locks, the maintenance fence and the collection guard: modelled as mutual exclusion, one operation at a time. Catalog readers share a lock; what two of them do to a journal's tail is stated about its bytes, and the retention protocol has one reader at a time.
- Power loss for the two restores: only kills are modelled there; publication and retention model both.
- RetentionDurability.PowerKeeps: a power loss leaves a prefix of the journal's unsynchronized bytes; that it could leave other bytes in their place, as the publication protocol allows for a record, is not modelled.
- A live catalog root with a pending retention journal is not a state of the clean-restore protocol; the source refuses to restore beside one.
- Byte-size bounds of encoded journals, plans, manifests and markers.
- The absent catalog root: an empty store and a store whose directory does not exist are the same model state.
- Catalog publication's staging file inside the retention protocol: there a publication is one step; its steps are in the publication protocol.
- Backups whose files do not fit into one directory tree (a file and another below its path): no scan produces one, and the restore protocol takes the after side of a plan to be one tree.
- The Control Store export projected into the live inventory: it is an ordinary retained entry, and the comparison with the live Control Store is taken to succeed.
- Several restore operations at once: the restore protocol follows one plan and the history follows completed ones; that another active or unfinished plan is refused is not modelled, and pruning a record and its directory is one step.
- ArtifactMaintenance.ArtifactStore.ApplyCollection: physical deletion is one set difference and its plan digest the set of targets; the extension crate's own records are not part of this model.
- CatalogRetention.CatalogStore.Get: repairs the journal's tail as the only reader; the source lets several readers in at once, and what two of them do is stated by JournalFile.TwoReaders.
- ReleaseScan.FileContains: needles are not empty, as `forbidden_needles` guarantees by its length check.
- Manifest parsing into surface nodes (`surface_nodes`), the artifact traversal, quotas, rehydration, the control store, the capability registry and gateway, the command line, browser and MCP code, archives and packaging scripts: they would only add easy members or model code that is I/O.
