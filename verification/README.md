# pwnbridge: a verified model of its data-moving and concurrent core

pwnbridge keeps a local project and its copy on a remote host in step, opens debugger panes for remote
processes, and keeps recovery copies of whatever a synchronization conflict overwrites.  This project
models the parts of it that must not lose data and the parts in which several processes or goroutines
interleave, in Dafny, and proves what they promise.

The modules follow the program.

- **Volume.** `Disk` is a small file system: for every path, what programs see now and what a power loss may
  still leave (older states until the directory is synced, unsynced bytes until the file is).  `Directories`
  holds the loops that create and sync chains of directories, `FileTree` the deterministic walk of a tree.
- **Recovery copies.** `TextNames` says which names can be archived, `ArchiveStream` is the writer of the
  entry stream, `Extract` the reader, `RoundTrip` what the two promise each other, `CopyTree` the local copy,
  `AtomicFile` the two writers that replace a file in one rename, `RecoveryCatalog` the manifest, `PowerLoss`
  what the volume may show after the power fails.
- **The exchange.** `Exchange` is the two-party protocol that moves a losing copy off the other machine, as
  a state machine in which either side may fail or die at any step, the connection may cut or lose
  messages, and anybody may change the source tree at any time.  `ExchangeSession` is the code of both
  sides, stage by stage, each stage proved to be a step of that machine.
- **Prune.** `Prune` hides, syncs and reclaims archives over a directory whose names have a visible and a
  durable state; `PruneReport` selects, reports and carries it out.
- **Broker.** `Broker` is the debugger broker as a state machine, with every region under its mutex as one
  step; `BrokerServer` is the program: request objects compared by pointer, the table, the connection slots
  and the goroutines with their local variables.  Its sections are proved to be steps of `Broker`, and its
  handlers and `Close` are whole methods that yield to any other goroutine wherever the mutex is free.
  `RateLimit` is the sliding window, `History` what is common to histories that grow step by step.
- **Hosts.** `HostLifecycle` is the protocol by which processes add, choose, use and remove hosts and run
  sessions, meeting only through locks, leases and records; `HostRemoval` is the inspection's loops.
- **Terminal streams.** `Marker`, `NoticeFilter`, `InputGate` and `BoundedWriter` consume byte streams that may
  be cut anywhere; `StatusText` is the decimal text of a status, printed and read back.
- **Engine and recipes.** `SyncEngine` drives the synchronization engine, `Health` walks its JSON answers,
  `Catalog` closes a recipe over its dependencies.

A `calm` parameter means "no call to the system fails": contracts that say when an operation succeeds
require it, all others hold whatever fails; `Prune` instead records what failed in a ghost list, and every
state it went through in a log.  A volume's `Valid()` (no name without its directory, every object with a state
on the medium) is kept by each of its operations, so calls can follow one another on one volume
(`ExchangeSession.MoveBoth`).  `Sealed` and `Lawful` hide a definition until `Opened` is mentioned; that keeps
the proofs small and says nothing else.

A definition that an operation's code shares with its contract is tied down by a lemma that says the same in
other terms: names by an encoder of Unicode text, statuses by a decimal printer, records by the tree's own
fields, the closing policy by the configuration and the exit code, a recipe's closure by chains of
dependencies, words in the engine's texts letter by letter.  Those lemmas are named ...`Exact` where they are
equivalences.

## What the proofs show about the code

Each of these is proved, with the exact condition where there is one.

1. **Nothing ever syncs the name of a freshly created recovery root.**  Extraction syncs every directory from
   the copy up to the held root, but not the root's own entry in its parent.  After the other machine has
   removed its tree, the copy outlives a power loss if and only if the way down to the recovery root was
   durable before the exchange began (`Exchange.SurvivesPowerLoss`, `PowerLoss.SurvivesIff`); then its record
   is still listed as well (`Exchange.RecordSurvives`).
2. **The stream carries the mode of a symbolic link, extraction sets none.**  A copy is accepted into the
   catalog if and only if its root is not a link with another mode than the receiving machine gives
   (`RoundTrip.CatalogAccepts`); a later re-digest of the copy matches if and only if no link in the tree has
   such a mode (`RoundTrip.RedigestMatches`, with a concrete tree in `RoundTrip.LinkModeMismatch`).  The
   source of a refused copy is never removed (`Exchange.ForeignLinkNeverRemoved`).
3. **`fail` acts on a request id, not on a request.**  While a handler is still opening a request's terminal,
   an exit code sent as a first message, or the end of a pane, takes that request out of the table.  When
   the id is then used again and the second terminal is published, a failure of the first handler drops the
   second request, and its terminal is never closed.  Every opened terminal that the success and failure
   policy does not leave open is closed when `Close` returns if and only if no `fail` hits a published request
   (`Broker.AllClosedIff`, and for the terminals the program really opened and closed
   `BrokerServer.Server.Close`).  Such a run exists, up to `Close`'s return with the terminal open
   (`Broker.LeakIsReal`, `Broker.LeakAtReturn`); there is none while no request id is used twice
   (`Broker.DistinctIdsNeverHit`).
4. **`cleanPruneTombstones` reclaims before it syncs.**  A tombstone whose hiding rename is not durable is
   emptied while the archive's own name may still come back after a power loss.  A cleaning that completes
   keeps every listed archive whole, in every state it goes through, if and only if the first tombstone in
   the directory listing was durably hidden or empty (`Prune.RecoveryRoot.CleanTombstones`,
   `Prune.ReclaimSafeIff`).  A prune leaves such a tombstone when its process dies after the hiding rename and
   before its sync, or when the sync and then the rename back both fail, and at no other point; the next
   prune that completes then passes through an unsafe state (`Prune.PruneAfterCrash`).  A prune that starts
   without such a tombstone is safe throughout.
5. **A copy whose last directory syncs fail stays.**  `Copy` removes what it made when copying fails, but
   returns an error and leaves the whole copy when only the final chain of syncs fails
   (`CopyTree.Copy`, result `late`).
6. **`validateCatalog` counts names instead of comparing them.**  A missing component reads as one whose id is
   empty, so an accepted catalog is well-formed if and only if an empty name, when listed, is a component
   (`Catalog.CheckExact`, with a concrete catalog in `Catalog.EmptyNameAccepted`).  The program checks one fixed
   catalog, which has no empty name; the recipe results are proved for every accepted catalog.
7. **A missing session is read off an error's text.**  The text that the engine's program itself was not found
   counts as a missing session too (`SyncEngine.ProgramNotFoundCountsAsMissing`), so "the identifier is cleared
   only for a session that is gone" holds of what the driver takes for missing.

## Model

| member | source | states |
|---|---|---|
| FileTree.Listing | internal/recovery/archive.go:256-291 | a directory's names, all of them and no others |
| FileTree.ListingSorted | internal/recovery/archive.go:256-291 | the walk takes names in strictly increasing byte order, so the stream is deterministic |
| FileTree.LessExact | internal/recovery/archive.go:256-291 | the byte order itself: at the first place where two names differ the smaller byte decides, and a beginning comes first |
| FileTree.WalkComplete | internal/recovery/archive.go:194-254 | every object of the tree is visited, at its own path |
| FileTree.WalkSound | internal/recovery/archive.go:194-254 | every visited entry is what the tree holds there, and lies in the tree |
| FileTree.WalkDistinct | internal/recovery/archive.go:194-254 | no path is visited twice |
| FileTree.WalkParentFirst | internal/recovery/archive.go:194-291 | a directory is visited before anything in it |
| FileTree.WalkInjective | internal/recovery/archive.go:94-128 | two trees with the same walk are the same tree |
| TextNames.Utf8Exact | internal/recovery/archive.go:268-291 | a name is text if and only if it is a concatenation of Unicode scalar values, each encoded in one to four bytes |
| TextNames.TextNameExact | internal/recovery/archive.go:268-291 | a name can be archived if and only if it spells a non-empty sequence of scalar values without a slash and is neither "." nor ".." |
| ArchiveStream.WriteArchive | internal/recovery/archive.go:94-128 | the stream and the summary are those of the tree; failure exactly beyond the limits or at a name that is not text (when nothing else fails), and a failed stream never carries its whole trailer |
| ArchiveStream.LimitsExact | internal/recovery/archive.go:194-291 | which trees those are: at most a million objects, none special, every path of encoded names joined by slashes at most 4096 bytes long, every link target at most 4096 |
| ArchiveStream.NameLengthIs | internal/recovery/archive.go:194-254 | the length that is limited is that of the path written with slashes, "." for the root |
| ArchiveStream.WalkTotals | internal/recovery/archive.go:194-254 | the counters after a walk are the tree's own bytes and objects, computed from its structure |
| ArchiveStream.ArchiveWriter.WriteNode | internal/recovery/archive.go:194-254 | appends the members of the whole walk below a path and adds exactly their number and their bytes to the counters |
| ArchiveStream.ArchiveWriter.WriteChildren | internal/recovery/archive.go:256-291 | the same for a directory's remaining names, in order; a name that is not text ends the walk |
| ArchiveStream.StreamInjective | internal/recovery/archive.go:94-154 | archivable trees with equal digests are equal: a matching digest means matching trees |
| ArchiveStream.MemberInjective | internal/recovery/archive.go:348-358 | a member determines its entry: kind, mode, link target and content |
| ArchiveStream.Describe | internal/recovery/recovery.go:823-874 | special files are refused; otherwise kind, mode, byte total and item count of the walk, unless a read fails |
| Directories.SyncRootDirectoryChain | internal/recovery/recovery.go:1001-1026 | on success exactly the directories from the copy up to the held root are synced; nothing else changes at any moment |
| Extract.ExtractFile | internal/recovery/archive.go:528-567 | a created file is complete and durable with its mode, or the name is the only thing touched |
| Extract.ExtractHeader | internal/recovery/archive.go:528-567 | one object is created exclusively, as its header says, and nothing outside its path changes; fails before creating anything exactly as reported |
| Extract.ExtractMembers | internal/recovery/archive.go:417-455 | the loop succeeds exactly on valid members within the limits; the region below the destination then holds exactly the collected objects, and nothing outside changes |
| Extract.FinishDirectories | internal/recovery/archive.go:463-471 | children before parents, every listed directory gets its mode and its names become durable, without disturbing finished ones |
| Extract.Cleanup | internal/recovery/archive.go:408-416 | a failed extraction removes what it owns, nothing else, and nothing when it owns nothing; the removal is synced, so when nothing fails no power loss brings the destination back |
| Extract.PrepareDestination | internal/recovery/archive.go:379-400 | the parents exist and the destination does not; only missing parent directories were added |
| Extract.ExtractArchive | internal/recovery/archive.go:379-478 | accepts exactly the acceptable streams into a free destination (when nothing fails); success means the objects of the stream stand there durably and the summary is the stream's; failure leaves the destination as it was, given cleanup; nothing outside but new parents changes |
| Extract.AcceptableExact | internal/recovery/archive.go:480-526 | which streams are acceptable, with every number written out: header by header its name, parent, kind, mode, size and link, and distinct names |
| RoundTrip.EmittedAccepted | internal/recovery/archive.go:480-526 | whatever WriteArchive emits for a tree within the limits passes every check of the reader |
| RoundTrip.ExtractionRebuilds | internal/recovery/archive.go:194-567 | extracting what was written for a tree rebuilds that tree durably, links taking the local mode |
| RoundTrip.SummariesAgree | internal/recovery/archive.go:379-478 | the receiver computes the sender's summary (kind, size, items, mode, digest) from the stream alone |
| RoundTrip.CheckSummary | internal/recovery/recovery.go:342-355 | the catalog's comparison of the stored copy with the summary |
| RoundTrip.CatalogAccepts | internal/recovery/recovery.go:342-355 | the rebuilt copy is accepted if and only if its root is not a link with a foreign mode |
| RoundTrip.RedigestMatches | internal/recovery/archive.go:166-192 | a later verification's digest matches if and only if every link's mode is the local one |
| RoundTrip.LinkModeMismatch | internal/recovery/archive.go:528-567 | a concrete tree whose copy is refused and whose digest differs |
| CopyTree.Copy | internal/recovery/recovery.go:124-165 | exclusive durable copy; a failure while copying leaves the destination as it was; a failure of the last syncs leaves the whole copy; nothing outside but new parents changes; succeeds when nothing fails |
| CopyTree.CopyableExact | internal/recovery/recovery.go:201-241 | which trees can be copied: no special file at any depth, and every name spells scalar values without a slash |
| CopyTree.CopyNode | internal/recovery/recovery.go:167-199 | one object and everything below it stands as in the source, or the failure is confined to its path; no special file and no name that is not text gets through |
| CopyTree.CopyDirectory | internal/recovery/recovery.go:201-241 | the directory's mode is set and its names are synced after its children |
| CopyTree.CopyChildren | internal/recovery/recovery.go:201-241 | the copied names grow one by one, those before staying as they were |
| CopyTree.BelowIsFinished | internal/recovery/recovery.go:167-241 | what the recursive copy leaves is what extraction would have left: the same objects, every directory's names durable |
| AtomicFile.NearestExistingDirectory | internal/fsutil/fsutil.go:141-157 | the longest part of the path that is a directory, nothing existing below it; fails exactly on an obstacle |
| AtomicFile.AtomicWrite | internal/fsutil/fsutil.go:96-139 | at every step the target shows, and after any power loss will show, the old or the new content in full; success means content and every entry up to the nearest old directory are durable; the temporary name is gone afterwards unless its removal failed too |
| AtomicFile.Publish | internal/fsutil/fsutil.go:109-134 | the rename replaces the target at once or not at all, with no other name touched but the temporary one; a directory is not replaced |
| AtomicFile.FinishReplacing | internal/fsutil/fsutil.go:163-176 | the chain of directory syncs makes the new file and every created directory durable |
| AtomicFile.WriteManifest | internal/recovery/recovery.go:955-999 | the same for the manifest, and everything else on the volume keeps what it is and how durable it is |
| AtomicFile.RenameBeforeSyncIsUnsafe | internal/fsutil/fsutil.go:96-139 | why the bytes are synced first: a rename before the sync may leave neither old nor new |
| RecoveryCatalog.RecordSummary | internal/recovery/recovery.go:326-384 | success exactly when the stored copy matches, the path is new and the manifest is current; the manifest then is the old one, which was read from a file of at most 1 MiB or is empty where there was none, with one record more, whose path, kind, bytes, items, mode and digest are the copy's own; it is durable, and at every step the manifest is the old or the new one |
| RecoveryCatalog.CurrentExact | internal/recovery/recovery.go:356-369 | what counts as the present manifest: a file that decodes to one of this archive and winner within 1 MiB, or an empty one where there is no file |
| RecoveryCatalog.RecordDescribes | internal/recovery/recovery.go:342-379 | the record of an accepted copy gives the copy's bytes, items, kind and mode |
| RecoveryCatalog.TreeDescribed | internal/recovery/recovery.go:342-379 | the record of a streamed tree gives that tree's bytes, items, kind, mode and digest |
| RecoveryCatalog.StoreManifest | internal/recovery/recovery.go:955-999 | a manifest beyond the size limit is refused; otherwise atomic durable replacement |
| RecoveryCatalog.CopyUndisturbed | internal/recovery/recovery.go:326-384 | a stored copy stays what it is, and as durable, while its record is written |
| PowerLoss.RecordKept | internal/recovery/recovery.go:955-999 | a record is still listed after a power loss when the way to its archive is durable |
| PowerLoss.KeptWayStands | internal/recovery/recovery.go:1001-1026 | a path whose every directory is durable is still there after any power loss |
| PowerLoss.CopyKept | internal/recovery/archive.go:463-478 | a durable copy that is still reachable after a power loss is whole |
| PowerLoss.SurvivesIff | internal/recovery/archive.go:379-478 | an extracted copy is there after every power loss if and only if the way to its root was durable |
| PowerLoss.WayMayVanish | internal/recovery/archive.go:379-404 | a directory on the way that is not durable may take the whole copy along |
| Exchange.StepKeeps | internal/cli/remote_recovery.go:60-126 | every step of either side, of the connection and of anybody else keeps the protocol invariant |
| Exchange.RunKeeps | internal/cli/remote_recovery.go:60-126 | the invariant holds in every state of every run |
| Exchange.RemovedOnlyWhenSecured | internal/agent/agent.go:79-101 | the source is removed only while the client holds a durable, catalogued copy equal to the very tree removed |
| Exchange.RemovedStaysSecured | internal/cli/remote_recovery.go:60-126 | and holds it in every later state, with a record on the medium that describes the removed tree field by field |
| Exchange.OutcomesTrue | internal/cli/remote_recovery.go:91-125 | a nil error means the whole source was removed; "preserved" and "uncertain" mean the secured copy exists |
| Exchange.ReplyTrue | internal/agent/agent.go:98-101 | the agent's answer is sent only when everything is removed, and gives the digest, bytes and items of what was |
| Exchange.FailureKeepsSource | internal/cli/remote_recovery.go:91-103 | a client that fails before or in the acknowledgement: the source was not removed and never will be |
| Exchange.RemovalStands | internal/recovery/archive.go:584-608 | there is one removal at most in a run |
| Exchange.ReturnStands | internal/cli/remote_recovery.go:60-126 | the client's outcome is final |
| Exchange.ForeignLinkNeverRemoved | internal/cli/remote_recovery.go:96-99 | a root link with a foreign mode is never acknowledged and never removed |
| Exchange.SurvivesPowerLoss | internal/cli/remote_recovery.go:60-126 | once the source is removed, the copy under the archive's "local-winner" directory outlives every power loss if and only if the recovery root's own path was durable at the start |
| ExchangeSession.Session.AgentStream | internal/agent/agent.go:79-87 | the agent's streaming is a step of the exchange, whatever the walk meets |
| ExchangeSession.Session.AgentReadAck | internal/agent/agent.go:88-94 | so is waiting for the acknowledgement; a lost or wrong one ends the agent |
| ExchangeSession.Session.AgentVerifyAndRemove | internal/recovery/archive.go:584-608 | so is hashing again and removing; it removes when the object and digest still match and nothing fails |
| ExchangeSession.Session.AgentAnswer | internal/agent/agent.go:98-101 | so is the answer |
| ExchangeSession.Session.ClientExtract | internal/cli/remote_recovery.go:90-94 | so is the client's extraction, which succeeds on every acceptable stream when nothing fails |
| ExchangeSession.Session.ClientRecord | internal/cli/remote_recovery.go:95-99 | so is recording; success means a secured copy |
| ExchangeSession.Session.ClientAcknowledge | internal/cli/remote_recovery.go:100-103 | so is the acknowledgement |
| ExchangeSession.Session.ClientClose | internal/cli/remote_recovery.go:104-107 | so is closing the pipe |
| ExchangeSession.Session.ClientAwait | internal/cli/remote_recovery.go:108-141 | so is reading the answer, its size and the exit status; no error exactly when the agent exited well and the answer names the digest, bytes and items of the copy |
| ExchangeSession.Undisturbed | internal/cli/remote_recovery.go:60-126 | the run nobody disturbs returns no error, the source is wholly removed, the copy is secured, every earlier record is kept, and nothing else on the volume changes or becomes less durable |
| ExchangeSession.MoveBoth | internal/cli/remote_recovery.go:60-126 | two moves into one archive: both sources gone, both copies durable, both listed with records that describe them; the second leaves the first copy and its record as they are |
| ExchangeSession.Transfer | internal/cli/remote_recovery.go:90-94 | stream and extraction leave the source alone and both sides with one summary |
| ExchangeSession.Commit | internal/agent/agent.go:88-101 | acknowledgement, removal and answer end with the source gone and no error |
| Exchange.RecordSurvives | internal/recovery/recovery.go:955-999 | and then the catalog read after the power loss lists a record that gives the removed tree's path, kind, bytes, items, mode and digest |
| Prune.CrashSafeMeans | internal/recovery/recovery.go:677-698 | the invariant says: after any crash or power loss, an archive the catalog lists is whole |
| Prune.ReclaimSafeIff | internal/recovery/recovery.go:616-665 | removing content from a hidden archive is safe if and only if its hiding is durable |
| Prune.RecoveryRoot.RemoveTree | internal/recovery/recovery.go:616-665 | only this tree loses content; safety is lost exactly when its hiding was not durable and it held something |
| Prune.RecoveryRoot.CleanTombstones | internal/recovery/recovery.go:566-594 | tombstones in name order; succeeds exactly when nothing fails, and leaves none; every state is safe if, and on success only if, the first tombstone in the listing was durably hidden or empty |
| Prune.RecoveryRoot.ReclaimFirst | internal/recovery/recovery.go:571-592 | one round of the cleaning: the first tombstone in name order |
| Prune.RecoveryRoot.ReclaimOne | internal/recovery/recovery.go:566-594 | one tombstone: gone and settled on success, no other archive touched |
| Prune.RecoveryRoot.NewTombstone | internal/recovery/recovery.go:547-564 | a chosen hidden name is fresh and carries the archive's name; it gives up only after eight names that were all in use |
| Prune.RecoveryRoot.Hide | internal/recovery/recovery.go:510-528 | a hidden archive's hiding is durable and nothing failed; otherwise the renaming was undone, durably when only one sync failed, or the sync and then the rename back both failed; nothing was reclaimed |
| Prune.RecoveryRoot.SettleHiding | internal/recovery/recovery.go:517-528 | what follows the hiding rename: a sync, or its undoing |
| Prune.RecoveryRoot.Conceal | internal/recovery/recovery.go:510-516 | the hiding rename: the archive is then the only hidden one, and a power loss may list it again |
| Prune.RecoveryRoot.Undo | internal/recovery/recovery.go:517-528 | renames back and then syncs, once each; undoing restores the archive's own name, durably when that sync worked, or the archive stays whole under its hidden one, the latter exactly when the rename back failed |
| Prune.RecoveryRoot.PruneOne | internal/recovery/recovery.go:503-543 | no crash safety is lost, the outcome says where the archive is, and it is the one that belongs to what failed |
| Prune.RecoveryRoot.PruneSelected | internal/recovery/recovery.go:498-545 | the results name a prefix of the selection and are true; the rest is intact; it succeeds exactly when nothing fails, and then all are durably gone |
| Prune.RecoveryRoot.PruneArchives | internal/recovery/recovery.go:452-545 | the whole call: succeeds exactly when nothing fails and the selection is distinct and listed; then no tombstone is left; untouched archives untouched, results true; on success every state was safe if and only if the first tombstone found at the start was not exposed; a hidden archive that may be listed again is there exactly in the unsettled states |
| Prune.RecoveryRoot.Selectable | internal/recovery/recovery.go:459-476 | passes exactly when the selection has no repetition, the catalog still lists it and nothing changed |
| Prune.RecoveryRoot.PruneNext | internal/recovery/recovery.go:499-543 | a cancelled call or a failed look leaves everything as it is; otherwise the attempt at this archive |
| Prune.RecoveryRoot.PruneAt | internal/recovery/recovery.go:499-543 | one round: the archive is durably gone and the loop goes on, or the report is complete and true |
| Prune.Verdict | internal/recovery/recovery.go:498-545 | stopping between two archives: those before are durably gone, those after intact |
| Prune.StopStep | internal/recovery/recovery.go:498-545 | stopping at one archive: the report is true for it, and later cleaning is safe unless it is stuck |
| Prune.PruneAfterCrash | internal/recovery/recovery.go:452-594 | a crash at any point of one call and the next call: the first is safe throughout; the second, if it completes, passes an unsafe state if and only if the first died after the rename that hides a non-empty archive and before a sync that worked or the rename back |
| Prune.Interrupted | internal/recovery/recovery.go:452-545 | which crash points of a call leave an exposed tombstone: exactly the unsettled ones; the call that is cut is a whole prune of the selection, with its true report |
| Prune.EachMoment | internal/recovery/recovery.go:452-545 | the invariants of the log hold of every state the call went through |
| Prune.FirstOfExists | internal/recovery/recovery.go:566-574 | the listing has a first tombstone |
| PruneReport.PruneCommand | internal/cli/recovery.go:150-205 | fails exactly on keep-last below 1 or a byte total past 64 bits; the newest keepLast archives are untouched; every line is true; "complete" exactly when nothing failed and all are still listed, and then all selected are durably gone and no tombstone is left; a dry run changes nothing |
| PruneReport.Execute | internal/cli/recovery.go:180-193 | archives not selected are untouched and each line tells its own archive's fate; complete exactly when nothing failed |
| PruneReport.AllPruned | internal/cli/recovery.go:268-287 | when every archive was pruned, every line and the counter say so |
| PruneReport.NewReport | internal/cli/recovery.go:244-266 | the byte total, failing exactly past the 64-bit range; balanced counters |
| PruneReport.Report.Apply | internal/cli/recovery.go:268-287 | every line gets the status of its own result, and the counters stay balanced |
| PruneReport.Report.Conserved | internal/cli/recovery.go:268-287 | pruned, pending and not-run add up to selected |
| PruneReport.KeptAreOthers | internal/cli/recovery.go:237-242 | the kept archives are not among the selected |
| PruneReport.LinesTrue | internal/cli/recovery.go:268-287 | a true result list makes a true report |
| Broker.StepKeeps | internal/broker/broker.go:207-544 | every step of every handler, of Close and of the providers keeps the table's invariant |
| Broker.RunKeeps | internal/broker/broker.go:207-544 | the invariant holds in every state of every run |
| Broker.AtMostOnce | internal/broker/broker.go:490-544 | each request leaves the table once, its terminal is closed at most once, its wrapper gets at most one final message |
| Broker.FinishDecides | internal/broker/broker.go:490-510 | finishing a published request with a code leaves its terminal to the user exactly when neither the code is 0 with close-on-success nor it is not 0 without hold-on-failure |
| Broker.FinishCloses | internal/broker/broker.go:490-510 | in every later state: on the closing side of that policy the terminal is closed or its handler is about to close it; on the other it is never closed |
| Broker.CancelCloses | internal/broker/broker.go:512-532 | a cancelled published request is closed whatever the policy says |
| Broker.LeftIff | internal/broker/broker.go:490-510 | a terminal counts as left to the user if and only if its request was finished with a code for which the policy leaves it open |
| Broker.PolicyAtReturn | internal/broker/broker.go:207-510 | at Close's return an opened terminal is open if and only if such a finish left it open or another request's fail dropped it |
| Broker.WithinBounds | internal/broker/broker.go:290-394 | at most 8 requests stand and at most 32 connections are served |
| Broker.NoHandlerAfterClosing | internal/broker/broker.go:207-327 | no handler starts once closing is set, none runs once Close has returned |
| Broker.ClosedAtReturn | internal/broker/broker.go:207-284 | at return every request is gone and its terminal closed, unless the policy left it open or another request's fail dropped it |
| Broker.AllClosedIff | internal/broker/broker.go:534-544 | every terminal the policy does not leave open is closed if and only if no fail hits a published request |
| Broker.DropsComeFromFail | internal/broker/broker.go:534-544 | a dropped terminal comes from such a fail and nothing else |
| Broker.DistinctIdsNeverHit | internal/broker/broker.go:387-401 | callers that use each request id once are safe |
| Broker.LeakIsReal | internal/broker/broker.go:395-544 | a reachable state in which a fail hits a published request of another handler |
| Broker.LeakAtReturn | internal/broker/broker.go:207-544 | the failing run carried to its end: Close has returned and the terminal is open |
| BrokerServer.Server.AdmitOpen | internal/broker/broker.go:368-394 | admitted exactly when at most 32 attempts lie in the window, fewer than 8 requests stand and the id is free; the clock only runs forward |
| BrokerServer.PublishStep | internal/broker/broker.go:435-442 | comparing the pointer in the table with one's own request decides exactly whether the request still stands; the handle is stored only then |
| BrokerServer.NoneEndsStanding | internal/broker/broker.go:435-442 | no handler is ending a request that still stands, so a stored handle changes nobody's decision |
| BrokerServer.TakeStep | internal/broker/broker.go:490-544 | the section finish, cancel and fail share takes out whatever stands under the id, and is the step of each |
| BrokerServer.EndStep | internal/broker/broker.go:497-543 | the handle is read after the mutex was released, and still decides what the state inside it would have decided |
| BrokerServer.Server.SendEnd | internal/broker/broker.go:497-543 | what one handler closes after taking a request out: exactly the stored handle, by exit code and configuration for finish, always for cancel, never for fail |
| BrokerServer.PaneSettled | internal/broker/broker.go:464-532 | what a pane's end has done to the terminal in every later state, by exit code and configuration |
| BrokerServer.Server.BeginClosing | internal/broker/broker.go:214-225 | Close collects exactly the requests that stand, each once, and empties the table |
| BrokerServer.Server.Yield | internal/broker/broker.go:290-544 | whatever sections of other goroutines run, in any order and number, the program stays in a state the broker can reach, and one's own stack is untouched |
| BrokerServer.Server.HandleWrapper | internal/broker/broker.go:368-462 | the whole handler, others running wherever the mutex is free: it ends, and none of its requests is left in the table |
| BrokerServer.Server.HandlePane | internal/broker/broker.go:464-488 | the whole pane handler, others running meanwhile: it waits exactly when the id is in the table, then takes out the request it finds there, whose terminal is closed exactly when the code is 0 and close-on-success is set, or is not 0 and hold-on-failure is not, or the pane went without a code |
| BrokerServer.Server.PaneGoes | internal/broker/broker.go:473-532 | the end of a pane: which request is taken out and what happens to its terminal |
| BrokerServer.Server.Serve | internal/broker/broker.go:290-366 | a connection from its acceptance to the release of its slot; a refused one holds nothing |
| BrokerServer.Server.Close | internal/broker/broker.go:207-246 | the whole of Close, others running meanwhile; when it returns no connection and no request is left, and every terminal not left to the user was closed if and only if no fail hit a published request |
| BrokerServer.TraceAccounts | internal/broker/broker.go:207-544 | in every state of the program: a terminal is opened once for a request, closed at most once and only after it was opened, a wrapper hears of the end at most once, and the limits hold |
| BrokerServer.TraceReturned | internal/broker/broker.go:207-284 | what Close's return means for the terminals actually opened and closed |
| BrokerServer.DoneStandsNowhere | internal/broker/broker.go:368-462 | a handler that is done has no request in the table |
| BrokerServer.Collect | internal/broker/broker.go:216-219 | the values of the table, each once |
| RateLimit.RateWindow.Check | internal/broker/broker.go:368-381 | with non-decreasing clocks an attempt passes exactly when at most 32 of all attempts ever, itself included, lie in its closed window, though old ones are dropped |
| RateLimit.FirstCurrent | internal/broker/broker.go:372-375 | the first recorded time that is not before the cutoff |
| RateLimit.Decides | internal/broker/broker.go:376-381 | the length of the trimmed list decides the same as counting all attempts |
| RateLimit.RateBound | internal/broker/broker.go:368-381 | at most 32 open requests pass in any closed minute |
| HostLifecycle.StepKeeps | internal/cli/host_remove.go:84-134 | every step of every process, its death included, keeps the invariant |
| HostLifecycle.RunKeeps | internal/cli/host_remove.go:84-134 | the invariant holds in every state of every run |
| HostLifecycle.LiveSessionConfigured | internal/cli/root.go:323-338 | a live published session names a configured host, even with --force |
| HostLifecycle.BindingsConfigured | internal/cli/root.go:1088-1138 | while no removal was forced, every project that selects a host selects a configured one |
| HostLifecycle.DefaultConfigured | internal/cli/root.go:1071-1086 | the default host is a configured one |
| HostLifecycle.NoLostUpdate | internal/cli/global_config.go:14-44 | what a locked update saves is computed from the configuration it replaces: which host is added, replaced, chosen or changed, and which becomes the default, written out |
| HostLifecycle.Exclusive | internal/workspace/workspace.go:445-482 | two processes never hold the same host lock, global lock or lease |
| HostLifecycle.RemovedKeeps | internal/cli/host_remove.go:84-134 | a removal that passes the guard leaves no live session and, unless forced, no binding on the host |
| HostLifecycle.RemovalEnabled | internal/cli/host_remove.go:209-301 | a finished inspection may save exactly when the host is configured, no live session was counted, and it is forced or the host is not the default, nothing binds to it and nothing retained blocks it |
| HostLifecycle.RemovalSound | internal/cli/host_remove.go:84-134 | in every run an unforced removal is of a host that is not the default, that no project binds to and nothing retained blocks; none, forced or not, has a live session on it; it takes that host away and nothing else |
| HostLifecycle.PublishedKeeps | internal/cli/root.go:492-513 | a session is published only under its lease and on a host that is still configured |
| HostLifecycle.BindKeeps | internal/cli/root.go:1116-1132 | a binding is stored only on a host that is still configured |
| HostLifecycle.ReadKeeps | internal/cli/host_remove.go:140-233 | what an inspection has read one by one stays true until it decides |
| HostLifecycle.SharedChanges | internal/cli/root.go:1088-1138 | in every run, who changes a binding, a workspace state, a session record or a lease, and to what; a record is published only under its own lease and for a workspace whose state is saved |
| HostLifecycle.StartSeesCurrent | internal/cli/root.go:323-338 | a session goes on to start exactly when its host is still configured as it was seen |
| HostLifecycle.SessionCounts | internal/cli/host_remove.go:175-200 | a session record counts against a removal exactly when its lease is held and it is on the host or on no workspace that was read |
| HostRemoval.ReadActiveSessions | internal/cli/host_remove.go:235-276 | fails exactly on an entry that is no readable record and on a session that holds its lease without a living owner or a valid workspace; otherwise the workspaces with a live session |
| HostRemoval.OwnStates | internal/cli/host_remove.go:192-207 | whether a workspace of this host has a live session, and whether one retains anything |
| HostRemoval.Inspect | internal/cli/host_remove.go:140-233 | fails exactly on an unknown host, a list that cannot be read or a session that spoils the inventory; live exactly when an active session is the host's or nobody's; referenced exactly when anything else refers to it |
| HostRemoval.Decide | internal/cli/host_remove.go:84-134 | the guard on a finished inspection's report: refused exactly for a live session, or unforced for anything that refers to the host |
| HostRemoval.StepDecides | internal/cli/host_remove.go:290-301 | the protocol's step is enabled exactly when the guard on that report lets it through |
| HostRemoval.IdExact | internal/cli/host_remove.go:278-288 | a workspace id has sixteen characters, all hexadecimal digits in lower case |
| Marker.ParseAll | internal/shell/marker.go:23-62 | for a nonce without ESC and every cut: the prompts are exactly the markers of the stream in order with their status, the data exactly the bytes outside them in order |
| StatusText.ParsePrinted | internal/shell/marker.go:23-62 | for a stream of text and printed statuses, cut anywhere: the prompts are those integers in order, the data the text in order |
| StatusText.AtoiExact | internal/shell/marker.go:41-54 | a status text reads as n if and only if it is an optional sign and digits whose sum of powers of ten is n, within 64 bits |
| StatusText.AtoiPrints | internal/shell/marker.go:41-54 | every 64-bit integer printed in decimal reads as itself, also with a plus sign |
| StatusText.PrefixText | internal/shell/marker.go:19-21 | the marker's prefix, character by character |
| Marker.MarkerParser.Feed | internal/shell/marker.go:23-56 | what was emitted and what waits is the ideal reading of everything fed so far; no piece of data is empty and none follows another |
| Marker.MarkerParser.TakeMarker | internal/shell/marker.go:41-54 | one round takes a marker, gives up one byte, or waits, and never changes the reading |
| Marker.MarkerParser.EmitPlain | internal/shell/marker.go:77-87 | adjacent data is joined without changing the stream |
| Marker.SuffixPrefix | internal/shell/marker.go:64-75 | the longest end that is a proper beginning of the prefix |
| Marker.Index | internal/shell/marker.go:27-28 | the first occurrence, or there is none |
| Marker.WaitingIsPlain | internal/shell/marker.go:58-62 | what is kept back holds no marker, so flushing it is right |
| Marker.NoneInside | internal/shell/marker.go:23-56 | no marker begins inside another |
| Marker.MarksApart | internal/shell/marker.go:23-56 | the markers of a stream never overlap, so no earlier output can hide one |
| Marker.IdealIsExact | internal/shell/marker.go:23-56 | the reading from the left gives exactly the occurrences and exactly the bytes they leave uncovered |
| NoticeFilter.FilterAll | internal/shell/proxy.go:162-193 | for every cut, the output is the stream without each leftmost notice and the line ends right after it |
| NoticeFilter.FirstNotice | internal/shell/proxy.go:162-187 | the leftmost notice goes with all the carriage returns and line feeds right after it, and the rest is filtered like a stream of its own |
| NoticeFilter.NoNotice | internal/shell/proxy.go:162-187 | text in which no notice begins is left as it is |
| NoticeFilter.NoticeFilter.Write | internal/shell/proxy.go:162-187 | output and pending bytes together stand for all bytes so far; the pending ones are the longest end that begins the notice |
| NoticeFilter.NoticeFilter.Shift | internal/shell/proxy.go:162-187 | gives up bytes until the rest begins the notice, and no more |
| NoticeFilter.LongestFound | internal/shell/proxy.go:162-187 | what the shift keeps is the longest such end |
| NoticeFilter.KeptIsPlain | internal/shell/proxy.go:189-193 | the bytes flushed at the end hold no notice |
| InputGate.PasteTracker.Feed | internal/shell/proxy.go:293-312 | for every cut a newline counts as pasted exactly when the last delimiter before it began a paste |
| InputGate.ActiveIsInPaste | internal/shell/proxy.go:293-312 | the incremental state equals that reading of the whole history |
| InputGate.InPasteExact | internal/shell/proxy.go:293-312 | one is inside a paste if and only if a begin sequence, ESC [ 2 0 0 ~, has come after which no end sequence, ESC [ 2 0 1 ~, has |
| InputGate.SubmitExact | internal/shell/proxy.go:344-348 | which typed byte submits: a carriage return or line feed with no such sequence open, byte values written out |
| InputGate.InputController.Input | internal/shell/proxy.go:332-378 | queued while a barrier runs, passed on whole while a command runs, at a prompt up to the first newline outside a paste; no typed byte is lost or doubled |
| InputGate.InputController.TypeAtPrompt | internal/shell/proxy.go:344-377 | the bytes before the first newline outside a paste are written, that newline waits for its own barrier, the bytes after it are queued; without one everything is written |
| InputGate.InputController.BarrierEnded | internal/shell/proxy.go:357-371 | the newline is written after its own successful barrier, or is the one byte dropped by a failed one |
| InputGate.InputController.Prompt | internal/shell/proxy.go:388-398 | the queue is taken whole and given to Input |
| InputGate.InputController.BeginPrompt | internal/shell/proxy.go:380-386 | between the prompt's start and its end nothing is at a prompt |
| InputGate.Interleave | internal/shell/proxy.go:332-398 | in every interleaving both hold: newlines only after their barrier, every byte conserved |
| BoundedWriter.BoundedWriter.Write | internal/subprocess/subprocess.go:143-174 | the writer stands for the whole stream so far, and always accepts all of a chunk |
| BoundedWriter.BoundedWriter.Snapshot | internal/subprocess/subprocess.go:176-197 | exactly the first or the last bytes up to the limit; truncated exactly beyond it |
| BoundedWriter.BoundedWriter.Ring | internal/subprocess/subprocess.go:158-174 | the ring loop ends, for every limit, with the last bytes in place |
| BoundedWriter.OverwriteShifts | internal/subprocess/subprocess.go:168-172 | overwriting at the write position drops exactly the oldest bytes |
| BoundedWriter.RingStep | internal/subprocess/subprocess.go:168-172 | one round of the loop keeps the last bytes of the stream |
| SyncEngine.Driver.Prepare | internal/syncer/syncer.go:211-232 | success only when the last calls were a resume, a flush and a healthy status of the stored session whose fingerprint matches; a matching session takes the hot path of resume, flush and status and nothing else unless it is missing; everything else begins with the version gate and the daemon's start; every failure has its reason in the engine's last answer |
| SyncEngine.Driver.TryStored | internal/syncer/syncer.go:212-225 | the hot path of a matching session; it is given up only as missing, within three answers |
| SyncEngine.Driver.Ensure | internal/syncer/syncer.go:248-323 | success leaves a stored session with the wanted fingerprint, which the last answer confirmed or which was created last; failure the answer that caused it; terminate only right after a healthy barrier on it, the identifier cleared only after a terminate or a missing-session answer |
| SyncEngine.Driver.Start | internal/syncer/syncer.go:234-261 | the version, then the daemon's start, then probes and nothing else, each asked only when the one in front was answered |
| SyncEngine.AnswersRead | internal/syncer/syncer.go:325-352 | which texts mean a missing session, in whatever case, and which answers the probe |
| SyncEngine.Driver.ReplaceChanged | internal/syncer/syncer.go:263-278 | a session of another shape is resumed first; when that fails it is forgotten exactly if it is missing; otherwise it is forgotten, or kept with its fingerprint on failure |
| SyncEngine.Driver.CreateSession | internal/syncer/syncer.go:292-323 | the commands asked are exactly create and, when it printed no identifier, the lookup; success stores the printed identifier or else the listed one with the fingerprint |
| SyncEngine.Driver.Barrier | internal/syncer/syncer.go:369-399 | flush, then status if it went through; the outcome is the one those answers mean |
| SyncEngine.Driver.Forget | internal/syncer/syncer.go:263-291 | forgetting requires that the session is gone, and records it |
| SyncEngine.Driver.WaitReady | internal/syncer/syncer.go:337-352 | fifty probes unless cancelled, all but the last unanswered; ready exactly when the last one was answered, also by a text that no session matched |
| SyncEngine.Driver.CheckStored | internal/syncer/syncer.go:279-291 | a stored session is kept when the engine knows it, also unhealthy, forgotten exactly when its status says it is missing, and any other answer is a failure |
| SyncEngine.ProgramNotFoundCountsAsMissing | internal/syncer/syncer.go:325-335 | an error that says nothing about a session is read as a missing one: the engine's program was not found |
| Health.InspectHealth | internal/syncer/syncer.go:432-442 | healthy exactly when no field at any depth is troubled or paused, and exactly then no problem is told: independent of map order; a paused session is told last |
| Health.WalkHealth | internal/syncer/syncer.go:444-482 | reports a problem exactly when some field is troubled, and never an empty one |
| Health.VisitField | internal/syncer/syncer.go:450-476 | one field's part of that |
| Health.FieldExact | internal/syncer/syncer.go:444-504 | which fields report a problem: a status that mentions one of three words in any case, a connected that is false, a suspect key whose value is not empty, zero, false or blank |
| Health.ContainsExact | internal/syncer/syncer.go:456-459 | searching the lower-case text finds a word exactly when the text has it in some case |
| Health.SqueezedExact | internal/syncer/syncer.go:518-521 | normalizing a key drops underscores, hyphens and blanks and nothing else |
| Health.UniqueStrings | internal/syncer/syncer.go:523-534 | trimmed, no blanks, no repetition, nothing lost |
| Health.SpaceExact | internal/syncer/syncer.go:523-534 | which characters are trimmed: the code points Unicode gives as white space |
| Health.ConflictWalk | internal/syncer/syncer.go:540-569 | finds a path exactly when one is named under a conflict |
| Health.ConflictsAreUnhealthy | internal/syncer/syncer.go:432-569 | a session with any conflict path at any depth is reported unhealthy |
| Catalog.ResolveRecipe | internal/bootstrap/catalog.go:145-209 | for every accepted catalog: ends; succeeds exactly when nothing disabled is mandatory or needed, with the listed part of the least closed set, in catalog order |
| Catalog.ResultExact | internal/bootstrap/catalog.go:145-209 | the result is exactly the listed components that a chain of dependencies reaches from something asked for and not disabled, each once, in the fixed order |
| Catalog.ResolvableExact | internal/bootstrap/catalog.go:145-193 | refused exactly for an unknown name, a mandatory component among the disabled ones, or a chain that ends at a disabled one |
| Catalog.NeededExact | internal/bootstrap/catalog.go:174-193 | a component is in every closed selection if and only if such a chain ends at it |
| Catalog.ResultHolds | internal/bootstrap/catalog.go:194-201 | the result is exactly what the least closed set lists; in a well-formed catalog everything asked for is there |
| Catalog.Close | internal/bootstrap/catalog.go:174-193 | repeated passes reach the least closed set, or find a disabled component that is needed |
| Catalog.Pass | internal/bootstrap/catalog.go:174-193 | one pass adds only needed components; one that adds nothing proves closure |
| Catalog.AddDependencies | internal/bootstrap/catalog.go:178-192 | one component's dependencies are added, or one of them is disabled |
| Catalog.ValidateCatalog | internal/bootstrap/catalog.go:242-264 | the loop decides the check, early exits included |
| Catalog.CheckExact | internal/bootstrap/catalog.go:242-264 | every well-formed catalog is accepted; an accepted one is well-formed if and only if an empty name, when listed, is a component |
| Catalog.EmptyNameAccepted | internal/bootstrap/catalog.go:242-264 | a concrete accepted catalog that lists none of its components |
| Catalog.ClosureUnique | internal/bootstrap/catalog.go:145-209 | the closure is unique, so pass order and map order do not matter |
| Catalog.Idempotent | internal/bootstrap/catalog.go:145-209 | resolving a result again succeeds and changes nothing |

## Left out

- Tar, JSON and TOML byte layouts: streams are sequences of headers and contents with a trailer, a manifest goes through an abstract codec, which decodes what it encoded where a record is read back, and SHA-256 is an injective digest.
- File permissions do not gate creation or removal, so an extraction that fails because a made directory's own mode denies its owner writing or searching is not told apart from a fault; the mode a process umask leaves is arbitrary until it is set.
- The internals of rooted file access and the device checks: crossing a boundary is one of the faults that may happen at any call.
- Special files: they appear as one kind that every operation refuses.
- int64 totals: the byte and item counters of streams, `describe` and the ring writer are unbounded; only the prune report's sum models the 64-bit limit.
- Legacy archives without a manifest, `Restore` after its copy, `Verify` as a command and the aggregation in `ListArchives`.
- Contexts and timeouts: they are steps that may fail at any point; only the broker's rate window has a clock.
- ExchangeSession.Session.ClientAcknowledge: the acknowledgement arrives whole or its write fails, because a control frame is one small write.
- ExchangeSession.Session.AgentVerifyAndRemove: the second hash and the removal are one step, because the code holds no lock between them; a change in that moment is not modelled.
- ExchangeSession.Session.ClientRecord: while the exchange runs nobody else writes to the client's volume, which its workspace lock is for.
- The mode of a fresh symbolic link is one constant of the receiving machine.
- Prune.RecoveryRoot.RemoveTree: the order in which a tree's content is removed is arbitrary.
- Prune.RecoveryRoot.NewTombstone: the text form of hidden names; a name carries its archive and a number.
- The broker's message bytes, tokens, provider selection and pane placement; a handle that was opened has a non-empty id.
- HostLifecycle.ReadKeeps: an inspector that probes a dead session's lease may make it look alive to another inspector; that only makes a removal refuse.
- HostRemoval.Inspect: how a stored list or record is parsed; that it cannot be read is one of its inputs, and ends it.
- InputGate.InputController.Input: byte order is not promised, because queued bytes wait for the next prompt while later ones go straight to a running command; conservation is.
- Write errors of the terminal outputs behind the filters.
- `echoPredictor` and `atomicCreate`: smaller relatives of the filter and of `AtomicWrite`.
- Health.InspectHealth: the wording and order of the reported problems depend on map order and are not modelled beyond being non-empty.
- Catalog.Idempotent: the components every recipe gets are taken to be flagged mandatory, as the fixed table has it.
- AtomicFile.NearestExistingDirectory: a symbolic link to a directory counts as an obstacle, because the volume does not follow links.
- Health.LowerChar: the letters whose lower case is outside ASCII keep their form; no word the walk looks for contains one.
- Recipe names, package lists and the 32-component limit of a recipe file.
- Transport, containers, multiplexers, the bootstrap wizard and every report's rendering.
