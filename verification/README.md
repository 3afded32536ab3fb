# Tutti storage stack: verified model

Tutti keeps named files on NVMe devices. This project models the parts of it where order, failure
and concurrency matter, and proves what they promise.

**The file directory** (`nvme_storage/`). Each device has a log of files and one `<name>.bin` host
file per entry. The two are changed in separate steps, persisting may be deferred, and a crash is
repaired at the next start by a reconcile pass.
`Wrappers.dfy` holds small helpers, `FileLog.dfy` the in-memory log, `LogCodec.dfy` its byte format,
`Directory.dfy` the state machine of disk, memory and the operation in progress, `DirectoryRuns.dfy`
the theorems about every run, `PendingWork.dfy` what a flush owes, and `Storage.dfy` the storage
object. The object's methods record the disk effect of each statement in a ghost run and are proved
to follow the state machine, so the theorems are about them, with a crash possible between any two
effects.

**The NVMe host driver** (`backends/local/kernel_modules/snvme-5.10-npu/`). `Controller.dfy` is the
controller life cycle with error recovery, reset, reconnect and deletion; `RdmaRequest.dfy` the
two-reference completion of a request; `CommandId.dfy` the generation bits of command ids;
`NamespaceScan.dfy` the namespace scan; `Multipath.dfy` the access-state merge and path selection;
`QueueSplit.dfy` the split of I/O queues; `IntrusiveList.dfy` the linked list and the purge of a
dead task's maps.

**The older slot table** (`filesystems/ext4/libgeminifs/`). `SlotManager.dfy`: a bitmap of slots
written out every so many changes, its reload, and lookup by name.

Answers from outside (system calls, the device, the target, the clock) are parameters or events, so
every theorem covers all of them.

## Where the code falls short of its promise

Each of these is kept as the code has it, shown on a concrete run or input where that helps, and
given the exact condition under which the promise holds.

- Reconcile matches by name only. A name re-created while the image still holds an older entry can
  be recovered with the old id, size and extents (`RecreationMismatch`, `FaithfulIffNoRecreate`).
- A delete whose persist fails leaves the dirty flag clear, so a later flush reports success without
  writing (`FailedDeleteUnnoticed`, `CleanFlagIffSame`). A failed reconcile persist does the same.
- A set-up that fails the in-capsule offset or keyed SGL check returns 0, and the controller stays
  connecting for good (`StrandedIffUnsupported`, `StrandedForever`, `StrandedRun`).
- The reconnect counter is cleared only after the move to live, so an error that arrives in between
  can delete the controller although no attempt has failed (`GivesUpEarlyIff`, `DeletedAfterSuccess`).
- A response that invalidates the wrong key starts recovery and still ends the request, so its
  region is pooled with a valid key (`LeakedIffBogus`).
- The queue counts are not cleared before a reconnect, so they may exceed the queues granted
  (`SplitCoversIff`, `StalePollCount`).
- Lookup by name trusts any string that parses to a used slot (`AutoNamesExact`, `LeadingZero`).
- A new slot record waits in the C library's buffer until the next seek or flush. If its slot was
  just freed and is still marked on disk, a crash brings the deleted file back in place of the new
  one, although no bit differs (`BitsDecideIff`, `DeletedFileReturns`).

The header of `nvme_storage.h` says a bulk-created file is not on the platter before a flush; the
code fsyncs it while reading its extents (`nvme_storage/src/fiemap_helper.cpp`), and the model
follows the code. The header of `persistent_file_log.h` says entries keep insertion order; removal
by swap-and-pop does not, and the model follows the code.

## Assumptions

- File names have no NUL and no `/`, and are not `file_log`, whose bin would be the log itself.
- Rename is atomic, a bin that was fsynced survives a crash, and an unlink is durable at once.
- One operation at a time holds the storage object, as its mutex ensures.
- In the driver each callback is atomic, and so is each work item, except that a set-up is split into its
  start and its end so that other events fall between.

## Model

| member | source | states |
|---|---|---|
| `FileLog.PersistentFileLog.constructor` | nvme_storage/src/persistent_file_log.cpp:80-86 | an empty log: index and vector in bijection, first id 1 |
| `FileLog.PersistentFileLog.FindByName` | nvme_storage/src/persistent_file_log.cpp:159-164 | the indexed lookup returns what a linear scan of the vector returns, and what the finite map the log stands for returns |
| `FileLog.PersistentFileLog.NextFileId` | nvme_storage/src/persistent_file_log.cpp:166-168 | the id returned is carried by no entry, and the counter moves past it |
| `FileLog.PersistentFileLog.Add` | nvme_storage/src/persistent_file_log.cpp:170-183 | succeeds exactly for a new name shorter than 128 bytes; then one entry is appended, the counter exceeds its id, and the bijection of index and vector is kept |
| `FileLog.PersistentFileLog.Remove` | nvme_storage/src/persistent_file_log.cpp:185-207 | found exactly when some entry has the id; the vector becomes its swap-and-pop image; bijection, distinct names, distinct ids and the id bound are kept |
| `FileLog.PersistentFileLog.PopAt` | nvme_storage/src/persistent_file_log.cpp:196-203 | the swap-and-pop itself, in place, keeps the bijection of index and vector |
| `FileLog.PersistentFileLog.Load` | nvme_storage/src/persistent_file_log.cpp:88-157 | rebuilds vector, index and counter from a file exactly when the byte format decodes, and reports the decoder's error otherwise |
| `FileLog.PersistentFileLog.Image` | nvme_storage/src/persistent_file_log.cpp:213-255 | the bytes written are the encoding of vector and counter |
| `FileLog.RemoveIdIsFilter` | nvme_storage/src/persistent_file_log.cpp:185-207 | swap-and-pop by id removes exactly the entry of that id, whatever its position |
| `FileLog.DoRefines` | nvme_storage/src/persistent_file_log.cpp:159-207 | one creation or removal on the vector is the same operation on the finite map, and keeps names and ids distinct and below the counter |
| `FileLog.LogRefinesMap` | nvme_storage/src/persistent_file_log.cpp:159-207 | every sequence of creations and removals on the vector leaves exactly the finite map that the same sequence leaves on a map with no order |
| `LogCodec.RoundTrip` | nvme_storage/src/persistent_file_log.cpp:88-157 | loading the persisted bytes gives back the same entries and next id if and only if every count, id, size, extent and name fits its field |
| `LogCodec.PrefixRejected` | nvme_storage/src/persistent_file_log.cpp:88-157 | every strict prefix of a persisted image is rejected |
| `LogCodec.NameRoundTrip` | nvme_storage/src/persistent_file_log.cpp:241-243 | a name survives its 128-byte field if and only if it is shorter than 128 bytes and has no NUL |
| `LogCodec.EntryRoundTrip` | nvme_storage/src/persistent_file_log.cpp:236-254 | one record reads back as itself, and leaves the reader at the next record, if and only if its fields fit |
| `LogCodec.LittleEndian` | nvme_storage/src/persistent_file_log.cpp:22-36 | every integer field holds its least significant byte first |
| `LogCodec.HeaderLayout` | nvme_storage/src/persistent_file_log.cpp:24-30 | the first twelve bytes are "TUTITLOG" and version 1, then count, next id and zeros, at their offsets |
| `LogCodec.RecordLayout` | nvme_storage/src/persistent_file_log.cpp:31-38 | the 152 bytes of a record, byte by byte: id, size, number of extents, zeros, name and its NUL |
| `LogCodec.ExtentLayout` | nvme_storage/src/persistent_file_log.cpp:236-254 | the 16 bytes of each extent, byte by byte |
| `LogCodec.ImageLayout` | nvme_storage/src/persistent_file_log.cpp:226-255 | record and extents of every entry lie where the lengths before it put them, without gaps, in vector order |
| `LogCodec.HeaderErrors` | nvme_storage/src/persistent_file_log.cpp:102-122 | a file is refused as short, for its magic or for its version exactly by its length and its first twelve bytes |
| `LogCodec.LoadedHeader` | nvme_storage/src/persistent_file_log.cpp:124-127 | a file that loads gives as many entries as it says and its next id, or 1 for a stored 0 |
| `LogCodec.Write` | nvme_storage/src/persistent_file_log.cpp:226-255 | the writing loop produces the image, which starts with the literal magic and version bytes |
| `LogCodec.Read` | nvme_storage/src/persistent_file_log.cpp:102-156 | the reading loop accepts and rejects exactly as the format says, with the same error; no header error exactly when the twelve literal bytes are there |
| `Directory.GoodStep` | nvme_storage/src/host_fs_backed_nvme_storage.cpp:509-857 | every step of every operation, every failure and every crash keeps the directory invariant: well-formed log and image, image counter not ahead of memory, every open file equal to the log entry of its id |
| `DirectoryRuns.RunGood` | nvme_storage/src/host_fs_backed_nvme_storage.cpp:509-857 | the directory invariant holds in every state of every run with crashes between any two disk effects |
| `DirectoryRuns.CreatedSurvives` | nvme_storage/src/host_fs_backed_nvme_storage.cpp:632-675 | a file whose create with immediate persist succeeded and that was never unlinked is in the image with its own bin in every later state, whatever crashed in between |
| `DirectoryRuns.ReconcileRestartable` | nvme_storage/src/host_fs_backed_nvme_storage.cpp:249-334 | after any number of interrupted or failing attempts, in any iteration order, a completed reconcile leaves exactly the names in both the last renamed image and the directory, with the same bins and entries as one uninterrupted run |
| `DirectoryRuns.ReconcileIdempotent` | nvme_storage/src/host_fs_backed_nvme_storage.cpp:249-334 | on a recovered disk the next reconcile finds no tombstone and no ghost and changes nothing |
| `DirectoryRuns.FaithfulIffNoRecreate` | nvme_storage/src/host_fs_backed_nvme_storage.cpp:280-315 | at every point where a crash can fall, the entries recovery would keep describe the bins under their names, if and only if no name was re-created while the image still held an older entry for it |
| `DirectoryRuns.RecoveredEntriesMatchBins` | nvme_storage/src/host_fs_backed_nvme_storage.cpp:280-315 | without such a re-creation, every recovered entry has the id, size and extents of the bin under its name |
| `DirectoryRuns.RecreationMismatch` | nvme_storage/src/host_fs_backed_nvme_storage.cpp:823-857 | a run with a deferred delete, a re-creation and a crash after which a fully successful reconcile keeps the old entry for the new bin |
| `DirectoryRuns.ImageIdsGrow` | nvme_storage/src/persistent_file_log.cpp:226-230 | the next id in the image never decreases over a run |
| `DirectoryRuns.IdNeverReissued` | nvme_storage/src/persistent_file_log.cpp:166-183 | an id that ever appeared in a renamed image is smaller than every id issued later, across any number of crashes |
| `DirectoryRuns.CleanFlagIffSame` | nvme_storage/src/host_fs_backed_nvme_storage.cpp:645-660 | with the dirty flag clear the image holds exactly the entries in memory, if and only if no delete or reconcile persist has failed since the last persist that succeeded |
| `DirectoryRuns.FlushLosesNothing` | nvme_storage/src/host_fs_backed_nvme_storage.cpp:696-750 | after a flush that returned true, and no such failure, the image holds exactly the entries in memory |
| `PendingWork.FlagsSayWhatIsOwed` | nvme_storage/src/host_fs_backed_nvme_storage.cpp:556-569 | in every reachable state the two dirty flags are set exactly when the calls so far say so: a create got past its allocation without a sync, or a create or delete changed the log without a persist, and no successful flush or restart has come since |
| `PendingWork.FlushReturnsIff` | nvme_storage/src/host_fs_backed_nvme_storage.cpp:696-750 | a flush returns true exactly when it could do everything those calls had put off |
| `DirectoryRuns.FailedDeleteUnnoticed` | nvme_storage/src/host_fs_backed_nvme_storage.cpp:845-856 | a run in which a delete's persist fails, the flag stays clear, and a flush returns true without writing the deletion |
| `DirectoryRuns.ImageReadsBack` | nvme_storage/src/persistent_file_log.cpp:88-157 | in every reachable state the bytes of the log file decode to the image the state machine speaks of |
| `Storage.HostFsStorage.constructor` | nvme_storage/include/host_fs_backed_nvme_storage.h:113-139 | a device not booted yet that has no log, whatever bins its disk holds |
| `Storage.HostFsStorage.Over` | nvme_storage/include/host_fs_backed_nvme_storage.h:113-139 | a new process over the bins and the log bytes that any earlier run left, crashed or shut down |
| `Storage.HostFsStorage.Crash` | nvme_storage/src/host_fs_backed_nvme_storage.cpp:229-248 | from any point of any operation, bins, log bytes and image stay and only memory is lost; the storage can be booted again |
| `Storage.HostFsStorage.CreateFile` | nvme_storage/src/host_fs_backed_nvme_storage.cpp:509-675 | succeeds exactly when the name is new and fits and the host refuses nothing; a success adds one entry under a fresh id that describes the bin just written and marks what was left unsynced or unpersisted, a failure leaves directory, open files, image and every other bin as they were; both follow the state machine effect by effect |
| `Storage.HostFsStorage.CommitCreate` | nvme_storage/src/host_fs_backed_nvme_storage.cpp:581-675 | the same from the header on, for a file already opened and allocated |
| `Storage.HostFsStorage.WriteHeader` | nvme_storage/src/host_fs_backed_nvme_storage.cpp:556-660 | reserves the id before the header is written, adds the entry or fails on a name that is too long, and sets the dirty flags for what was not asked to be synced or persisted |
| `Storage.HostFsStorage.PersistCreated` | nvme_storage/src/host_fs_backed_nvme_storage.cpp:645-672 | persists the new entry, or takes exactly it out again |
| `Storage.HostFsStorage.OpenForCreate` | nvme_storage/src/host_fs_backed_nvme_storage.cpp:534-579 | opens an existing bin without emptying it, and undoes a refused allocation |
| `Storage.HostFsStorage.DeleteFile` | nvme_storage/src/host_fs_backed_nvme_storage.cpp:823-857 | unlink first, then log, then persist; returns true exactly when every effect asked for succeeded; a refused unlink only closes the descriptor, a delete without a persist sets the flag |
| `Storage.HostFsStorage.FlushMetadata` | nvme_storage/src/host_fs_backed_nvme_storage.cpp:696-750 | returns true exactly when it could do everything the earlier calls had put off, clears only the flags of what succeeded, and replaces the image only when it was owed |
| `Storage.HostFsStorage.OpenFile` | nvme_storage/src/host_fs_backed_nvme_storage.cpp:752-802 | returns a file exactly when the log knows the name and the file is open already or the host opens its bin; the file is a copy of the log entry, and a failure changes nothing |
| `Storage.HostFsStorage.CloseFile` | nvme_storage/src/host_fs_backed_nvme_storage.cpp:804-821 | closes the descriptor and persists the log; true only if the image now holds the entries in memory |
| `Storage.HostFsStorage.Shutdown` | nvme_storage/src/host_fs_backed_nvme_storage.cpp:449-481 | persists once more and loses only memory; true exactly when both the persist and the unmount succeeded |
| `Storage.HostFsStorage.Persist` | nvme_storage/src/persistent_file_log.cpp:209-274 | replaces image and bytes together or leaves both |
| `Storage.HostFsStorage.DropTombstones` | nvme_storage/src/host_fs_backed_nvme_storage.cpp:280-299 | removes exactly the entries without a bin, in any order of the name table, and counts them |
| `Storage.HostFsStorage.UnlinkGhosts` | nvme_storage/src/host_fs_backed_nvme_storage.cpp:301-315 | unlinks exactly the bins without an entry that the host lets go, in any order |
| `Storage.HostFsStorage.Reconcile` | nvme_storage/src/host_fs_backed_nvme_storage.cpp:249-334 | leaves in memory the entries whose bin is present, and on disk the bins that have an entry or refused to go; the image follows if its persist succeeds |
| `Storage.HostFsStorage.Bootstrap` | nvme_storage/src/host_fs_backed_nvme_storage.cpp:411-434 | fails exactly when an existing log cannot be read or a fresh device cannot write its first one, and then changes nothing on disk; otherwise reads the bytes back and reconciles, or keeps the log as read when the directory cannot be listed; starts with no open file and nothing owed, and the image follows a reconcile that could persist |
| `Storage.CrashAnywhere` | nvme_storage/src/host_fs_backed_nvme_storage.cpp:229-248 | a run recorded by these methods can be cut by a crash after any of its disk effects and is a run again |
| `Controller.RdmaController.ChangeState` | backends/local/kernel_modules/snvme-5.10-npu/core.c:459-565 | the switch lets through exactly thirteen transitions, listed as literal pairs |
| `Controller.RdmaController.ErrorRecovery` | backends/local/kernel_modules/snvme-5.10-npu/rdma.c:1208-1215 | error recovery is queued exactly when the state moved to resetting |
| `Controller.RdmaController.ResetCtrl` | backends/local/kernel_modules/snvme-5.10-npu/core.c:204-211 | a reset is queued exactly when the state moved to resetting |
| `Controller.RdmaController.FirmwareActivationNotice` | backends/local/kernel_modules/snvme-5.10-npu/core.c:4532-4540 | firmware work is queued exactly when the state moved to resetting |
| `Controller.RdmaController.DeleteCtrl` | backends/local/kernel_modules/snvme-5.10-npu/core.c:249-256 | deletion is queued exactly when the state moved to deleting |
| `Controller.RdmaController.RunReconnectOrRemove` | backends/local/kernel_modules/snvme-5.10-npu/rdma.c:1069-1086 | queue another attempt while the budget lasts, else delete; nothing unless connecting |
| `Controller.RdmaController.RunErrorWork` | backends/local/kernel_modules/snvme-5.10-npu/rdma.c:1187-1206 | moves to connecting and goes on, unless deletion began |
| `Controller.RdmaController.BeginReset` | backends/local/kernel_modules/snvme-5.10-npu/rdma.c:2247-2259 | cancels the other work, then moves to connecting |
| `Controller.RdmaController.EndReset` | backends/local/kernel_modules/snvme-5.10-npu/rdma.c:2261-2269 | a failed set-up counts as an attempt |
| `Controller.RdmaController.FinishSetup` | backends/local/kernel_modules/snvme-5.10-npu/rdma.c:1088-1162 | success exactly when the controller went live or one of the two unsupported checks failed |
| `Controller.RdmaController.BeginReconnect` | backends/local/kernel_modules/snvme-5.10-npu/rdma.c:1164-1170 | an attempt is counted when it starts |
| `Controller.RdmaController.EndReconnect` | backends/local/kernel_modules/snvme-5.10-npu/rdma.c:1171-1185 | what a finished attempt does to state, counter and queue |
| `Controller.RdmaController.SettleReconnect` | backends/local/kernel_modules/snvme-5.10-npu/rdma.c:1174-1179 | the counter is cleared after, not with, the move to live |
| `Controller.RdmaController.RunFirmwareWork` | backends/local/kernel_modules/snvme-5.10-npu/core.c:4488-4520 | back to live, or a reset when activation timed out and the state is still resetting |
| `Controller.RdmaController.RunDeleteWork` | backends/local/kernel_modules/snvme-5.10-npu/core.c:229-247 | waits for reset and reconnect, cancels the rest, and stops I/O |
| `Controller.RequestServed` | backends/local/kernel_modules/snvme-5.10-npu/core.c:204-211 | over every run, an error, reset or firmware request takes a live controller to resetting with exactly that work queued, and changes nothing in any other state |
| `Controller.ResettingServed` | backends/local/kernel_modules/snvme-5.10-npu/rdma.c:1187-1206 | over every run, what error work, a reset and firmware work turn a resetting controller into |
| `Controller.ConnectingServed` | backends/local/kernel_modules/snvme-5.10-npu/rdma.c:1088-1185 | over every run, what the end of a set-up turns a connecting controller into, by its outcome and the budget left |
| `Controller.WorkFinished` | backends/local/kernel_modules/snvme-5.10-npu/rdma.c:2247-2259 | in whatever state it runs, a work item is no longer queued or running afterwards, a reset cancels all other recovery, and attempts are counted and forgotten as they start and succeed |
| `Controller.DeleteStarts` | backends/local/kernel_modules/snvme-5.10-npu/core.c:249-256 | over every run, a deletion request on any controller not yet on its way out takes it to deleting with the work queued |
| `Controller.DeletionCompletes` | backends/local/kernel_modules/snvme-5.10-npu/core.c:229-256 | from such a request on, over every continuation, the controller only goes out, and has stopped I/O with nothing else queued or running if and only if the deletion work has run |
| `Controller.TerminalForever` | backends/local/kernel_modules/snvme-5.10-npu/core.c:567-587 | once deleting or dead, a controller is never live, resetting or connecting again and queues no further reconnect, over every run |
| `Controller.AttemptsBounded` | backends/local/kernel_modules/snvme-5.10-npu/rdma.c:1069-1086 | at most max(1, max_reconnects) attempts in a row fail, and after the last one the controller is being deleted |
| `Controller.GivesUpEarlyIff` | backends/local/kernel_modules/snvme-5.10-npu/rdma.c:1164-1206 | without a deletion request the controller is given up before that many failures if and only if error work runs while no attempt is allowed, or while a reconnect that just succeeded still has its counter at the limit |
| `Controller.DeletedAfterSuccess` | backends/local/kernel_modules/snvme-5.10-npu/rdma.c:1171-1179 | a run in which the only attempt allowed succeeds and the next error deletes the controller |
| `Controller.NeverGivesUp` | backends/local/kernel_modules/snvme-5.10-npu/fabrics.c:465-473 | with max_reconnects -1 only a request ever deletes the controller |
| `Controller.StrandedIffUnsupported` | backends/local/kernel_modules/snvme-5.10-npu/rdma.c:1097-1106 | a run reaches a state that is stuck connecting with no work queued or running, if and only if a set-up ended in one of the two checks that leave the return value at 0 |
| `Controller.StrandedForever` | backends/local/kernel_modules/snvme-5.10-npu/rdma.c:1069-1106 | from a stuck state on, over every continuation, the controller is still stuck at a later moment if and only if no deletion was requested in between |
| `Controller.StrandedRun` | backends/local/kernel_modules/snvme-5.10-npu/rdma.c:1088-1106 | such a run, for every positive limit: an error, its recovery, and a reconnect that finds the target unsupported |
| `Controller.MaxReconnects` | backends/local/kernel_modules/snvme-5.10-npu/fabrics.c:843-847 | max_reconnects * reconnect_delay lies in [ctrl_loss_tmo, ctrl_loss_tmo + reconnect_delay), or is -1 for a negative timeout |
| `RdmaRequest.Request.constructor` | backends/local/kernel_modules/snvme-5.10-npu/rdma.c:1523-1524 | a posted request holds two references |
| `RdmaRequest.Request.End` | backends/local/kernel_modules/snvme-5.10-npu/rdma.c:1217-1225 | drops a reference; the last one returns the region and completes |
| `RdmaRequest.Request.OnSendDone` | backends/local/kernel_modules/snvme-5.10-npu/rdma.c:1615-1626 | what the send completion does |
| `RdmaRequest.Request.OnResponse` | backends/local/kernel_modules/snvme-5.10-npu/rdma.c:1727-1769 | what the response does: end, or post a local invalidation, or start recovery |
| `RdmaRequest.Request.OnInvalidateDone` | backends/local/kernel_modules/snvme-5.10-npu/rdma.c:1247-1256 | what the invalidation's completion does |
| `RdmaRequest.CompletesOnceAfterAll` | backends/local/kernel_modules/snvme-5.10-npu/rdma.c:1217-1304 | in every interleaving, errors included, the request completes at most once, and is complete exactly when the send has completed and the response side has ended |
| `RdmaRequest.CleanRunCompletes` | backends/local/kernel_modules/snvme-5.10-npu/rdma.c:1217-1304 | without errors every order of the completions ends with one completion and the region back in the pool, invalidated |
| `RdmaRequest.RecoveryIffError` | backends/local/kernel_modules/snvme-5.10-npu/rdma.c:1227-1256 | in every interleaving error recovery has been started if and only if some completion so far reported an error |
| `RdmaRequest.LeakedIffBogus` | backends/local/kernel_modules/snvme-5.10-npu/rdma.c:1746-1753 | a region returns to the pool while its key is still valid if and only if the target announced the invalidation of another key |
| `RdmaRequest.BogusLeaks` | backends/local/kernel_modules/snvme-5.10-npu/rdma.c:1746-1768 | such a run |
| `CommandId.Unpack` | backends/local/kernel_modules/snvme-5.10-npu/nvme.h:513-526 | the id is the tag in the low twelve bits under the low four bits of the generation, and both unpack again |
| `CommandId.TagSet.SetupCmd` | backends/local/kernel_modules/snvme-5.10-npu/core.c:1090-1092 | a set-up advances its own tag's generation and no other, or none under the quirk that skips it |
| `CommandId.TagSet.FindRq` | backends/local/kernel_modules/snvme-5.10-npu/nvme.h:528-548 | a request is found exactly when tag and generation match |
| `CommandId.AcceptIff` | backends/local/kernel_modules/snvme-5.10-npu/nvme.h:528-548 | any id at all finds a request if and only if its low twelve bits are a known tag and its high four that tag's generation |
| `CommandId.StaleAcceptedIff` | backends/local/kernel_modules/snvme-5.10-npu/nvme.h:528-548 | without the quirk, over every run of set-ups of any tags, an id built earlier is accepted if and only if its tag was set up a multiple of 16 times since |
| `NamespaceScan.NamespaceList.FindGetNs` | backends/local/kernel_modules/snvme-5.10-npu/core.c:3963-3982 | the early-exit lookup finds what a full scan finds |
| `NamespaceScan.NamespaceList.AddToCtrlList` | backends/local/kernel_modules/snvme-5.10-npu/core.c:3988-4001 | inserts exactly this namespace and keeps the list strictly sorted |
| `NamespaceScan.NamespaceList.RemoveByNsid` | backends/local/kernel_modules/snvme-5.10-npu/core.c:4140-4149 | removes exactly this id |
| `NamespaceScan.NamespaceList.ValidateOrAlloc` | backends/local/kernel_modules/snvme-5.10-npu/core.c:4151-4229 | what one id becomes, by its descriptors, its validation and its allocation; every other id is untouched |
| `NamespaceScan.NamespaceList.RemoveInvalid` | backends/local/kernel_modules/snvme-5.10-npu/core.c:4231-4247 | keeps exactly the live namespaces up to the last active id |
| `NamespaceScan.NamespaceList.ScanEntry` | backends/local/kernel_modules/snvme-5.10-npu/core.c:4280-4289 | settles one id and removes every id skipped since the last |
| `NamespaceScan.NamespaceList.ScanPage` | backends/local/kernel_modules/snvme-5.10-npu/core.c:4263-4290 | one page moves strictly forward or meets the end of the list |
| `NamespaceScan.NamespaceList.ScanNsList` | backends/local/kernel_modules/snvme-5.10-npu/core.c:4249-4296 | terminates; a successful scan leaves exactly the active namespaces that validated or were allocated, sorted and none dead; a failed one has treated exactly the ids up to some point |
| `Multipath.AnaController.UpdateAnaState` | backends/local/kernel_modules/snvme-5.10-npu/multipath.c:652-685 | the one-pass merge updates exactly the namespaces whose id occurs in the descriptor, in bounds and terminating |
| `Multipath.AnaController.ParseAnaLog` | backends/local/kernel_modules/snvme-5.10-npu/multipath.c:592-634 | succeeds exactly when every group has an id in range and a state from 1 to 15, reserved ones included, and then applies all of them in order and counts the changing ones; otherwise exactly the groups before the first bad one have been applied and counted |
| `Multipath.LogDecidesState` | backends/local/kernel_modules/snvme-5.10-npu/multipath.c:592-685 | after the whole log each namespace carries the state of the last group that lists it, or is untouched |
| `Multipath.FindPath` | backends/local/kernel_modules/snvme-5.10-npu/multipath.c:173-226 | none exactly when no path is on a live or deleting controller, settled, ready and accessible; else such a path, optimized if any is, the nearest under the NUMA policy, the first in the list without it |
| `Multipath.RoundRobinPath` | backends/local/kernel_modules/snvme-5.10-npu/multipath.c:238-279 | a lone path exactly when its controller is live or deleting and it is settled and ready; with more, the first other optimized path in circular order, else the current one if optimized, else the last other non-optimized one, else the current one if usable; at most n - 1 steps |
| `Multipath.FairNoneIff` | backends/local/kernel_modules/snvme-5.10-npu/multipath.c:238-279 | with two or more paths the answer is none if and only if no path is on a live or deleting controller, settled, ready and accessible |
| `Multipath.FairUsable` | backends/local/kernel_modules/snvme-5.10-npu/multipath.c:238-279 | an answer always names such a path, an optimized one if there is any |
| `Multipath.FairTurn` | backends/local/kernel_modules/snvme-5.10-npu/multipath.c:238-279 | whose turn it is, in steps round the list: no other optimized path is nearer than the one chosen, no other non-optimized one is further, and the current one is chosen only if it alone is optimized or nothing else is left |
| `IntrusiveList.List.constructor` | backends/local/kernel_modules/snvme-5.10-npu/list.c:9-16 | the head alone on the circle |
| `IntrusiveList.List.Insert` | backends/local/kernel_modules/snvme-5.10-npu/list.c:35-50 | appends at the tail and keeps the circle doubly linked |
| `IntrusiveList.List.Remove` | backends/local/kernel_modules/snvme-5.10-npu/list.c:19-32 | unlinks exactly this element, leaves head and detached elements alone, and keeps the circle |
| `IntrusiveList.List.Next` | backends/local/kernel_modules/snvme-5.10-npu/list.h:51-52 | the following element, or null where the circle closes |
| `IntrusiveList.List.Release` | backends/local/kernel_modules/snvme-5.10-npu/map.c:77-100 | any map, on the list or detached, ends up released and off the list, the circle stays linked without it in the same order, and no other map is touched |
| `IntrusiveList.List.PurgeByOwner` | backends/local/kernel_modules/snvme-5.10-npu/map.c:156-198 | releases and detaches exactly the maps of this task outside every queue group, keeps the rest in order, returns their number, keeps the circle, and terminates although it restarts after each |
| `IntrusiveList.KeptIs` | backends/local/kernel_modules/snvme-5.10-npu/map.c:186-193 | what a purge keeps is exactly what it should not free |
| `IntrusiveList.KeptInOrder` | backends/local/kernel_modules/snvme-5.10-npu/map.c:186-194 | a purge of a list is the purge of its parts, in order |
| `QueueSplit.IoQueues.AllocIoQueues` | backends/local/kernel_modules/snvme-5.10-npu/rdma.c:719-790 | nothing granted changes nothing; otherwise the new counts, where a count not assigned keeps its old value, also when a queue then fails; succeeds exactly when no granted queue fails |
| `QueueSplit.IoQueues.SetUpQueues` | backends/local/kernel_modules/snvme-5.10-npu/rdma.c:776-790 | sets up every queue, or takes down exactly those before the first that fails |
| `QueueSplit.IoQueues.MapQueues` | backends/local/kernel_modules/snvme-5.10-npu/rdma.c:2161-2197 | the block layer's ranges; a poll range that gets no queues is left as it was |
| `QueueSplit.IoQueues.IsPollQueue` | backends/local/kernel_modules/snvme-5.10-npu/rdma.c:164-169 | when the counts add up to the queues there are, the driver polls exactly the last ones, as many as the poll count |
| `QueueSplit.SplitCoversIff` | backends/local/kernel_modules/snvme-5.10-npu/rdma.c:748-774 | default, read and poll counts add up to the granted queues if and only if the counts the call leaves alone were zero |
| `QueueSplit.SplitRoles` | backends/local/kernel_modules/snvme-5.10-npu/rdma.c:748-774 | read queues in full, then default, then poll queues when writes have their own; shared queues first and poll queues from the rest otherwise; a count not assigned stays |
| `QueueSplit.StalePollCount` | backends/local/kernel_modules/snvme-5.10-npu/rdma.c:770-774 | a reconnect with fewer queues that keeps the old poll count |
| `QueueSplit.FreshMapTiles` | backends/local/kernel_modules/snvme-5.10-npu/rdma.c:2161-2197 | on zeroed counts the mapped ranges tile the granted queues, default first, read equal to it or behind it, poll apart from both, each with its own count |
| `QueueSplit.PollQueuesAreLast` | backends/local/kernel_modules/snvme-5.10-npu/rdma.c:164-169 | exactly the last queues, as many as the poll count, are polled, and they are the ones mapped for polling |
| `SlotManager.Pack` | filesystems/ext4/libgeminifs/nvme_file.cpp:353-358 | bit i of the bytes is slot i, and each byte is the sum of its eight slots, the first worth 1 and the last 128 |
| `SlotManager.LoadRecords` | filesystems/ext4/libgeminifs/nvme_file.cpp:297-329 | the table read back is exactly the slots whose bit is set and whose record names them, and the corrections counted are exactly the marked slots dropped |
| `SlotManager.FileManager.Load` | filesystems/ext4/libgeminifs/nvme_file.cpp:145-338 | a manager started from any file: one with the literal magic, sizes and count in range gives the slots it marks, less unreadable and mismatched records, each counted once as pending; any other is replaced by an empty table |
| `SlotManager.FileManager.FindNextFreeSlot` | filesystems/ext4/libgeminifs/nvme_file.cpp:378-385 | the lowest free slot, or none exactly when all are used |
| `SlotManager.FileManager.CreateAuto` | filesystems/ext4/libgeminifs/nvme_file.cpp:451-492 | takes the lowest free slot and names the file by it; afterwards a crash changes at most threshold - 1 slots |
| `SlotManager.FileManager.CreateNamed` | filesystems/ext4/libgeminifs/nvme_file.cpp:393-449 | fails exactly for a long name or a full table; else as above with the given name |
| `SlotManager.FileManager.DeleteFile` | filesystems/ext4/libgeminifs/nvme_file.cpp:494-512 | removes exactly this id; afterwards a crash changes at most threshold - 1 slots |
| `SlotManager.FileManager.PersistBitmap` | filesystems/ext4/libgeminifs/nvme_file.cpp:347-376 | disk and memory agree, the waiting record included, and nothing is pending |
| `SlotManager.FileManager.ForcePersist` | filesystems/ext4/libgeminifs/nvme_file.cpp:340-345 | the same, also when nothing is pending and it writes nothing |
| `SlotManager.FileManager.GetFileIdByFilename` | filesystems/ext4/libgeminifs/nvme_file.cpp:532-554 | the quick answer for a name that parses to a used slot, else a full scan's; always the scan's for a name that begins with no digit, space or sign |
| `SlotManager.ReloadRebuilds` | filesystems/ext4/libgeminifs/nvme_file.cpp:297-329 | once everything is written a reload rebuilds the same table |
| `SlotManager.ReloadAfterCrash` | filesystems/ext4/libgeminifs/nvme_file.cpp:387-512 | a crash at any moment brings a slot back changed if and only if its bit was not written, or it is a reused slot, marked on disk, whose new record was still buffered |
| `SlotManager.BitsDecideIff` | filesystems/ext4/libgeminifs/nvme_file.cpp:387-391 | the slots whose bit agrees all come back unchanged if and only if no buffered record waits for a slot that is marked in memory and on disk and holds another record there |
| `SlotManager.DeletedFileReturns` | filesystems/ext4/libgeminifs/nvme_file.cpp:387-512 | delete, create in the same slot, crash: no bit differs, the deleted file is back and the new one is gone |
| `SlotManager.AutoNamesExact` | filesystems/ext4/libgeminifs/nvme_file.cpp:532-554 | with slot-numbered files only, lookup is exact for every canonical name and wrong exactly for other spellings of a used slot's number |
| `SlotManager.LeadingZero` | filesystems/ext4/libgeminifs/nvme_file.cpp:610-616 | any used slot's number with a zero in front is such a spelling |
| `FileNames.NameRoundTrip` | filesystems/ext4/libgeminifs/nvme_file.cpp:606-616 | a slot number parses back from its name |
| `FileNames.NotANumber` | filesystems/ext4/libgeminifs/nvme_file.cpp:610-616 | a string that begins with no digit, space or sign is no number |
| `FileNames.SpaceInFront` | filesystems/ext4/libgeminifs/nvme_file.cpp:610-616 | a space in front changes nothing |
| `FileNames.DigitsParse` | filesystems/ext4/libgeminifs/nvme_file.cpp:610-616 | digits, with or without a sign, count up to the first other character, modulo 2^32, and are no number from 2^64 on |
| `FileNames.SignAlone` | filesystems/ext4/libgeminifs/nvme_file.cpp:610-616 | a sign with no digit behind it is no number |
| `FileNames.DecimalDigit` | filesystems/ext4/libgeminifs/nvme_file.cpp:606-608 | digit i from the right of a slot's name is its decimal digit i |
| `FileNames.DecimalSize` | filesystems/ext4/libgeminifs/nvme_file.cpp:606-608 | the name has no more digits than the number needs |

## Left out

- FileLog.PersistentFileLog.NextFileId: ids are unbounded; wrap-around of the 64-bit counter is not modelled, and loading requires it has not happened.
- Storage.HostFsStorage.Bootstrap: one device; mkfs, mount, unmount and the rollback over several devices are not modelled.
- Controller.RdmaController.RunReconnectOrRemove: the state test and the queueing are one step.
- Controller.RdmaController.constructor: starts from a controller that came up; the first set-up at creation is not modelled.
- NamespaceScan.NamespaceList.ScanNsList: the fallback scan that counts up to the reported number of namespaces is not modelled, and references are always live.
- Multipath.AnaController.ParseAnaLog: groups are given as records; the byte offsets of the log buffer are not modelled.
- Multipath.FindPath: the store of the chosen path per node is the caller's, and the list does not change during the walk.
- IntrusiveList.List.Release: unpinning pages and the per-file queue-group list are one released flag.
- SlotManager.FileManager.CreateNamed: writes to the table's file always succeed.
- SlotManager.FileManager.PersistBitmap: the writes of header and bitmap and the flush are one step, so a crash inside it is not modelled.
- SlotManager.FileManager.Load: the offsets stored in the header are taken to be the ones the table is created with.
- SlotManager.FileManager.Fill: the C library keeps back at most the last record, as each record is preceded by a seek that writes the one before.
- The file header written into each bin is never read back and is not modelled.
- Host read and write of file data, capacity queries and device handles for the GPU are not part of this model; they pass values through and keep no state of their own.
- The gRPC service, its clients, configuration files and device registries are not part of this model.
- Timeouts of RDMA requests, TCP and PCI transports, zoned namespaces, sysfs and the ioctl interface are not part of this model.
