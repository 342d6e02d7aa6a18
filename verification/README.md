# Verification of the block-storage CSI driver

The driver has two halves: a Python controller, which turns CSI calls into commands for storage arrays, and a Go node
agent. Between the calls to arrays and devices sit a handful of protocols, allocators, codecs and caches that
nobody can check by looking at one function. This project models those and proves what they keep.

- **Connection pool** (`PoolProtocol`, `ConnectionPools`, `PoolLimits`). `get` and `put` as interleaved steps of any
  number of threads. One invariant accounts for every connection and every reserved slot, in transit or not.
- **Node locks** (`NodeLockProtocol`, `NodeSyncLocks`). Volume keys, LUN keys and tokens, taken and given back in
  separate steps with rollback.
- **Publish** (`PublishProtocol`, `ArrayMediators`, `ControllerLocks`, `ControllerServers`, `LunAllocator`).
  Read-then-map under the controller's id lock, the bounded retry, and the choice of a free LUN.
- **SVC transactions** (`SvcArrays`, `SvcClone`, `SvcSnapshots`, `SvcExpand`). Multi-command sequences over an abstract
  array, with a fault possible at every command.
- **Volume groups** (`VolumeGroups`, `VolumeIds`). Reconciliation of a group with a request, where a volume goes
  by its SCSI id or by its NGUID.
- **Codecs** (`Text`, `ObjectIds`, `PublishContext`, `ScsiLun`). What one language prints and the other parses.
- **DS8K cache** (`Ds8kCache`, `Ds8kCacheProtocol`, `Ds8kMediators`). The name cache against the array's volumes.
- **SANtricity snapshots** (`SnapshotChooser`, `SnapshotAutomation`). Which group an automatic snapshot goes to.
- **Idempotent create** (`CreateVolumes`). What a repeated request may change and answer, array by array.

`Runs` and `Tally` hold the induction over runs and the counting.

## How concurrency is modelled

Each protocol is a transition system. A thread is at one program point; one step is one atomic action of the source
(a locked section, a queue or map operation, a command). Safety is proved for every run of any number of threads.

`ConnectionPool`, the node's `SyncLock` and `ArrayMediator` with `ControllerServer` have the source's fields and
methods. Beside them a ghost `run` records how the object came to its present state, and between two atomic actions a
method calls `Interfere`, whose contract lets the other threads take any steps the protocol allows. Its body does
nothing, since no caller may know more than the contract. So each of these methods is proved both to follow the
protocol and to meet its contract whatever the others do. Threads that interfere take finitely many steps (`patience`
in the pool), which is what lets the loop of `get` end. The classes of the other modules serve one call at a time.

An array command may fail at any time if `faults` is set, and then it has not taken effect; the exception is the map
command, where both are possible. With `faults` off a command fails only if the array's own state rules it out, and
the contracts then say exactly when an operation succeeds. In the same way `contended` is whether a LUN may be taken by
the time it is mapped, `disturbed` whether other threads move while the node's lock is taken, and `broken` are the
pooled connections that are not active.

## What the proofs turned up

- A connection whose `is_active` raises is dropped but stays counted, so its slot is lost for good
  (array_connection_pool.py:72); `lost` in the invariant counts these.
- A caller of `get` can wait with no one left to serve it: after failed creates, which give their slots back but wake
  nobody, or when every slot is lost. Both happen for every bound (`FailedCreatesStrand`, `LossesStrand`); without
  a failed create or a lost connection it never happens (`NobodyIsStrandedWithoutFaults`).
- The loop of `__del__` can reach its own end, the counter at zero, exactly if no connection was lost before
  (`DrainEndsExactlyIfNothingIsLost`), and then it does if nothing fails (`Drain`). With one lost, and the queue empty,
  each round makes a connection and closes it, and the counter stays; when as many are lost as the bound allows, `get`
  inside `__del__` waits for good (`EmptyDrainSpinsExactlyBelowTheBound`). For every bound and every number of losses up
  to it there is such a run (`EveryLossMakesADrainEndless`). Only an exception out of that `get` stops it, with the
  counter above zero.
- `__init__` asks for `min_size` connections but puts each back before getting the next, so it leaves at most one.
- The publish lock is on the text of the CSI id. Two ids of one volume, such as the forms with and without an internal
  id, do not exclude each other, and then a volume can be mapped to two hosts. A volume has at most one host in
  all runs exactly when every id has a volume of its own and no shared access is served
  (`SafeExactlyWithOneIdPerVolume`).
- The retry of publish and unpublish on NoConnectionAvailableException never fires: the checkout of a mediator raises it
  (storage_agent.py:185), which is outside the retried methods, and array_connection_manager.py, which no server uses.
- Clone-from-snapshot into a group with the volume's own name fails on an array that keeps a volume group while it has
  volumes, and is rolled back. On one that does not (`evicts`) it leaves the volume in no group, because the temporary
  group has that name and is removed after the volume is put in it and before it is renamed. A fault in looking the new
  volume up is not handled and leaves the temporary group. Clone-from-volume leaves its temporary snapshot behind on
  every later fault.
- Snapshot rollback finds its target by name. After a CLI fault other than "already exists" it removes a volume
  of that name that was there before.
- The 31-character test of group membership also matches a NGUID with another filler character, and an id
  shifted by one place; such a member is not removed (`AccidentalHitExactly`). Nothing at all leaves the group when the
  partition's own group is the group itself (`NothingLeavesForTheGroupItself`); a second request then finds
  work to do if and only if some member matches nothing requested.
- `scsilun_to_int` does not undo `int_to_scsilun` for the LUNs `k * 65536` with `k` from 1 to 255; it answers `k`.
- A DS8K cache entry whose id is gone makes the lookup raise instead of scanning the pool.
- No lock spans a DS8K lookup and the change of the cache that follows it. If a delete runs between the two, the dead id
  stays cached (`DeleteBetweenFindAndToggle`). Between calls the cache is right in every run exactly if calls on one
  name are serialised (`TruthfulExactlyWhenSerialised`); creating locks the name, deleting the volume id.
- When the source of a copy is missing the new volume is rolled back twice; the second attempt finds nothing, so the
  caller is told of a missing volume.
- On DS8K a copy enlarges the new volume when its source has more than was granted, after its size was noted. A repeated
  create then reports more bytes than the first call did, and only then does its answer differ (`CreateVolumeTwice`,
  `EnlargedRepeat`).
- On SANtricity no volume is ever reported with a source, so repeating a successful create from one is refused as already
  existing, unless snapshot objects are asked for (`RefusedRepeat`). `Repeatable` is the exact condition; on DS8K it
  excludes creates with a source in a partition.
- A create with a source can succeed without copying it: on DS8K when `virt_snap_func` or a partition is given, since the
  controller then leaves the copy to the array, and on SANtricity when the source is a volume (`GetsData`). A snapshot
  restored on SANtricity has the capacity of its source, whatever was asked for.

## Model

| member | source | states |
|---|---|---|
| PoolProtocol.CounterAccountsForEveryConnection | controllers/array_action/array_connection_pool.py:69-116 | in every run the counter is queued + checked out + popped and still counted + reserved (+ lost to a raising liveness test), and at most the bound |
| PoolProtocol.PutNeverDiscards | controllers/array_action/array_connection_pool.py:113-126 | in no run does a thread reach either discard branch; on each return the counter is within the bound and the queue has room |
| PoolProtocol.ConnectionIsExclusive | controllers/array_action/array_connection_pool.py:53-134 | a connection one thread has is with no other thread, not queued, not closed |
| PoolProtocol.NoConnectionVanishes | controllers/array_action/array_connection_pool.py:53-134 | each connection ever made is closed, lost, queued or in a thread's hands |
| PoolProtocol.HealthyConnectionsStayOpen | controllers/array_action/array_connection_pool.py:69-134 | until the pool is deleted only connections found inactive are closed |
| PoolProtocol.StepConserved | controllers/array_action/array_connection_pool.py:53-134 | no step duplicates or drops a connection, except that a create adds one |
| PoolLimits.NobodyIsStrandedWithoutFaults | controllers/array_action/array_connection_pool.py:53-134 | in a run without failed creates, losses and deletion, whenever a thread waits there is a queued connection or a thread at work |
| PoolLimits.FailedCreatesStrand | controllers/array_action/array_connection_pool.py:86-107 | for every bound, a run in which failed creates alone leave a thread waiting with the whole pool free |
| PoolLimits.LossesStrand | controllers/array_action/array_connection_pool.py:69-107 | for every bound, a run in which losses alone leave a thread waiting |
| PoolLimits.LostSlotIsNeverFreed | controllers/array_action/array_connection_pool.py:69-77 | once a connection is lost the counter is above zero for the rest of the run |
| PoolLimits.DrainEndsExactlyIfNothingIsLost | controllers/array_action/array_connection_pool.py:30-36 | the loop of a deleted pool's drain can bring the counter to zero if and only if no connection was lost |
| PoolLimits.EmptyDrainSpinsExactlyBelowTheBound | controllers/array_action/array_connection_pool.py:30-36 | on an empty queue a turn of the drain can be completed if and only if the counter is below the bound, and it changes nothing |
| PoolLimits.EveryLossMakesADrainEndless | controllers/array_action/array_connection_pool.py:30-36 | for every bound and number of losses, a run to a deleted pool from which no continuation brings the counter to zero |
| ConnectionPools.ConnectionPool.constructor | controllers/array_action/array_connection_pool.py:13-26 | an empty pool shared by any number of threads |
| ConnectionPools.ConnectionPool.Get | controllers/array_action/array_connection_pool.py:53-107 | follows the protocol under interference; what it returns no one else has; alone and without faults it is the first active connection of the queue, or a new one if there is none, and the counter falls by those dropped |
| ConnectionPools.ConnectionPool.TakeActive | controllers/array_action/array_connection_pool.py:69-91 | the purge loop ends, returns an active connection or finds the queue exhausted; alone, the first active one, with exactly those before it dropped and uncounted |
| ConnectionPools.ConnectionPool.CreateOrWait | controllers/array_action/array_connection_pool.py:86-107 | reserves a slot before connecting and gives it back on failure; at a full pool a caller gets what is in the queue, and without faults nothing only if the queue is empty |
| ConnectionPools.FirstActiveExactly | controllers/array_action/array_connection_pool.py:69-91 | what is left of a queue from its first active connection on: those before it are all inactive |
| ConnectionPools.ConnectionPool.Put | controllers/array_action/array_connection_pool.py:109-134 | the connection is back in the queue when it returns; neither discard branch is taken, whatever other threads do |
| ConnectionPools.ConnectionPool.GetMediator | controllers/array_action/storage_agent.py:178-190 | what was checked out is returned once |
| ConnectionPools.ConnectionPool.Prefill | controllers/array_action/array_connection_pool.py:27-28 | however many are asked for, at most one connection is left, and one if any was asked for |
| ConnectionPools.ConnectionPool.Drain | controllers/array_action/array_connection_pool.py:30-36 | with nothing checked out it ends with counter zero, an empty queue and each connection ever made closed once |
| NodeLockProtocol.OneThreadPerVolume | node/pkg/driver/sync_lock.go:67-95 | in every run at most one thread holds a volume's key |
| NodeLockProtocol.OneThreadPerLun | node/pkg/driver/sync_lock.go:97-118 | with cleaning on, at most one thread is inside for a LUN |
| NodeLockProtocol.TokensBoundInvocations | node/pkg/driver/sync_lock.go:75-93 | tokens are the threads between send and receive, and bound the threads inside by the configured maximum |
| NodeLockProtocol.ReleaseNeverBlocks | node/pkg/driver/sync_lock.go:91-95 | the receive on release always finds a token |
| NodeLockProtocol.EveryCallFinishes | node/pkg/driver/sync_lock.go:54-119 | a thread between calls' ends always has a step, and every step brings it closer to the end |
| NodeLockProtocol.OnlyTheOwnerDeletes | node/pkg/driver/sync_lock.go:82-119 | a stored key is deleted only by the thread that stored it and is never overwritten |
| NodeLockProtocol.OutsideLeavesNothing | node/pkg/driver/sync_lock.go:54-65 | a thread that is outside again, after success or failure, has left no key and no token |
| NodeLockProtocol.QuietMeansEmpty | node/pkg/driver/sync_lock.go:86-119 | when all threads are done the map and the channel are empty |
| NodeSyncLocks.SyncLock.AddVolumeAndLunLock | node/pkg/driver/sync_lock.go:54-65 | success: the thread holds both keys (with cleaning on) and no one else the volume's; failure: it holds nothing; with no other thread moving, granted exactly if both keys are free and the channel has room, with the error that says what is not |
| NodeSyncLocks.SyncLock.AddVolumeLock | node/pkg/driver/sync_lock.go:67-84 | the same for the volume alone |
| NodeSyncLocks.SyncLock.TrySend | node/pkg/driver/sync_lock.go:75-84 | a token is sent at once if the channel has room; the timer wins only on a full channel |
| NodeSyncLocks.SyncLock.TakeVolume | node/pkg/driver/sync_lock.go:67-84 | "already processing" exactly when the key was stored; otherwise inside, or out of tokens with the key taken back |
| NodeSyncLocks.SyncLock.AddLunLock | node/pkg/driver/sync_lock.go:97-110 | refused exactly when cleaning is on and the LUN is taken |
| NodeSyncLocks.SyncLock.RemoveVolumeAndLunLock | node/pkg/driver/sync_lock.go:86-89 | nothing of the thread's is left, whatever the others do meanwhile |
| NodeSyncLocks.SyncLock.RemoveVolumeLock | node/pkg/driver/sync_lock.go:91-95 | the same for the volume alone; the receive does not block |
| PublishProtocol.AtMostOneHost | controllers/array_action/array_mediator_abstract.py:27-89 | with one id per volume and exclusive access only, in every run of lock-serialised publishes and unpublishes no volume is mapped to two hosts |
| PublishProtocol.AnswerStillHolds | controllers/array_action/array_mediator_abstract.py:27-81 | the LUN a publish answers is still the volume's when its lock is released, with exclusive access its only one |
| PublishProtocol.OthersLeaveAlone | controllers/servers/csi/sync_lock.py:38-58 | whatever steps other threads take, a thread that holds an id finds the id's volume as it left it |
| PublishProtocol.LockIsExclusive | controllers/servers/csi/sync_lock.py:38-58 | in every run one thread at most holds an id |
| PublishProtocol.SafeExactlyWithOneIdPerVolume | controllers/servers/csi/sync_lock.py:38-58 | no run takes a volume from at most one host to two if and only if no two ids name one volume and no shared access is served |
| PublishProtocol.AliasedIdsCanDoubleMap | controllers/array_action/array_mediator_abstract.py:27-81 | for any two ids of one volume, a run from no mapping at all to that volume mapped to two hosts |
| PublishProtocol.SharedAccessDoubleMaps | controllers/array_action/array_mediator_abstract.py:27-81 | for any id, a run in which a shared publish maps its volume, at one host before, to a second one |
| ControllerServers.ControllerServer.ControllerPublishVolume | controllers/servers/csi/decorators.py:39-53 | refused exactly if the id is in use; otherwise, with other threads running between any two commands, the answer and the outcome for the volume are those of an undisturbed publish, and with exclusive access only no volume has two hosts |
| ControllerServers.ControllerServer.ControllerUnpublishVolume | controllers/servers/csi/csi_controller_server.py:266-298 | refused exactly if the id is in use; otherwise the outcome for the volume is that of an undisturbed unpublish |
| ControllerServers.ControllerServer.PublishTwice | controllers/array_action/array_mediator_abstract.py:27-81 | a second exclusive publish after a success gives the same answer, issues no map command and leaves the volume mapped as it was |
| ControllerLocks.IdsInUse.Enter | controllers/servers/csi/sync_lock.py:30-53 | entered exactly when the id was not in use under the key; no key, no lock |
| ControllerLocks.IdsInUse.Exit | controllers/servers/csi/sync_lock.py:34-58 | takes out that id under that key and nothing else |
| ArrayMediators.ArrayMediator.MapVolumeByInitiators | controllers/array_action/array_mediator_abstract.py:27-81 | follows the protocol; under interference: refused exactly for exclusive access to a volume others have or more than one has; else answered by a mapping that speaks, with its LUN, connectivity and targets, or with its error; else a host of the node is mapped, if it has one; no command where it is mapped already, or for another volume |
| ArrayMediators.ArrayMediator.Decide | controllers/array_action/array_mediator_abstract.py:27-64 | what is read decides: a host worth mapping, or the exact answer of a publish that changes nothing |
| ArrayMediators.ChoosesByPreference | controllers/servers/utils.py:910-924 | the first of NVMe/RoCE, NVMe/FC, FC and iSCSI that there is, and none only without any |
| ArrayMediators.MatchesBySharedInitiator | controllers/array_action/array_mediator_abstract.py:41 | a host is the node's exactly if they share an initiator of one kind |
| ArrayMediators.UnmapsByNguidOverNvmeFc | controllers/array_action/array_mediator_abstract.py:84-89 | the NGUID is used exactly for a host over NVMe/FC and not NVMe/RoCE |
| ArrayMediators.ArrayMediator.FindExisting | controllers/array_action/array_mediator_abstract.py:37-50 | the first listed mapping that is not to a defined host of another node answers; there is no answer exactly if all are |
| ArrayMediators.MappedAsDecided | controllers/array_action/array_mediator_abstract.py:57-81 | whatever the map command for a host decided on ends with, it is a correct outcome of the whole publish |
| ArrayMediators.ArrayMediator.MapWithRetries | controllers/array_action/array_mediator_abstract.py:67-80 | at most the configured number of map commands, at least one, all for this volume; "LUN taken" only after all of them, with the volume unchanged, though other threads run between the tries |
| ArrayMediators.ArrayMediator.UnmapVolumeByInitiators | controllers/array_action/array_mediator_abstract.py:83-89 | removes one mapping, to a host of the node, over NVMe/FC of the volume found by its NGUID; or changes nothing, with no faults only if the node has no host or the volume is not mapped to one; follows the protocol |
| ArrayMediators.StaysExclusive | controllers/array_action/array_mediator_abstract.py:27-81 | an exclusive publish never brings a volume from at most one host to more |
| LunAllocator.GetFreeLun | controllers/array_action/array_mediator_svc.py:1435-1452 | the choice is not in use; with a free number up to the ceiling it is below LUNs used + 128, else it is one of the 512 after the ceiling |
| LunAllocator.GetUsedLunIdsFromHost | controllers/array_action/array_mediator_svc.py:1410-1433 | the texts in use, and the least 512k-1 that no used LUN exceeds |
| LunAllocator.FreePosition | controllers/array_action/array_mediator_svc.py:1444-1446 | a free number is its index in the free list plus the number of used LUNs below it |
| SvcClone.CreateCliVolumeFromSnapshot | controllers/array_action/array_mediator_svc.py:755-768 | success: one new volume of that name in the group asked for and no temporary group; a handled fault rolled back: volumes and groups as before; what each other fault leaves; with no faults, exactly when each outcome occurs |
| SvcClone.FixCreationSideEffects | controllers/array_action/array_mediator_svc.py:755-758 | the volume ends named, in its group, the temporary group gone; no other volume touched even on a fault |
| SvcClone.Rollback | controllers/array_action/array_mediator_svc.py:2108-2110 | when its commands succeed, the volume and the temporary group are gone and nothing else |
| SvcClone.CreateCliVolumeFromVolume | controllers/array_action/array_mediator_svc.py:793-797 | the snapshots are as before exactly on success or if none could be taken; the clone as above |
| SvcSnapshots.CreateSnapshot | controllers/array_action/array_mediator_svc.py:1116-1124 | success: one new target and one new map, under way, nothing else; a rolled back fault leaves neither; a volume that had the name survives exactly unless a CLI fault was rolled back; other volumes and the maps between them never touched; with no faults it is made unless the name is taken |
| SvcSnapshots.RollbackCreateSnapshot | controllers/array_action/array_mediator_svc.py:1101-1114 | within five tries, success removes the target with its map and nothing else, failure leaves a part of that undone; with no faults it succeeds if the target has one map at most |
| SvcSnapshots.CreateAndStartFcMap | controllers/array_action/array_mediator_svc.py:990-1031 | on success the target's only map is under way, new if the target had none and otherwise the one from this source, and no other map changes; failure adds at most a map that is not under way and that the rollback takes away; with no faults, exactly when it succeeds |
| SvcExpand.SafeDeleteFcMaps | controllers/array_action/array_mediator_svc.py:1067-1080 | one map in use: nothing deleted, and only then refused; else exactly the maps not under remote copy are deleted, never any other; no failure without faults |
| SvcExpand.ConvertedSizeIsLeast | controllers/array_action/array_mediator_svc.py:654-659 | the size sent is the least multiple of 512 that reaches the request |
| SvcExpand.ExpandVolume | controllers/array_action/array_mediator_svc.py:605-624 | the volume ends at the converted size, or every volume is as before; when it is refused as smaller or blocked |
| SvcExpand.ControllerExpandVolume | controllers/servers/csi/csi_controller_server.py:462-492 | success never shrinks, reaches the request, and is the least multiple of 512 when it grows; large enough already means no change at all |
| VolumeGroups.GroupArray.ModifyVolumeGroupMembership | controllers/servers/csi/volume_group_server.py:131-164 | success is the reconciled array; a failure leaves each volume where it was or where the whole request puts it; a met request succeeds without any command; with no faults, exactly when it succeeds |
| VolumeGroups.GroupArray.AddVolumesMissingFromGroup | controllers/servers/csi/volume_group_server.py:89-97 | exactly the volumes of requested ids not yet members are moved in |
| VolumeGroups.GroupArray.RemoveVolumesMissingFromRequest | controllers/servers/csi/volume_group_server.py:99-111 | exactly the listed members that match no requested id are moved out |
| VolumeGroups.RequestedVolumesAreMembers | controllers/servers/csi/volume_group_server.py:89-97 | afterwards every requested volume is in the group under one of its two names |
| VolumeGroups.OtherVolumesAreRemoved | controllers/servers/csi/volume_group_server.py:99-111 | only requested volumes are left in the group if and only if there was no accidental hit and, where removed volumes go to the group itself, it had none but requested ones |
| VolumeGroups.NothingLeavesForTheGroupItself | controllers/servers/csi/volume_group_server.py:152-159 | where removed volumes go to the group itself, exactly the members and the added are in it afterwards |
| VolumeGroups.AccidentalHitExactly | controllers/servers/csi/volume_group_server.py:110-111 | the accidental hits of the substring test, character by character |
| VolumeGroups.SecondRequestIsMet | controllers/servers/csi/volume_group_server.py:131-164 | after reconciling, the same request is met, so it issues no add and no remove, if and only if removed volumes go elsewhere or every member matched |
| VolumeGroups.BystandersStay | controllers/servers/csi/volume_group_server.py:152-159 | volumes of other groups that are not requested stay where they are |
| VolumeIds.ScsiIdThroughNguid | controllers/array_action/utils.py:12-29 | a SCSI id converted to its NGUID and back loses its first character only |
| VolumeIds.NguidThroughScsiId | controllers/array_action/utils.py:12-29 | a NGUID survives the way back if and only if its filler character is the zero the conversion inserts |
| VolumeIds.NguidLayout | controllers/array_action/utils.py:12-19 | where each part of a SCSI id goes in its NGUID |
| VolumeIds.ContainsExactly | controllers/servers/csi/volume_group_server.py:110-111 | the substring test, for texts of any length |
| VolumeIds.ContainedMeansOwnNguid | controllers/servers/csi/volume_group_server.py:110-111 | when the substring test holds for ids of full length, all three cases |
| Text.SplitOfJoin | controllers/servers/utils.py:887-907 | splitting what was joined gives the parts back when none contains the separator |
| Text.NumeralRoundTrip | node/pkg/driver/node_utils.go:136-141 | a printed numeral reads back as its number, in every base from 2 to 16 |
| ObjectIds.PrintedIdsParseBack | controllers/servers/utils.py:465-474 | a printed id parses to its fields if and only if no field contains a delimiter that is not its own |
| ObjectIds.NodeReadsTheSameUid | node/pkg/driver/node_utils.go:735-744 | for every id the controller accepts the node agent finds the same strong id |
| ObjectIds.NodeResolvesPrintedIds | node/pkg/driver/node_utils.go:735-744 | what the controller prints for a volume the node agent resolves to its uid |
| ObjectIds.OldFormNamesTheSameVolume | controllers/servers/utils.py:887-907 | the id without its internal part is another text for the same volume |
| ObjectIds.OldFormReads | controllers/servers/utils.py:887-907 | such an id gives its type, system id and strong id, and no internal id |
| ObjectIds.AcceptedExactly | controllers/servers/utils.py:887-903 | accepted are exactly the texts with one or two delimiters and at most one of the other kind after the last |
| ObjectIds.ParsedIdsPrintBack | controllers/servers/utils.py:887-907 | the fields of any accepted text, printed again, are that text |
| PublishContext.GenerateCsiPublishVolumeResponse | controllers/servers/utils.py:927-960 | the loop builds the context the round trips are about |
| PublishContext.GetInfoFromPublishContext | node/pkg/driver/node_utils.go:128-178 | the loops read the information the round trips are about, and fail only on a LUN that is no number |
| PublishContext.FibreChannelRoundTrip | controllers/servers/utils.py:940-942 | Fibre Channel: type, LUN and ports come back if and only if there are ports and all are free of the separator |
| PublishContext.NvmeOverFcRoundTrip | controllers/servers/utils.py:955-958 | NVMe/FC: they come back if and only if each port is trimmed, not empty and free of the separator, the empty list included |
| PublishContext.TargetsRoundTrip | controllers/servers/utils.py:943-953 | iSCSI and RoCE: type, LUN, serial and the address list of every initiator come back if and only if names and addresses are free of the separator and no list is empty |
| PublishContext.SerialIsTheNamedEntry | controllers/servers/utils.py:944-948 | the serial is the value of the entry named ARRAY_SERIAL_PARAM, and empty without one |
| PublishContext.AtoiReadsSignedNumbers | node/pkg/driver/node_utils.go:136-141 | a number with or without a sign is read, and refused exactly beyond 64 bits |
| PublishContext.SpacesExactly | node/pkg/driver/node_utils.go:167-169 | the characters that trimming takes away |
| Text.NumeralsExactly | node/pkg/driver/node_utils.go:136-141 | what is a number: digits of the base, at least one, and nothing else |
| PublishContext.ShippedNamesAreDistinct | common/config.yaml:9-15 | the shipped parameter names satisfy what the round trips ask of a configuration |
| ScsiLun.ScsilunRoundTrip | controllers/array_action/ds8k_rest_client.py:9-47 | each 32-bit LUN survives the text, except k*65536 with k in 1..255, which gives k |
| ScsiLun.ScsilunRoundTripsExactly | controllers/array_action/ds8k_rest_client.py:9-47 | over all numbers, the exact condition |
| ScsiLun.SwapExchangesHalves | controllers/array_action/ds8k_rest_client.py:28-47 | the shift-and-mask expression exchanges the two half-words and drops what is above |
| ScsiLun.ShortLunIsTwoDigits | controllers/array_action/ds8k_rest_client.py:9-27 | a LUN below 256 prints as two lower-case hexadecimal digits |
| ScsiLun.LongLunIsNotPadded | controllers/array_action/ds8k_rest_client.py:25-28 | a greater one prints as the shortest numeral of its exchanged halves |
| Ds8kCache.CacheStaysTruthful | controllers/array_action/ds8k_volume_cache.py:15-38 | in every run of create, get and delete, one call after another, the cache is part of the live name-to-id map |
| Ds8kCacheProtocol.TruthfulExactlyWhenSerialised | controllers/array_action/array_mediator_ds8k.py:336-373 | with calls interleaved step by step, the cache is part of the live map between calls in every run if and only if calls on one name are serialised |
| Ds8kCacheProtocol.SerialCacheIsTruthful | controllers/array_action/array_mediator_ds8k.py:336-373 | serialised by name, a cached name that no call is at work on is a live volume's, whatever goes on elsewhere |
| Ds8kCacheProtocol.DeleteBetweenFindAndToggle | controllers/array_action/array_mediator_ds8k.py:356-373 | a run in which a delete between a get's lookup and its toggle leaves a dead id cached |
| Ds8kCacheProtocol.SerialLookupIsTheScan | controllers/array_action/array_mediator_ds8k.py:356-364 | serialised by name, a cached lookup between calls equals the pool scan under the same exact condition |
| Ds8kCache.CachedLookupIsTheScan | controllers/array_action/array_mediator_ds8k.py:356-364 | the cached lookup equals the pool scan if and only if the cached volume is not of another pool (or the fetch was in trouble) |
| Ds8kCache.FetchTwiceRestoresTheCache | controllers/array_action/array_mediator_ds8k.py:366-373 | two fetches find the same volume and leave the cache as it was |
| Ds8kMediators.Ds8kMediator.GetApiVolumeWithCache | controllers/array_action/array_mediator_ds8k.py:356-364 | is the cached lookup the lemmas are about, with or without trouble on the way; it raises without a scan only if the cached id is gone, and with no faults exactly then |
| Ds8kMediators.Ds8kMediator.GetVolume | controllers/array_action/array_mediator_ds8k.py:366-373 | is one step of the runs, on this array's cache only; however stale the cache, the volume returned has the requested name |
| Ds8kMediators.Ds8kMediator.CreateVolume | controllers/array_action/array_mediator_ds8k.py:268-273 | caches the new volume, or on failure caches nothing; with unique names a step of the runs |
| Ds8kMediators.Ds8kMediator.SafeDeleteFlashcopies | controllers/array_action/array_mediator_ds8k.py:321-334 | a relationship without background copy or out of sync: nothing deleted; else all of those passed and no other, if the commands succeed; no failure without faults |
| Ds8kMediators.Ds8kMediator.DeleteObject | controllers/array_action/array_mediator_ds8k.py:336-348 | done exactly when the volume is gone, with its cache entry, the relationships from it and the one onto it if it is the only one; relationships of other volumes stay in every outcome; a step of the runs |
| Ds8kMediators.VolumeCacheByAddress.AddOrDelete | controllers/array_action/ds8k_volume_cache.py:31-38 | toggles one entry of one address |
| SnapshotChooser.ChooseSnapshotGroupForAuto | controllers/array_action/santricity_client/automation/snapshots.py:70-143 | the best eligible group of the volume if there is one, else the best growable one under both limits, else nothing |
| SnapshotChooser.BestIsUnique | controllers/array_action/santricity_client/automation/snapshots.py:136-142 | with distinct references the best group is one group |
| SnapshotChooser.BestEligibleMeans | controllers/array_action/santricity_client/automation/snapshots.py:97-99 | the best eligible group has the most free bytes, then the fewest snapshots, then the last reference |
| SnapshotChooser.BestGrowableMeans | controllers/array_action/santricity_client/automation/snapshots.py:101-134 | among growable groups the fewest members count before the reference |
| SnapshotChooser.TextLessExactly | controllers/array_action/santricity_client/automation/snapshots.py:136-142 | references are compared character by character |
| SnapshotChooser.MinFreeBytesAreTheShare | controllers/array_action/santricity_client/automation/snapshots.py:89 | the least free room is the percentage asked for of the base volume, cut to whole bytes, and 0 without one |
| SnapshotChooser.BaseBytesAreTheVolumes | controllers/array_action/santricity_client/automation/snapshots.py:85-87 | the first capacity given, where positive, else available and used bytes together |
| SnapshotChooser.RepositoryPercentIsTheRatio | controllers/array_action/santricity_client/automation/snapshots.py:90-94 | the repository's capacity, or else available and used bytes, as a percentage of the base volume |
| SnapshotChooser.UtilizationIsTheLastListed | controllers/array_action/santricity_client/automation/snapshots.py:56-60 | the last record listed for the group, zeros without one |
| SnapshotChooser.RepositoryIsTheLastListed | controllers/array_action/santricity_client/automation/snapshots.py:61-65 | the last repository listed with the reference, none without one |
| SnapshotChooser.MembersAreCounted | controllers/array_action/santricity_client/automation/snapshots.py:104-114 | the first count given, where positive, else the length of the member list |
| SnapshotChooser.SortedHeadIsGreatest | controllers/array_action/santricity_client/automation/snapshots.py:136-142 | after the descending sort the first entry is one of the entries and none is greater |
| SnapshotAutomation.AutoCreateSnapshot | controllers/array_action/santricity_client/automation/snapshots.py:168-221 | success takes exactly one image, in the group chosen, grown or made, and makes a group only when neither route gave one; with no faults it fails only if a new group is needed and the array offers none |
| CreateVolumes.VolumeArray.CreateVolume | controllers/servers/csi/csi_controller_server.py:63-147 | an existing volume is never changed and decides the answer; a new one has an exact capacity, the source's if it is a clone, and its source's data under an exact condition; a failed one leaves nothing unless cleaning up failed too; with no faults, exactly when a new one is made |
| CreateVolumes.VolumeArray.MakeVolume | controllers/array_action/array_mediator_svc.py:900-916 | a clone with the capacity of its source where the array makes one, else a volume of the capacity granted |
| CreateVolumes.SourceRefusedExactly | controllers/servers/csi/csi_controller_server.py:80-103 | each refusal for the source, in terms of the request and the source |
| CreateVolumes.VolumeArray.SizeAskedFor | controllers/servers/csi/csi_controller_server.py:64-75 | zero means the least size, and no array grants less than is asked for |
| CreateVolumes.VolumeArray.CloneRefusedExactly | controllers/array_action/array_mediator_svc.py:849-916 | when an array clones, when it cannot, and which space efficiencies are refused |
| CreateVolumes.VolumeArray.CopyDoesExactly | controllers/array_action/array_mediator_ds8k.py:287-299 | what the controller's copy changes, array by array |
| CreateVolumes.VolumeArray.CreateVolumeTwice | controllers/servers/csi/csi_controller_server.py:63-147 | repeating a success never makes or copies anything; it succeeds if and only if the volume was there before or its mediator can tell its source; the answers differ if and only if the first call's copy enlarged the volume |
| CreateVolumes.EnlargedRepeat | controllers/array_action/array_mediator_ds8k.py:287-299 | a request whose repeated answer reports more bytes |
| CreateVolumes.RefusedRepeat | controllers/array_action/array_mediator_santricity.py:332-345 | a request whose success is refused when repeated |
| CreateVolumes.AnswerForExisting | controllers/servers/csi/csi_controller_server.py:120-192 | an existing volume is returned if and only if the request could have made it, and how it is refused otherwise |
| CreateVolumes.VolumeArray.CopyToExistingVolumeFromSource | controllers/array_action/array_mediator_abstract.py:91-116 | any failure removes the new volume unless deleting it failed; a missing source is never reported as such |

## Left out

- `NodeLockProtocol.EveryCallFinishes`: progress of a single thread; that a scheduler lets each thread move is assumed.
- `ConnectionPools.ConnectionPool.Drain`: creates, liveness tests and disconnects are taken to succeed; a disconnect that raises inside `__del__` is not caught there and would leave it early.
- `PublishContext.TargetsRoundTrip`: names that clash with a parameter name of the context are left out, as the property does; LUNs are taken to fit Go's 64-bit `int`.
- `LunAllocator.GetFreeLun`: the array is taken to print LUNs as plain decimal numerals; a failing host lookup is not part of the model. The random choice is any choice in its range.
- `SnapshotChooser.ChooseSnapshotGroupForAuto`: percentages are exact reals where the source uses floating point; fields that are no integers are read as 0 before the model starts.
- `ScsiLun.ScsilunRoundTrip`: the parser is the one for what the printer prints; the prefixes, blanks and underscores Python also accepts in hexadecimal text are not modelled.
- `Ds8kCache.CacheStaysTruthful`: unique names and no changes from outside are assumed, as the property says, and calls that do not overlap; `Ds8kCacheProtocol` has those that do. `create_snapshot` and `get_snapshot` act on the cache in the same ways and have no methods of their own here.
- `CreateVolumes.VolumeArray.CreateVolume`: the array's own errors on create or copy are one failure; names of space efficiency are taken in lower case; the volume-group checks of a create in a partition, topology registration and parameter parsing are not modelled.
- `CreateVolumes.VolumeArray.CopyToExistingVolumeFromSource`: SANtricity's mediator reports every failed deletion as a missing volume; here a fault is reported as a fault.
- SANtricity's substitution of the newest image for a snapshot group, and its second try without a RAID level.
- `ControllerServers.ControllerServer.ControllerPublishVolume`: the partition check before it and the answer codes are not modelled; host definitions do not change. The array ports of a host are given with the host.
- `ControllerServers.ControllerServer.ControllerUnpublishVolume`: a SCSI id and the NGUID it converts to are taken to name one volume of the array, since over NVMe/FC the lookup is by the second.
- `SvcArrays.SvcArray`: a command that fails after it has taken effect is not modelled, warnings aside; neither are pools, space efficiency, I/O groups and hyperswap.
- The commands of a clone inside a partition on SVC; its size check and its result are modelled.
- `get_agent` and its replacement of an agent whose password changed: a dictionary lookup under a lock.
- The non-blocking and timed forms of `get`: a wait may end with nothing at any time, which covers both.
- REST, SSH and CLI clients, authentication, gRPC and logging: only the effect of each command on the array is kept.
- Device discovery, mounting, formatting and multipath on the node; the host definer's watchers.
- array_connection_manager.py, the SolidFire and XIV mediators.
