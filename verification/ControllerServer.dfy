/**
 `ControllerPublishVolume` and `ControllerUnpublishVolume` as served: under the lock of the volume id in the request,
 while any number of other threads serve other requests.
 */
module ControllerServers {
  import opened Options
  import opened VolumeIds
  import opened ControllerLocks
  import opened PublishProtocol
  import opened ArrayMediators

  class ControllerServer {
    const mediator: ArrayMediator
    const ids: IdsInUse

    constructor (mediator: ArrayMediator, ids: IdsInUse)
      ensures this.mediator == mediator && this.ids == ids
    {
      this.mediator, this.ids := mediator, ids;
    }

    /** Thread `i` is free, and the request's volume id names the array's volume `id`, if the array has it. */
    ghost predicate Ready(i: nat, volumeId: Id, id: string)
      reads this, mediator, ids
    {
      && mediator.ids == ids && mediator.Valid() && mediator.Names(volumeId, id)
      && i < |mediator.state.threads| && mediator.state.threads[i] == Idle
    }

    /**
     `ControllerPublishVolume`; None stands for ABORTED, which is the answer exactly if the id is in use. Whatever the
     other threads do meanwhile, what becomes of the volume is what publishing does to it when nobody interferes.
     */
    method ControllerPublishVolume(ghost i: nat, volumeId: Id, id: string, node: Initiators, exclusive: bool)
      returns (r: Option<PublishResult>)
      requires Ready(i, volumeId, id) && (exclusive || mediator.state.sharing)
      modifies mediator, ids
      ensures Ready(i, volumeId, id) && mediator.Reached(i, Idle)
      ensures r.None? <==> volumeId in old(mediator.state).locks
      ensures r.None? ==> mediator.mappings == old(mediator.mappings) && mediator.commands == old(mediator.commands)
      ensures r.Some? ==> volumeId !in mediator.state.locks
      ensures r.Some? ==>
        PublishOutcome(mediator.hosts, mediator.state.uids, mediator.maxLunRetries, old(mediator.mappings),
                       mediator.mappings, old(mediator.commands), mediator.commands, id, node, exclusive, r.value)
      ensures r == Some(MappingFailed) ==> mediator.faults
      ensures r == Some(LunAlreadyInUse) ==> mediator.contended
      ensures r.Some? && OneIdPerVolume(mediator.state.uids) && !mediator.state.sharing ==>
        AllAtMostOne(mediator.mappings)
    {
      hide IsRun, Move, OneIdPerVolume, PublishOutcome, Matches, Choose;
      var entered := ids.Enter(VOLUME_ID, volumeId);
      if !entered {
        return None;
      }
      Locked(i, volumeId, Reading(volumeId, exclusive));
      var result := HandlePublish(i, volumeId, id, node, exclusive);
      Release(i, volumeId);
      r := Some(result);
    }

    /** The call itself, under the lock. */
    method HandlePublish(ghost i: nat, ghost volumeId: Id, id: string, node: Initiators, exclusive: bool)
      returns (r: PublishResult)
      requires mediator.ids == ids && mediator.Valid() && mediator.Names(volumeId, id)
      requires i < |mediator.state.threads| && mediator.state.threads[i] == Reading(volumeId, exclusive)
      modifies mediator, ids
      ensures mediator.Valid() && mediator.Reached(i, Leaving(volumeId, Answer(r)))
      ensures (r.MappingFailed? ==> mediator.faults) && (r.LunAlreadyInUse? ==> mediator.contended)
      ensures PublishOutcome(mediator.hosts, mediator.state.uids, mediator.maxLunRetries, old(mediator.mappings),
                             mediator.mappings, old(mediator.commands), mediator.commands, id, node, exclusive, r)
    {
      hide IsRun, Move, OneIdPerVolume, PublishOutcome, Matches, Choose;
      ghost var first, own := mediator.mappings, mediator.state.uids[volumeId];
      mediator.Yield(i);
      ghost var before := mediator.mappings;
      SameKeysResolve(first, before, id);
      r := mediator.MapVolumeByInitiators(i, id, node, exclusive);
      ghost var after := mediator.mappings;
      mediator.Yield(i);
      OutcomeCarries(mediator.hosts, mediator.state.uids, mediator.maxLunRetries, first, before, after,
                     mediator.mappings, old(mediator.commands), mediator.commands, id, node, exclusive, r, own);
    }

    /** The id has just been entered. */
    ghost method Locked(i: nat, volumeId: Id, p: Point)
      requires mediator.ids == ids && IsRun(mediator.run) && mediator.run[|mediator.run| - 1] == mediator.state
      requires mediator.state.mappings == mediator.mappings && mediator.state.retries == mediator.maxLunRetries
      requires i < |mediator.state.threads| && mediator.state.threads[i] == Idle
      requires volumeId in mediator.state.uids && volumeId !in mediator.state.locks
      requires ids.At(VOLUME_ID) == mediator.state.locks.Keys + {volumeId}
      requires p == Unmapping(volumeId) || (p.Reading? && p.id == volumeId && (p.exclusive || mediator.state.sharing))
      modifies mediator`state, mediator`run
      ensures mediator.Valid() && mediator.Reached(i, p)
      ensures mediator.state.locks == old(mediator.state).locks[volumeId := i]
    {
      mediator.Record(i, mediator.state.locks[volumeId := i], p);
    }

    /** Leaving the `with` block. */
    method Release(ghost i: nat, volumeId: Id)
      requires mediator.ids == ids && mediator.Valid() && i < |mediator.state.threads|
      requires mediator.state.threads[i].Leaving? && mediator.state.threads[i].id == volumeId
      modifies mediator`state, mediator`run, ids
      ensures mediator.Valid() && mediator.Reached(i, Idle) && volumeId !in mediator.state.locks
      ensures !mediator.state.sharing && OneIdPerVolume(mediator.state.uids) ==> AllAtMostOne(mediator.mappings)
    {
      ids.Exit(VOLUME_ID, volumeId);
      mediator.Record(i, mediator.state.locks - {volumeId}, Idle);
      RunInv(mediator.run, |mediator.run| - 1);
    }

    /**
     `ControllerUnpublishVolume`; `ok` is whether a mapping was removed. A SCSI id and the NGUID it converts to are
     taken to be names of one volume.
     */
    method ControllerUnpublishVolume(ghost i: nat, volumeId: Id, id: string, node: Initiators)
      returns (ok: Option<bool>)
      requires Ready(i, volumeId, id) && mediator.Names(volumeId, ConvertScsiIdToNguid(id))
      modifies mediator, ids
      ensures Ready(i, volumeId, id) && mediator.Reached(i, Idle) && mediator.commands == old(mediator.commands)
      ensures ok.None? <==> volumeId in old(mediator.state).locks
      ensures ok.None? ==> mediator.mappings == old(mediator.mappings)
      ensures ok.Some? ==> volumeId !in mediator.state.locks
      ensures ok.Some? && OneIdPerVolume(mediator.state.uids) && mediator.state.uids[volumeId] in mediator.mappings ==>
        var v := mediator.state.uids[volumeId];
        UnpublishEffect(mediator.hosts, old(mediator.mappings), v, mediator.mappings[v], id, node, mediator.faults,
                        ok.value)
    {
      hide IsRun, Move, OneIdPerVolume, UnpublishEffect, Matches, Choose;
      var entered := ids.Enter(VOLUME_ID, volumeId);
      if !entered {
        return None;
      }
      Locked(i, volumeId, Unmapping(volumeId));
      var removed := HandleUnpublish(i, volumeId, id, node);
      Release(i, volumeId);
      ok := Some(removed);
    }

    method HandleUnpublish(ghost i: nat, ghost volumeId: Id, id: string, node: Initiators) returns (ok: bool)
      requires mediator.ids == ids && mediator.Valid()
      requires mediator.Names(volumeId, id) && mediator.Names(volumeId, ConvertScsiIdToNguid(id))
      requires i < |mediator.state.threads| && mediator.state.threads[i] == Unmapping(volumeId)
      modifies mediator, ids
      ensures mediator.Valid() && mediator.Reached(i, Leaving(volumeId, None))
      ensures mediator.commands == old(mediator.commands)
      ensures OneIdPerVolume(mediator.state.uids) && mediator.state.uids[volumeId] in mediator.mappings ==>
        var v := mediator.state.uids[volumeId];
        UnpublishEffect(mediator.hosts, old(mediator.mappings), v, mediator.mappings[v], id, node, mediator.faults, ok)
    {
      hide IsRun, Move, OneIdPerVolume, UnpublishEffect, Matches, Choose;
      ghost var locked := mediator.mappings;
      mediator.Yield(i);
      SameKeysResolve(locked, mediator.mappings, id);
      SameKeysResolve(locked, mediator.mappings, ConvertScsiIdToNguid(id));
      ghost var before := mediator.mappings;
      ok := mediator.UnmapVolumeByInitiators(i, id, node);
      mediator.Yield(i);
      if OneIdPerVolume(mediator.state.uids) && mediator.state.uids[volumeId] in mediator.mappings {
        ghost var v := mediator.state.uids[volumeId];
        SameEffect(mediator.hosts, before, locked, v, mediator.mappings[v], id, node, mediator.faults, ok);
      }
    }

    /**
     Publishing again for exclusive access, when nobody was served in between: the same answer, no map command, and
     the volume as it was.
     */
    method PublishTwice(ghost i: nat, volumeId: Id, id: string, node: Initiators)
      returns (first: Option<PublishResult>, second: Option<PublishResult>,
               ghost commands: seq<Volume>, ghost mapped: Mappings)
      requires Ready(i, volumeId, id) && OneIdPerVolume(mediator.state.uids)
      modifies mediator, ids
      ensures first.Some? && first.value.Published? ==>
        && second == first && mediator.commands == commands
        && Resolve(mediator.mappings, id).Some? && mediator.mappings[Resolve(mediator.mappings, id).value] == mapped
        && |mapped| == 1 && first.value.lun in mapped.Values
      ensures |commands| <= |old(mediator.commands)| + Tries(mediator.maxLunRetries)
    {
      hide IsRun, OneIdPerVolume, PublishEffect, Matches, Choose;
      ghost var before := mediator.mappings;
      first := ControllerPublishVolume(i, volumeId, id, node, true);
      commands, mapped := mediator.commands, map[];
      if first.Some? && first.value.Published? {
        ghost var v := Resolve(mediator.mappings, id).value;
        mapped := mediator.mappings[v];
        SameKeysResolve(before, mediator.mappings, id);
        PublishedAnswers(mediator.hosts, before[v], mapped, node, true, first.value);
        ghost var h :| Answers(mediator.hosts, mapped, node, h, first.value);
        PublishedToOneHost(mediator.hosts, before[v], mapped, node, h, first.value);
        second := ControllerPublishVolume(i, volumeId, id, node, true);
        MappedAlreadyAnswers(mediator.hosts, mapped, mediator.mappings[v], node, true, h, second.value);
      } else {
        second := ControllerPublishVolume(i, volumeId, id, node, true);
      }
    }
  }

  /** The effect is on the one volume, so the others' mappings do not matter to it. */
  lemma SameEffect(hosts: map<Host, HostRecord>, a: map<Volume, Mappings>, b: map<Volume, Mappings>, v: Volume,
                   after: Mappings, id: string, node: Initiators, faults: bool, ok: bool)
    requires UnpublishEffect(hosts, a, v, after, id, node, faults, ok) && a.Keys == b.Keys && v in b && a[v] == b[v]
    requires Resolve(a, id).Some? ==> Resolve(a, id).value == v
    requires Resolve(a, ConvertScsiIdToNguid(id)).Some? ==> Resolve(a, ConvertScsiIdToNguid(id)).value == v
    ensures UnpublishEffect(hosts, b, v, after, id, node, faults, ok)
  {
    hide Matches, Choose;
    forall h | h in hosts
      ensures Resolve(a, UnmapId(hosts[h], id)) == Resolve(b, UnmapId(hosts[h], id))
    {
      SameKeysResolve(a, b, UnmapId(hosts[h], id));
    }
  }
}
