/** Volume expansion on SVC, with the FlashCopy cleanup it needs first. */
module SvcExpand {
  import opened SvcArrays

  const BLOCK_SIZE_IN_BYTES := 512

  /** `_convert_size_bytes`. */
  function ConvertSizeBytes(size: nat): nat {
    var rest := size % BLOCK_SIZE_IN_BYTES;
    if rest > 0 then size - rest + 512 else size
  }

  /** It is the least multiple of the block size that reaches the request. */
  lemma ConvertedSizeIsLeast(size: nat, multiple: nat)
    ensures ConvertSizeBytes(size) >= size && ConvertSizeBytes(size) % BLOCK_SIZE_IN_BYTES == 0
    ensures multiple >= size && multiple % BLOCK_SIZE_IN_BYTES == 0 ==> multiple >= ConvertSizeBytes(size)
  {
    assert size == size / 512 * 512 + size % 512;
    assert multiple == multiple / 512 * 512 + multiple % 512;
  }

  datatype Cleanup = Cleaned | StillInUse | DeleteFailed

  /** A mapping that cleanup has to deal with and may not delete. */
  predicate InUse(m: FcMap) {
    !m.remote && (!m.done || !m.background)
  }

  function Deletable(maps: map<MapId, FcMap>, ids: seq<MapId>): set<MapId> {
    set m | m in ids && m in maps && !maps[m].remote
  }

  /**
   `_safe_delete_fcmaps`: it looks at every mapping before it deletes any. One in use means nothing is deleted;
   otherwise exactly those not under remote copy are, if the commands succeed.
   */
  method SafeDeleteFcMaps(a: SvcArray, ids: seq<MapId>) returns (r: Cleanup)
    requires a.Valid() && forall m :: m in ids ==> m in a.maps
    modifies a`maps
    ensures a.Valid()
    ensures r == StillInUse <==> exists m :: m in ids && InUse(old(a.maps)[m])
    ensures r == StillInUse ==> a.maps == old(a.maps)
    ensures r == Cleaned ==> a.maps == old(a.maps) - Deletable(old(a.maps), ids)
    ensures !a.faults && NoneTwice(ids) ==> r != DeleteFailed
    // A command that fails part-way has deleted nothing it should not have.
    ensures a.maps.Keys >= old(a.maps).Keys - Deletable(old(a.maps), ids)
    ensures forall m :: m in a.maps ==> m in old(a.maps) && a.maps[m] == old(a.maps)[m]
  {
    var toDelete, inUse := Classify(a, ids);
    if inUse != [] {
      assert inUse[0] in inUse;
      return StillInUse;
    }
    assert forall m :: m in ids ==> m !in inUse;
    ToDeleteIsDeletable(a.maps, ids, toDelete);
    hide Deletable, InUse, NoneTwice, IdSet;
    r := DeleteListed(a, toDelete);
  }

  lemma ToDeleteIsDeletable(maps: map<MapId, FcMap>, ids: seq<MapId>, toDelete: seq<MapId>)
    requires forall m :: m in ids ==> m in maps && !InUse(maps[m])
    requires forall m :: m in toDelete <==> m in ids && !maps[m].remote && !InUse(maps[m])
    ensures IdSet(toDelete) == Deletable(maps, ids)
  {
  }

  /** The first loop of the cleanup, which deletes nothing. */
  method Classify(a: SvcArray, ids: seq<MapId>) returns (toDelete: seq<MapId>, inUse: seq<MapId>)
    requires forall m :: m in ids ==> m in a.maps
    ensures forall m :: m in inUse <==> m in ids && InUse(a.maps[m])
    ensures forall m :: m in toDelete <==> m in ids && !a.maps[m].remote && !InUse(a.maps[m])
    ensures NoneTwice(ids) ==> NoneTwice(toDelete)
  {
    toDelete, inUse := [], [];
    for k := 0 to |ids|
      invariant forall m :: m in inUse <==> m in ids[..k] && InUse(a.maps[m])
      invariant forall m :: m in toDelete <==> m in ids[..k] && !a.maps[m].remote && !InUse(a.maps[m])
      invariant NoneTwice(ids) ==> NoneTwice(toDelete)
    {
      var m := a.maps[ids[k]];
      if !m.remote {
        if !m.done || !m.background {
          inUse := inUse + [ids[k]];
        } else {
          toDelete := toDelete + [ids[k]];
        }
      }
    }
    assert ids[..|ids|] == ids;
  }

  function IdSet(ids: seq<MapId>): set<MapId> {
    set m | m in ids
  }

  method DeleteListed(a: SvcArray, ids: seq<MapId>) returns (r: Cleanup)
    requires a.Valid() && forall m :: m in ids ==> m in a.maps
    modifies a`maps
    ensures a.Valid() && r != StillInUse
    ensures !a.faults && NoneTwice(ids) ==> r == Cleaned
    ensures r == Cleaned ==> a.maps == old(a.maps) - IdSet(ids)
    ensures a.maps.Keys >= old(a.maps).Keys - IdSet(ids)
    ensures forall m :: m in a.maps ==> m in old(a.maps) && a.maps[m] == old(a.maps)[m]
  {
    for k := 0 to |ids|
      invariant a.Valid() && a.maps == old(a.maps) - IdSet(ids[..k])
    {
      assert ids[..k + 1] == ids[..k] + [ids[k]];
      var answer := a.RmFcMap(ids[k]);
      if answer != Accepted {
        return DeleteFailed;
      }
    }
    assert ids[..|ids|] == ids;
    r := Cleaned;
  }

  ghost predicate IsOnlyMapOnto(maps: map<MapId, FcMap>, v: VolumeId, m: MapId) {
    forall k :: k in maps && maps[k].target == v ==> k == m
  }

  /** `_get_object_fcmaps`: the mapping onto the volume if there is exactly one, and those from it. */
  ghost predicate ObjectFcMaps(a: SvcArray, v: VolumeId, ids: seq<MapId>)
    reads a
  {
    forall m :: m in ids <==>
                  && m in a.maps
                  && (a.maps[m].source == v || (a.maps[m].target == v && IsOnlyMapOnto(a.maps, v, m)))
  }

  predicate NoneTwice(ids: seq<MapId>) {
    forall j, k :: 0 <= j < k < |ids| ==> ids[j] != ids[k]
  }

  datatype Expansion = Expanded | SmallerThanCurrent | Blocked | Failed

  /** `expand_volume`. A refused or failed expansion leaves every volume as it was. */
  method ExpandVolume(a: SvcArray, v: VolumeId, fcmaps: seq<MapId>, requiredBytes: nat, partition: bool)
    returns (r: Expansion)
    requires a.Valid() && v in a.volumes && ObjectFcMaps(a, v, fcmaps)
    modifies a`volumes, a`maps
    ensures a.Valid()
    ensures r == SmallerThanCurrent <==> ConvertSizeBytes(requiredBytes) < old(a.volumes)[v].capacity
    ensures r == Blocked ==> a.maps == old(a.maps)
    ensures r == Blocked <==>
      && r != SmallerThanCurrent && !partition && exists m :: m in fcmaps && InUse(old(a.maps)[m])
    ensures r == Expanded ==>
      a.volumes == old(a.volumes)[v := old(a.volumes)[v].(capacity := ConvertSizeBytes(requiredBytes))]
    ensures r != Expanded ==> a.volumes == old(a.volumes)
    ensures !a.faults && NoneTwice(fcmaps) ==> r != Failed
    ensures r == Expanded && !partition ==> a.maps == old(a.maps) - Deletable(old(a.maps), fcmaps)
    ensures partition ==> a.maps == old(a.maps)
    ensures a.maps.Keys >= old(a.maps).Keys - Deletable(old(a.maps), fcmaps)
  {
    var currentSize := a.volumes[v].capacity;
    var finalSize := ConvertSizeBytes(requiredBytes);
    if finalSize < currentSize {
      return SmallerThanCurrent;
    }
    var increase := finalSize - currentSize;
    if !partition {
      var cleanup := SafeDeleteFcMaps(a, fcmaps);
      if cleanup != Cleaned {
        return if cleanup == StillInUse then Blocked else Failed;
      }
    }
    var answer := a.Resize(v, if partition then finalSize else currentSize + increase);
    r := if answer == Accepted then Expanded else Failed;
  }

  datatype Response = Success(capacity: nat, nodeExpansionRequired: bool) | OutOfRange | Error(expansion: Expansion)

  /**
   `ControllerExpandVolume` for a volume that exists. Success means the volume has at least the requested size and
   never less than before; a volume that is large enough already is left alone, so repeating a call is harmless.
   */
  method ControllerExpandVolume(
      a: SvcArray, v: VolumeId, fcmaps: seq<MapId>, requiredBytes: nat, maxSize: nat, partition: bool)
    returns (r: Response)
    requires a.Valid() && v in a.volumes && ObjectFcMaps(a, v, fcmaps)
    modifies a`volumes, a`maps
    ensures a.Valid() && v in a.volumes
    ensures r.Success? ==>
      && r.capacity == a.volumes[v].capacity >= requiredBytes
      && a.volumes[v].capacity >= old(a.volumes)[v].capacity
      && a.volumes == old(a.volumes)[v := old(a.volumes)[v].(capacity := r.capacity)]
    ensures r.Success? && r.capacity != old(a.volumes)[v].capacity ==>
      && r.capacity % 512 == 0
      && forall c: nat :: c % 512 == 0 && c >= requiredBytes ==> c >= r.capacity
    ensures old(a.volumes)[v].capacity >= requiredBytes ==>
      r == Success(old(a.volumes)[v].capacity, false) && a.volumes == old(a.volumes) && a.maps == old(a.maps)
    ensures r.Success? ==> (r.nodeExpansionRequired <==> old(a.volumes)[v].capacity < requiredBytes)
    ensures !r.Success? ==> a.volumes == old(a.volumes)
    ensures !a.faults && NoneTwice(fcmaps) ==> r != Error(Failed)
    ensures r.OutOfRange? <==> requiredBytes > maxSize && old(a.volumes)[v].capacity < requiredBytes
  {
    var before := a.volumes[v].capacity;
    if before >= requiredBytes {
      return Success(before, false);
    }
    if requiredBytes > maxSize {
      return OutOfRange;
    }
    var expansion := ExpandVolume(a, v, fcmaps, requiredBytes, partition);
    if expansion != Expanded {
      return Error(expansion);
    }
    forall c: nat ensures c % 512 == 0 && c >= requiredBytes ==> c >= ConvertSizeBytes(requiredBytes) {
      ConvertedSizeIsLeast(requiredBytes, c);
    }
    ConvertedSizeIsLeast(requiredBytes, 0);
    r := Success(a.volumes[v].capacity, true);
  }
}
