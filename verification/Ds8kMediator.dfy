/** The DS8K mediator's create, get and delete, and the cache object they share. */
module Ds8kMediators {
  import opened Options
  import opened Ds8kCache

  class VolumeCacheByAddress {
    var entries: map<string, Cache>

    constructor ()
      ensures entries == map[]
    {
      entries := map[];
    }

    /** The dictionary of an address; an address without one has the empty dictionary. */
    function Of(address: string): Cache
      reads this
    {
      if address in entries then entries[address] else map[]
    }

    method Add(address: string, key: string, value: VolumeId)
      modifies this
      ensures Of(address) == old(Of(address))[key := value]
      ensures forall other :: other != address ==> Of(other) == old(Of(other))
    {
      entries := entries[address := Of(address)[key := value]];
    }

    method Remove(address: string, key: string)
      modifies this
      ensures Of(address) == Removed(old(Of(address)), key)
      ensures forall other :: other != address ==> Of(other) == old(Of(other))
    {
      if key in Of(address) {
        entries := entries[address := Of(address) - {key}];
      } else {
        assert Of(address) - {key} == Of(address);
      }
    }

    method Get(address: string, key: string) returns (value: Option<VolumeId>)
      ensures value == if key in Of(address) then Some(Of(address)[key]) else None
    {
      value := if key in Of(address) then Some(Of(address)[key]) else None;
    }

    method AddOrDelete(address: string, key: string, value: VolumeId)
      modifies this
      ensures Of(address) == Toggled(old(Of(address)), key, value)
      ensures forall other :: other != address ==> Of(other) == old(Of(other))
    {
      if key in Of(address) {
        entries := entries[address := Of(address) - {key}];
      } else {
        entries := entries[address := Of(address)[key := value]];
      }
    }
  }

  lemma SomeIdIsFree(ids: set<VolumeId>)
    ensures exists id: VolumeId :: id !in ids
  {
    var bound := AboveAll(ids);
    assert bound !in ids;
  }

  lemma AboveAll(ids: set<VolumeId>) returns (bound: VolumeId)
    ensures forall id :: id in ids ==> id < bound
    decreases |ids|
  {
    bound := 0;
    if ids != {} {
      var id :| id in ids;
      var rest := AboveAll(ids - {id});
      bound := if rest <= id then id + 1 else rest;
      assert forall other :: other in ids ==> other == id || other in ids - {id};
    }
  }

  type FlashCopyId = nat

  function Onto(flashcopies: map<FlashCopyId, FlashCopy>, v: VolumeId): set<FlashCopyId> {
    set f | f in flashcopies && flashcopies[f].target == v
  }

  /** The relationship `f`, and no other, is onto the volume. */
  predicate IsOnlyOnto(flashcopies: map<FlashCopyId, FlashCopy>, f: FlashCopyId, v: VolumeId) {
    Onto(flashcopies, v) == {f}
  }

  lemma TheOnlyOne(ids: set<FlashCopyId>, f: FlashCopyId)
    requires |ids| == 1 && f in ids
    ensures ids == {f}
  {
    assert |ids - {f}| == 0;
    assert ids == ids - {f} + {f};
  }

  /** Some of `ids` are gone, and everything else is as it was. */
  ghost predicate OnlyRemoved(
      before: map<FlashCopyId, FlashCopy>, after: map<FlashCopyId, FlashCopy>, ids: set<FlashCopyId>)
  {
    && (forall f :: f in after ==> f in before && after[f] == before[f])
    && forall f :: f in before && f !in ids ==> f in after
  }

  /** `background` is false for a snapshot; `outOfSync` while tracks are still to be copied. */
  datatype FlashCopy = FlashCopy(source: VolumeId, target: VolumeId, background: bool, outOfSync: bool)

  predicate Unsafe(f: FlashCopy) {
    !f.background || f.outOfSync
  }

  datatype Cleanup = Cleaned | StillInUse | CommandFailed

  datatype Deletion = Done | NotFound | InUse | Failed

  /** One mediator; the array is modelled by its volumes and FlashCopy relationships. */
  class Ds8kMediator {
    // Whether commands may fail for reasons outside this model.
    const faults: bool
    const address: string
    const cache: VolumeCacheByAddress
    var volumes: map<VolumeId, ApiVolume>
    var flashcopies: map<FlashCopyId, FlashCopy>

    constructor (faults: bool, address: string, cache: VolumeCacheByAddress, volumes: map<VolumeId, ApiVolume>)
      ensures this.faults == faults && this.address == address && this.cache == cache
      ensures this.volumes == volumes && flashcopies == map[]
    {
      this.faults, this.address, this.cache := faults, address, cache;
      this.volumes, flashcopies := volumes, map[];
    }

    ghost function View(): World
      reads this, cache
    {
      World(volumes, cache.Of(address))
    }

    /** Caches of other arrays are untouched. */
    twostate predicate OthersUnchanged()
      reads cache
    {
      forall other :: other != address ==> cache.Of(other) == old(cache.Of(other))
    }

    /** `_get_api_volume_by_name`. */
    method GetApiVolumeByName(name: string, pool: string) returns (r: Lookup)
      ensures IsScan(View(), name, pool, r)
    {
      var left := volumes.Keys;
      while left != {}
        invariant left <= volumes.Keys
        invariant forall v :: v in volumes && v !in left ==> volumes[v] != ApiVolume(name, pool)
        decreases |left|
      {
        var v :| v in left;
        if volumes[v].pool == pool && volumes[v].name == name {
          return Found(v);
        }
        left := left - {v};
      }
      r := Missing;
    }

    /** `_get_api_volume_with_cache`. */
    method GetApiVolumeWithCache(name: string, pool: string) returns (r: Lookup)
      ensures IsCachedLookup(View(), name, pool, false, r) || (faults && IsCachedLookup(View(), name, pool, true, r))
      // A stale entry stops the lookup, without a scan, exactly when its id is gone and the array answers.
      ensures r == Gone ==> name in cache.Of(address) && cache.Of(address)[name] !in volumes
      ensures !faults && name in cache.Of(address) && cache.Of(address)[name] !in volumes ==> r == Gone
    {
      var answered: bool := *;
      answered := answered || !faults;
      var cached := cache.Get(address, name);
      if cached.Some? && answered {
        if cached.value !in volumes {
          return Gone;
        }
        if volumes[cached.value].name == name {
          return Found(cached.value);
        }
      }
      r := GetApiVolumeByName(name, pool);
    }

    method GetVolume(name: string, pool: string) returns (r: Lookup)
      modifies cache
      ensures Fetched(old(View()), name, pool, r, View()) && OthersUnchanged()
      ensures !faults ==> IsCachedLookup(old(View()), name, pool, false, r)
      // However stale the cache is, a volume returned has the requested name.
      ensures r.Found? ==> r.v in volumes && volumes[r.v].name == name
    {
      r := GetApiVolumeWithCache(name, pool);
      if r.Found? {
        cache.AddOrDelete(address, volumes[r.v].name, r.v);
      }
    }

    /** `create_volume`; None stands for a refused command, or a failure to read the new volume back. */
    method CreateVolume(name: string, pool: string) returns (v: Option<VolumeId>)
      modifies this`volumes, cache
      ensures OthersUnchanged()
      ensures v.Some? ==>
        && v.value !in old(volumes) && volumes == old(volumes)[v.value := ApiVolume(name, pool)]
        && cache.Of(address) == old(cache.Of(address))[name := v.value]
      ensures v.None? ==> faults && cache.Of(address) == old(cache.Of(address))
      // With names kept unique it is a step of the runs considered there.
      ensures (forall u :: u in old(volumes) ==> old(volumes)[u].name != name) && View() != old(View()) ==>
        exists u :: Created(old(View()), name, pool, u, View())
    {
      var accepted: bool, reread: bool := *, *;
      if faults && !accepted {
        return None;
      }
      SomeIdIsFree(volumes.Keys);
      var id: VolumeId :| id !in volumes;
      volumes := volumes[id := ApiVolume(name, pool)];
      if reread || !faults {
        cache.Add(address, name, id);
        v := Some(id);
      } else {
        v := None;
      }
      assert (forall u :: u in old(volumes) ==> old(volumes)[u].name != name) ==>
          Created(old(View()), name, pool, id, View());
    }

    /**
     `_safe_delete_flashcopies`: every relationship passed is checked before any is deleted. One that is unsafe
     means nothing is deleted; otherwise all of them are, if the commands succeed.
     */
    method SafeDeleteFlashcopies(ids: seq<FlashCopyId>) returns (r: Cleanup)
      requires forall f :: f in ids ==> f in flashcopies
      modifies this`flashcopies
      // In use is a snapshot's relationship, or one that still has to copy.
      ensures r == StillInUse ==>
        && flashcopies == old(flashcopies)
        && exists f :: f in ids && (!flashcopies[f].background || flashcopies[f].outOfSync)
      ensures r == Cleaned ==>
        && flashcopies == old(flashcopies) - (set f | f in ids)
        && forall f :: f in ids ==> old(flashcopies)[f].background && !old(flashcopies)[f].outOfSync
      ensures (exists f :: f in ids && Unsafe(old(flashcopies)[f])) ==> flashcopies == old(flashcopies) && r != Cleaned
      ensures OnlyRemoved(old(flashcopies), flashcopies, set f | f in ids)
      ensures !faults ==> r != CommandFailed
    {
      for k := 0 to |ids|
        invariant forall f :: f in ids[..k] ==> !Unsafe(flashcopies[f])
      {
        var answered: bool := *;
        if faults && !answered {
          return CommandFailed;
        }
        if Unsafe(flashcopies[ids[k]]) {
          return StillInUse;
        }
      }
      assert ids[..|ids|] == ids;
      for k := 0 to |ids|
        invariant flashcopies == old(flashcopies) - (set f | f in ids[..k])
      {
        assert ids[..k + 1] == ids[..k] + [ids[k]];
        var accepted: bool := *;
        if faults && !accepted {
          return CommandFailed;
        }
        flashcopies := flashcopies - {ids[k]};
      }
      r := Cleaned;
    }

    /** The relationships from a volume, in some order, and the one onto it if there is exactly one. */
    method FlashcopiesOf(v: VolumeId) returns (asSource: seq<FlashCopyId>, asTarget: Option<FlashCopyId>)
      ensures forall f :: f in asSource <==> f in flashcopies && flashcopies[f].source == v
      ensures asTarget.Some? ==>
        && asTarget.value in flashcopies && flashcopies[asTarget.value].target == v
        && IsOnlyOnto(flashcopies, asTarget.value, v)
      ensures asTarget.None? ==> forall f :: !IsOnlyOnto(flashcopies, f, v)
    {
      asSource := [];
      var left := set f | f in flashcopies && flashcopies[f].source == v;
      while left != {}
        invariant left <= flashcopies.Keys
        invariant forall f :: f in asSource || f in left <==> f in flashcopies && flashcopies[f].source == v
        decreases |left|
      {
        var f :| f in left;
        left := left - {f};
        asSource := asSource + [f];
      }
      var onto := Onto(flashcopies, v);
      asTarget := None;
      if |onto| == 1 {
        var f :| f in onto;
        TheOnlyOne(onto, f);
        asTarget := Some(f);
      }
    }

    /**
     `_delete_object` for a volume: while a relationship from it is in use nothing at all changes; a failure leaves
     the volume and its cache entry in place; success removes both.
     */
    method DeleteObject(v: VolumeId) returns (r: Deletion)
      modifies this, cache
      ensures Deleted(old(View()), v, View()) && OthersUnchanged()
      ensures r == NotFound <==> v !in old(volumes)
      ensures r == InUse ==> flashcopies == old(flashcopies)
      ensures (exists f :: f in old(flashcopies) && old(flashcopies)[f].source == v && Unsafe(old(flashcopies)[f])) ==>
        r != Done && flashcopies == old(flashcopies)
      ensures r == Done <==> v in old(volumes) && v !in volumes
      // Relationships that have nothing to do with the volume stay; of its own, those from it and the only one onto it
      // may go, and all of them do on success.
      ensures OnlyRemoved(old(flashcopies), flashcopies,
                          set f | f in old(flashcopies)
                                  && (old(flashcopies)[f].source == v || IsOnlyOnto(old(flashcopies), f, v)))
      ensures r == Done ==>
        forall f :: f in flashcopies ==> flashcopies[f].source != v && !IsOnlyOnto(old(flashcopies), f, v)
      // When no command fails by itself, only a relationship in use stands in the way.
      ensures !faults ==> r != Failed
      ensures r == InUse ==> exists f :: f in flashcopies && flashcopies[f].source == v && Unsafe(flashcopies[f])
      ensures r == Done ==>
        && old(volumes)[v].name !in cache.Of(address)
        && forall f :: f in flashcopies ==> flashcopies[f].source != v
    {
      if v !in volumes {
        return NotFound;
      }
      hide Unsafe;
      var asSource, asTarget := FlashcopiesOf(v);
      var cleanup := SafeDeleteFlashcopies(asSource);
      if cleanup != Cleaned {
        return if cleanup == StillInUse then InUse else Failed;
      }
      assert forall f :: f in flashcopies ==> flashcopies[f].source != v;
      var targetGone: bool, volumeGone: bool := *, *;
      if asTarget.Some? && faults && !targetGone {
        return Failed;
      }
      flashcopies := if asTarget.Some? then flashcopies - {asTarget.value} else flashcopies;
      if faults && !volumeGone {
        return Failed;
      }
      var name := volumes[v].name;
      volumes := volumes - {v};
      cache.Remove(address, name);
      r := Done;
    }
  }
}
