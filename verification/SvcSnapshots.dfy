/** Creating a snapshot on SVC: a target volume and a FlashCopy mapping onto it, rolled back on a CLI fault. */
module SvcSnapshots {
  import opened Options
  import opened SvcArrays

  datatype SnapshotResult =
    | Made(v: VolumeId, m: MapId)
    | Refused         // the array declined to create the target; nothing is rolled back
    | RolledBack      // a CLI fault, and the rollback went through
    | RollbackFailed  // a CLI fault, and five attempts at the rollback failed

  const ROLLBACK_TRIES := 5

  /** The mapping `FC_id` names, if the volume is in exactly one. */
  method FcIdOf(a: SvcArray, v: VolumeId) returns (m: Option<MapId>, many: bool)
    requires a.Valid()
    ensures m.Some? ==> m.value in a.maps && MapsOf(a.maps, v) == {m.value} && !many
    ensures many ==> MapsOf(a.maps, v) != {} && forall k :: MapsOf(a.maps, v) != {k}
    ensures m.None? && !many ==> MapsOf(a.maps, v) == {}
  {
    var ids := MapsOf(a.maps, v);
    m, many := None, false;
    if ids != {} {
      var one :| one in ids;
      if ids == {one} {
        m := Some(one);
      } else {
        many := true;
      }
    }
  }

  /** `v` is the volume of this name, or no volume at all if none has it. */
  ghost predicate IsTarget(volumes: map<VolumeId, CliVolume>, name: string, v: VolumeId) {
    forall w :: w in volumes ==> (volumes[w].name == name <==> w == v)
  }

  function Unmapped(maps: map<MapId, FcMap>, v: VolumeId): map<MapId, FcMap> {
    maps - MapsOf(maps, v)
  }

  /** The target is there or gone, its mappings are there or gone, and nothing else has changed. */
  ghost predicate OnlyTargetShrank(a: SvcArray, v: VolumeId, volumes: map<VolumeId, CliVolume>, maps: map<MapId, FcMap>)
    reads a
  {
    && (a.volumes == volumes || a.volumes == volumes - {v})
    && (a.maps == maps || a.maps == Unmapped(maps, v))
  }

  /** One attempt of `_rollback_create_snapshot`: the mapping of the target first, then the target. */
  method RollbackOnce(a: SvcArray, name: string, ghost v: VolumeId) returns (ok: bool)
    requires a.Valid() && IsTarget(a.volumes, name, v)
    modifies a`volumes, a`maps
    ensures a.Valid() && OnlyTargetShrank(a, v, old(a.volumes), old(a.maps))
    ensures ok ==> a.volumes == old(a.volumes) - {v} && a.maps == Unmapped(old(a.maps), v)
    ensures !a.faults && (MapsOf(old(a.maps), v) == {} || HasOnlyMap(old(a.maps), v)) ==> ok
  {
    IsTheTarget(a.volumes, name, v);
    assert v !in a.volumes ==> MapsOf(a.maps, v) == {};
    hide MapsOf, IsTarget;
    ok := false;
    var answered: bool := *;
    if answered || !a.faults {
      var found := a.FindByName(name);
      if found.None? {
        return true;
      }
      var m, many := FcIdOf(a, found.value);
      var answer := Fault;
      if m.Some? {
        OneMapLess(a.maps, m.value, found.value);
        answer := a.RmFcMap(m.value);
      }
      if answer == Accepted || (m.None? && !many) {
        answer := a.RmVolume(found.value);
        ok := answer == Accepted;
      }
    }
  }

  lemma OneMapLess(maps: map<MapId, FcMap>, m: MapId, v: VolumeId)
    ensures MapsOf(maps, v) == {m} ==> MapsOf(maps - {m}, v) == {}
  {
    assert MapsOf(maps - {m}, v) == MapsOf(maps, v) - {m};
  }

  /** `_rollback_create_snapshot`, tried up to five times. */
  method RollbackCreateSnapshot(a: SvcArray, name: string, ghost v: VolumeId) returns (ok: bool, ghost tries: nat)
    requires a.Valid() && IsTarget(a.volumes, name, v)
    modifies a`volumes, a`maps
    ensures a.Valid() && OnlyTargetShrank(a, v, old(a.volumes), old(a.maps))
    ensures ok ==> a.volumes == old(a.volumes) - {v} && a.maps == Unmapped(old(a.maps), v)
    ensures !a.faults && (MapsOf(old(a.maps), v) == {} || HasOnlyMap(old(a.maps), v)) ==> ok
    ensures 0 < tries <= 5 && (!ok ==> tries == 5)
  {
    ok, tries := false, 0;
    for k := 0 to ROLLBACK_TRIES
      invariant tries == k
      invariant a.Valid() && !ok && OnlyTargetShrank(a, v, old(a.volumes), old(a.maps))
      invariant k > 0 && !a.faults ==> MapsOf(old(a.maps), v) != {} && !HasOnlyMap(old(a.maps), v)
    {
      ghost var volumes, maps := a.volumes, a.maps;
      ok := RollbackOnce(a, name, v);
      tries := tries + 1;
      UnmappedTwice(old(a.maps), v);
      assert volumes - {v} == old(a.volumes) - {v};
      if ok {
        return;
      }
    }
  }

  lemma UnmappedTwice(maps: map<MapId, FcMap>, v: VolumeId)
    ensures Unmapped(Unmapped(maps, v), v) == Unmapped(maps, v)
  {
  }

  /** One more map onto a target. */
  lemma OneMoreMap(maps: map<MapId, FcMap>, id: MapId, m: FcMap)
    requires id !in maps
    ensures MapsOf(maps[id := m], m.target) == MapsOf(maps, m.target) + {id}
    ensures Unmapped(maps[id := m], m.target) == Unmapped(maps, m.target)
  {
  }

  lemma MappedHasMaps(maps: map<MapId, FcMap>, source: VolumeId, target: VolumeId)
    ensures Mapped(maps, source, target) ==> MapsOf(maps, target) != {}
  {
    if m :| m in maps && maps[m].source == source && maps[m].target == target {
      assert m in MapsOf(maps, target);
    }
  }

  ghost predicate HasOnlyMap(maps: map<MapId, FcMap>, v: VolumeId) {
    exists k :: MapsOf(maps, v) == {k}
  }

  /** `after` is `before`, perhaps with new maps onto the target, none of them started. */
  ghost predicate OnlyUnstartedAdded(before: map<MapId, FcMap>, after: map<MapId, FcMap>, target: VolumeId) {
    && (forall m :: m in before ==> m in after && after[m] == before[m])
    && forall m :: m in after && m !in before ==> after[m].target == target && !after[m].started
  }

  /**
   `_create_and_start_fcmap`; an existing mapping and a copy already under way count as success. The mapping started
   is the target's only one: a new one if it had none, else one that was there already. No other mapping changes, and
   where it fails a new mapping is not under way.
   */
  method CreateAndStartFcMap(a: SvcArray, source: VolumeId, target: VolumeId, background: bool)
    returns (m: Option<MapId>)
    requires a.Valid() && source in a.volumes && target in a.volumes
    modifies a`maps, a`nextId
    ensures a.Valid()
    ensures m.Some? ==> m.value in a.maps && MapsOf(a.maps, target) == {m.value} && a.maps[m.value].started
    ensures m.Some? && MapsOf(old(a.maps), target) == {} ==>
      && m.value !in old(a.maps)
      && a.maps == old(a.maps)[m.value := FcMap(source, target, false, background, false, true)]
    ensures m.Some? && MapsOf(old(a.maps), target) != {} ==>
      && m.value in old(a.maps) && old(Mapped(a.maps, source, target))
      && a.maps == old(a.maps)[m.value := old(a.maps)[m.value].(started := true)]
    ensures m.None? ==> OnlyUnstartedAdded(old(a.maps), a.maps, target)
    ensures Unmapped(a.maps, target) == Unmapped(old(a.maps), target)
    ensures !a.faults ==>
      (m.Some? <==> MapsOf(old(a.maps), target) == {}
                    || (old(Mapped(a.maps, source, target)) && HasOnlyMap(old(a.maps), target)))
  {
    MappedHasMaps(a.maps, source, target);
    NewMapStarts(a.maps, a.nextId, FcMap(source, target, false, background, false, false));
    hide MapsOf, Unmapped, Mapped, OnlyUnstartedAdded, HasOnlyMap;
    var answer := a.MkFcMap(source, target, background);
    m := None;
    if answer == Accepted || answer == AlreadyExists {
      m := StartOnlyMap(a, target);
    }
  }

  /** What a new map changes, not started and, where it is the target's only one, started. */
  lemma NewMapStarts(maps: map<MapId, FcMap>, id: MapId, m: FcMap)
    requires !m.started
    ensures OnlyUnstartedAdded(maps, maps, m.target)
    ensures id !in maps ==>
      var made := maps[id := m];
      && OnlyUnstartedAdded(maps, made, m.target) && Unmapped(made, m.target) == Unmapped(maps, m.target)
      && MapsOf(made, m.target) == MapsOf(maps, m.target) + {id}
      && (HasOnlyMap(made, m.target) <==> MapsOf(maps, m.target) == {})
      && (forall k :: MapsOf(made, m.target) == {k} ==> k == id)
      && made[id := made[id].(started := true)] == maps[id := m.(started := true)]
  {
    if id !in maps {
      OneMoreMap(maps, id, m);
      assert id !in MapsOf(maps, m.target);
      hide MapsOf, Unmapped;
      OnlyOneIsNew(MapsOf(maps, m.target), id);
      assert MapsOf(maps, m.target) == {} ==> MapsOf(maps[id := m], m.target) == {id};
    }
  }

  /** The target's `FC_id` is looked up, and that map started. */
  method StartOnlyMap(a: SvcArray, target: VolumeId) returns (m: Option<MapId>)
    requires a.Valid()
    modifies a`maps
    ensures a.Valid()
    ensures m.Some? ==>
      && m.value in old(a.maps) && MapsOf(old(a.maps), target) == {m.value}
      && a.maps == old(a.maps)[m.value := old(a.maps)[m.value].(started := true)]
    ensures m.None? ==> a.maps == old(a.maps)
    ensures MapsOf(a.maps, target) == MapsOf(old(a.maps), target)
    ensures Unmapped(a.maps, target) == Unmapped(old(a.maps), target)
    ensures !a.faults ==> (m.Some? <==> HasOnlyMap(old(a.maps), target))
  {
    var id, many := FcIdOf(a, target);
    if id.Some? {
      StartedKeepsMaps(a.maps, id.value, target);
    }
    hide MapsOf, Unmapped;
    var started := a.StartFcMap(id);
    m := if started == Accepted then id else None;
  }

  /** Starting a map does not change whose maps there are. */
  lemma StartedKeepsMaps(maps: map<MapId, FcMap>, m: MapId, v: VolumeId)
    requires m in maps
    ensures var after := maps[m := maps[m].(started := true)];
      && MapsOf(after, v) == MapsOf(maps, v)
      && (m in MapsOf(maps, v) ==> Unmapped(after, v) == Unmapped(maps, v))
  {
  }

  lemma OnlyOneIsNew(ids: set<MapId>, id: MapId)
    ensures ids == {} ==> ids + {id} == {id}
    ensures forall k :: id !in ids && ids + {id} == {k} ==> ids == {}
  {
    forall k | id !in ids && ids + {id} == {k} ensures ids == {} {
      assert id in ids + {id};
      assert forall other :: other in ids ==> other in ids + {id};
    }
  }

  /**
   `_create_snapshot`. When no volume has the name, a handled CLI fault leaves neither target nor mapping. When
   one does, it survives the array's "already exists" answer; but after a plain CLI fault the rollback removes
   it, since it looks its target up by name.
   */
  method CreateSnapshot(a: SvcArray, name: string, source: VolumeId) returns (r: SnapshotResult, ghost tries: nat)
    requires a.Valid() && source in a.volumes
    modifies a`volumes, a`maps, a`nextId
    ensures a.Valid()
    ensures r.Made? ==>
      && !old(a.Exists(name)) && r.v !in old(a.volumes) && r.m !in old(a.maps)
      && a.volumes == old(a.volumes)[r.v := CliVolume(name, "", old(a.volumes)[source].capacity)]
      && a.maps == old(a.maps)[r.m := FcMap(source, r.v, false, false, false, true)]
    ensures r.Refused? ==> a.volumes == old(a.volumes) && a.maps == old(a.maps)
    ensures r.RolledBack? && !old(a.Exists(name)) ==> a.volumes == old(a.volumes) && a.maps == old(a.maps)
    // A volume that already had the name is lost, with its mappings, exactly when a CLI fault was rolled back.
    ensures forall v :: v in old(a.volumes) && old(a.volumes)[v].name == name && r.RolledBack? ==>
      a.volumes == old(a.volumes) - {v} && a.maps == Unmapped(old(a.maps), v)
    ensures old(a.Exists(name)) && !r.RollbackFailed? ==> (a.Exists(name) <==> !r.RolledBack?)
    // A rollback is given up after five tries, and only then.
    ensures tries <= 5 && (r.RollbackFailed? ==> tries == 5) && (r.RolledBack? ==> tries > 0)
    // When no command fails by itself, it is made unless the name is taken.
    ensures !a.faults ==> if old(a.Exists(name)) then r.Refused? else r.Made?
    // However it ends, volumes of other names stay as they were, and no other volume appears.
    ensures SameExcept(old(a.volumes), a.volumes, name)
    // And so do the mappings between them.
    ensures MapsSameExcept(old(a.volumes), old(a.maps), a.maps, name)
  {
    ghost var v := if a.Exists(name) then TargetOf(a, name) else a.nextId;
    assert IsTarget(a.volumes, name, v);
    IsTheTarget(a.volumes, name, v);
    if v !in a.volumes {
      assert MapsOf(a.maps, v) == {};
      NothingOnto(a.maps, v);
    }
    ghost var volumes, maps := a.volumes, a.maps;
    hide IsTarget, MapsOf, Unmapped, SameExcept, MapsSameExcept;
    r := TryCreateSnapshot(a, name, source, v);
    tries := 0;
    if r.RollbackFailed? {
      ghost var before, mid := a.volumes, a.maps;
      var ok;
      ok, tries := RollbackCreateSnapshot(a, name, v);
      UnmappedTwice(mid, v);
      r := if ok then RolledBack else RollbackFailed;
      assert a.volumes - {v} == before - {v};
    }
    IsTheTarget(a.volumes, name, v);
    OnlyTarget(old(a.volumes), a.volumes, name, v);
    OtherMaps(volumes, maps, a.maps, name, v);
  }

  /** The mappings between volumes of other names. */
  ghost predicate MapsSameExcept(
      volumes: map<VolumeId, CliVolume>, before: map<MapId, FcMap>, after: map<MapId, FcMap>, name: string)
  {
    forall m :: m in before && before[m].source in volumes && before[m].target in volumes
                && volumes[before[m].source].name != name && volumes[before[m].target].name != name ==>
                  m in after && after[m] == before[m]
  }

  lemma OtherMaps(volumes: map<VolumeId, CliVolume>, before: map<MapId, FcMap>, after: map<MapId, FcMap>,
                  name: string, v: VolumeId)
    requires IsTarget(volumes, name, v) && Unmapped(after, v) == Unmapped(before, v)
    ensures MapsSameExcept(volumes, before, after, name)
  {
    forall m | m in before && before[m].source != v && before[m].target != v
      ensures m in after && after[m] == before[m]
    {
      assert m in Unmapped(before, v);
    }
  }

  lemma OnlyTarget(before: map<VolumeId, CliVolume>, after: map<VolumeId, CliVolume>, name: string, v: VolumeId)
    requires after - {v} == before - {v}
    requires (v in before ==> before[v].name == name) && (v in after ==> after[v].name == name)
    ensures SameExcept(before, after, name)
  {
    assert forall w :: w in before && w != v ==> w in before - {v};
    assert forall w :: w in after && w != v ==> w in after - {v};
  }

  ghost predicate SameExcept(before: map<VolumeId, CliVolume>, after: map<VolumeId, CliVolume>, name: string) {
    && (forall w :: w in before && before[w].name != name ==> w in after && after[w] == before[w])
    && (forall w :: w in after && after[w].name != name ==> w in before)
  }

  /** The body of the try block; `RollbackFailed` stands for the CLI fault that is about to be rolled back. */
  method TryCreateSnapshot(a: SvcArray, name: string, source: VolumeId, ghost v: VolumeId) returns (r: SnapshotResult)
    requires a.Valid() && source in a.volumes
    requires IsTarget(a.volumes, name, v) && (!a.Exists(name) ==> v == a.nextId)
    modifies a`volumes, a`maps, a`nextId
    ensures a.Valid() && !r.RolledBack?
    ensures r.Made? ==>
      && !old(a.Exists(name)) && r.v !in old(a.volumes) && r.m !in old(a.maps)
      && a.volumes == old(a.volumes)[r.v := CliVolume(name, "", old(a.volumes)[source].capacity)]
      && a.maps == old(a.maps)[r.m := FcMap(source, r.v, false, false, false, true)]
    ensures r.Refused? ==> a.volumes == old(a.volumes) && a.maps == old(a.maps)
    ensures IsTarget(a.volumes, name, v) && a.volumes - {v} == old(a.volumes) - {v}
    ensures Unmapped(a.maps, v) == Unmapped(old(a.maps), v)
    ensures old(a.Exists(name)) && r.RollbackFailed? ==> v in a.volumes
    ensures !a.faults ==> if old(a.Exists(name)) then r.Refused? else r.Made?
  {
    var capacity := a.volumes[source].capacity;
    NewTarget(a.volumes, name, v, CliVolume(name, "", capacity));
    NothingOnto(a.maps, v);
    hide IsTarget, MapsOf, Unmapped;
    var answer := a.MkVolume(name, capacity);
    var declined: bool := *;  // any other error the mediator translates
    if answer == AlreadyExists || (answer != Accepted && declined) {
      return Refused;
    }
    r := RollbackFailed;
    if answer == Accepted {
      assert v in a.volumes;
      var target := a.FindByName(name);
      IsTheTarget(a.volumes, name, v);
      var m := CreateAndStartFcMap(a, source, target.value, false);
      if m.Some? {
        r := Made(target.value, m.value);
      }
    }
  }

  lemma NewTarget(volumes: map<VolumeId, CliVolume>, name: string, v: VolumeId, made: CliVolume)
    requires IsTarget(volumes, name, v) && made.name == name
    ensures v !in volumes ==> IsTarget(volumes[v := made], name, v) && volumes[v := made] - {v} == volumes - {v}
    ensures v in volumes ==> volumes[v].name == name
  {
  }

  lemma NothingOnto(maps: map<MapId, FcMap>, v: VolumeId)
    ensures MapsOf(maps, v) == {} ==> Unmapped(maps, v) == maps
  {
  }

  lemma IsTheTarget(volumes: map<VolumeId, CliVolume>, name: string, v: VolumeId)
    requires IsTarget(volumes, name, v)
    ensures forall w :: w in volumes && volumes[w].name == name ==> w == v
    ensures v in volumes ==> volumes[v].name == name
  {
  }

  ghost function TargetOf(a: SvcArray, name: string): (v: VolumeId)
    requires a.Exists(name)
    reads a
    ensures v in a.volumes && a.volumes[v].name == name
  {
    var v :| v in a.volumes && a.volumes[v].name == name;
    v
  }
}
