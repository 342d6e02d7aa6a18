/** Creating a volume from a snapshot on SVC: create it inside a temporary group, then repair the side effects. */
module SvcClone {
  import opened Options
  import opened SvcArrays

  datatype CloneResult =
    | Cloned(v: VolumeId)
    | NotStarted      // the creating command was refused
    | LookupFailed    // the new volume could not be looked up; this fault is not handled
    | RolledBack      // a repair step failed and the rollback commands succeeded
    | RollbackFailed  // a repair step failed and so did a rollback command

  /** `_get_cli_volume_id_from_volume_group`. */
  method FindInGroup(a: SvcArray, group: string) returns (v: Option<VolumeId>)
    requires a.Valid()
    ensures v.Some? ==> v.value in a.volumes && a.volumes[v.value].group == group
    ensures v.None? && !a.faults ==> forall w :: w in a.volumes ==> a.volumes[w].group != group
  {
    var left := a.volumes.Keys;
    v := None;
    var answered: bool := *;
    if a.faults && !answered {
      return;
    }
    while left != {}
      invariant left <= a.volumes.Keys && v.None?
      invariant forall w :: w in a.volumes && w !in left ==> a.volumes[w].group != group
      decreases |left|
    {
      var w :| w in left;
      if a.volumes[w].group == group {
        return Some(w);
      }
      left := left - {w};
    }
  }

  /** Only `v` is in the group, if anything is. */
  predicate IsOnlyIn(volumes: map<VolumeId, CliVolume>, group: string, v: VolumeId) {
    forall w :: w in volumes && volumes[w].group == group ==> w == v
  }

  lemma MovedOut(volumes: map<VolumeId, CliVolume>, v: VolumeId, name: string, group: string)
    requires v in volumes && IsOnlyIn(volumes, name, v)
    ensures var moved := volumes[v := volumes[v].(group := group)];
      var left := Evicted(moved, name);
      && moved - {v} == volumes - {v} && IsOnlyIn(moved, name, v) && (IsEmpty(moved, name) <==> group != name)
      && left - {v} == volumes - {v} && IsOnlyIn(left, name, v)
      && v in left && left[v] == volumes[v].(group := if group == name then "" else group)
      && (NameIsOnlyFor(left, name, v) <==> NameIsOnlyFor(volumes, name, v))
  {
    var moved := volumes[v := volumes[v].(group := group)];
    assert forall w :: w in volumes ==> Evicted(moved, name)[w].name == volumes[w].name;
  }

  lemma Renamed(volumes: map<VolumeId, CliVolume>, v: VolumeId, name: string)
    requires v in volumes && IsOnlyIn(volumes, name, v)
    ensures var renamed := volumes[v := volumes[v].(name := name)];
      renamed - {v} == volumes - {v} && IsOnlyIn(renamed, name, v)
  {
  }

  /** `_fix_creation_side_effects`: move the volume, drop the temporary group, give the volume its name. */
  method FixCreationSideEffects(a: SvcArray, name: string, v: VolumeId, volumeGroup: string) returns (ok: bool)
    requires a.Valid() && v in a.volumes && name in a.groups
    requires IsOnlyIn(a.volumes, name, v)
    modifies a`volumes, a`groups
    ensures a.Valid() && v in a.volumes && a.volumes - {v} == old(a.volumes) - {v}
    ensures IsOnlyIn(a.volumes, name, v)
    ensures a.groups == old(a.groups) || a.groups == old(a.groups) - {name}
    ensures ok ==> a.groups == old(a.groups) - {name} && a.volumes[v].name == name
    ensures ok ==> a.volumes[v].group == if volumeGroup == name then "" else volumeGroup
    ensures ok ==> a.volumes[v].capacity == old(a.volumes)[v].capacity
    ensures !a.faults ==>
      (ok <==>
        && (volumeGroup == "" || volumeGroup in old(a.groups)) && (volumeGroup == name ==> a.evicts)
        && NameIsOnlyFor(old(a.volumes), name, v))
  {
    MovedOut(a.volumes, v, name, volumeGroup);
    hide Evicted, NameIsOnlyFor, IsOnlyIn, IsEmpty;
    var answer := a.ChangeVolumeGroup(v, volumeGroup);
    if answer != Accepted {
      return false;
    }
    answer := a.RmVolumeGroup(name);
    if answer != Accepted && answer != NotFound {
      return false;
    }
    Renamed(a.volumes, v, name);
    answer := a.RenameVolume(v, name);
    ok := answer == Accepted;
  }

  /** `_rollback_create_volume_from_snapshot`. */
  method Rollback(a: SvcArray, v: VolumeId, group: string) returns (ok: bool)
    requires a.Valid()
    requires IsOnlyIn(a.volumes, group, v)
    modifies a`volumes, a`groups
    ensures a.Valid()
    ensures ok ==> a.volumes == old(a.volumes) - {v} && a.groups == old(a.groups) - {group}
    ensures a.volumes - {v} == old(a.volumes) - {v}
    ensures a.groups == old(a.groups) || a.groups == old(a.groups) - {group}
    ensures !a.faults && v in old(a.volumes) && MapsOf(a.maps, v) == {} ==> ok
  {
    var answer := a.RmVolume(v);
    if answer != Accepted {
      return false;
    }
    answer := a.RmVolumeGroup(group);
    ok := answer == Accepted || answer == NotFound;
    if answer == Accepted {
      assert a.volumes == old(a.volumes) - {v};
    }
  }

  /**
   `_create_cli_volume_from_snapshot`: all or nothing at every handled fault. The volume lands in the group asked
   for, unless that group has the temporary group's own name: then it is deleted with it.
   */
  method CreateCliVolumeFromSnapshot(a: SvcArray, name: string, volumeGroup: string, capacity: nat)
    returns (r: CloneResult)
    requires a.Valid() && name != ""
    modifies a`volumes, a`groups, a`nextId
    ensures a.Valid()
    ensures r.Cloned? ==>
      && r.v !in old(a.volumes) && a.groups == old(a.groups) && name !in old(a.groups)
      && r.v in a.volumes && a.volumes == old(a.volumes)[r.v := a.volumes[r.v]]
      && a.volumes[r.v].name == name && a.volumes[r.v].capacity == capacity
      && a.volumes[r.v].group == (if volumeGroup == name then "" else volumeGroup)
    ensures r.NotStarted? || r.RolledBack? ==> a.volumes == old(a.volumes) && a.groups == old(a.groups)
    // When no command fails by itself, the request alone decides which of three ways it ends.
    ensures !a.faults ==>
      && (r.NotStarted? <==> name in old(a.groups))
      && (r.Cloned? <==> CanClone(a.evicts, old(a.groups), old(a.Exists(name)), name, volumeGroup))
      && (r.NotStarted? || r.Cloned? || r.RolledBack?)
    // Unhandled: the half-made volume stays behind in the temporary group.
    ensures r.LookupFailed? ==>
      && name !in old(a.groups) && a.groups == old(a.groups) + {name}
      && exists v :: v !in old(a.volumes) && v in a.volumes && a.volumes[v].group == name
                     && a.volumes - {v} == old(a.volumes)
    // Even a failed rollback leaves everything that was there before untouched.
    ensures r.RollbackFailed? ==>
      && a.groups - {name} == old(a.groups)
      && exists v :: v !in old(a.volumes) && a.volumes - {v} == old(a.volumes)
  {
    var answer;
    ghost var made;
    answer, made := a.MkVolumeGroupFromSnapshot(name, capacity);
    if answer != Accepted {
      return NotStarted;
    }
    NewIsOnlyOneIn(old(a.volumes), a.volumes, made, name);
    SameButNew(old(a.volumes), a.volumes, made);
    hide IsOnlyIn, NameIsOnlyFor;
    var v := FindInGroup(a, name);
    if v.None? {
      return LookupFailed;
    }
    MemberIsNew(a.volumes, v.value, made, name);
    ghost var before := a.volumes;
    NameFreeBefore(old(a.volumes), before, made, name);
    var ok := FixCreationSideEffects(a, name, v.value, volumeGroup);
    SameButNew(old(a.volumes), a.volumes, made);
    if ok {
      return Cloned(v.value);
    }
    ok := Rollback(a, v.value, name);
    r := if ok then RolledBack else RollbackFailed;
    SameButNew(old(a.volumes), a.volumes, made);
  }

  lemma NewIsOnlyOneIn(
      before: map<VolumeId, CliVolume>, after: map<VolumeId, CliVolume>, made: VolumeId, name: string)
    requires made in after && after == before[made := after[made]]
    requires forall v :: v in before ==> before[v].group != name
    ensures IsOnlyIn(after, name, made)
  {
  }

  lemma MemberIsNew(volumes: map<VolumeId, CliVolume>, v: VolumeId, made: VolumeId, name: string)
    requires IsOnlyIn(volumes, name, made) && v in volumes && volumes[v].group == name
    ensures v == made
  {
  }

  lemma SameButNew(before: map<VolumeId, CliVolume>, after: map<VolumeId, CliVolume>, made: VolumeId)
    requires made !in before
    ensures before - {made} == before
    ensures made in after && after - {made} == before ==> after == before[made := after[made]]
    ensures made in after && after == before[made := after[made]] ==> after - {made} == before
  {
  }

  lemma NameFreeBefore(
      before: map<VolumeId, CliVolume>, after: map<VolumeId, CliVolume>, made: VolumeId, name: string)
    requires made !in before && made in after && after == before[made := after[made]]
    ensures NameIsOnlyFor(after, name, made) <==> forall v :: v in before ==> before[v].name != name
  {
    assert forall v :: v in before ==> after[v] == before[v];
  }

  /** The temporary group's name is free, the group asked for is there by then, and no volume has the name. */
  predicate CanClone(evicts: bool, groups: set<string>, nameTaken: bool, name: string, volumeGroup: string) {
    name !in groups && !nameTaken && (volumeGroup == "" || volumeGroup in groups || (volumeGroup == name && evicts))
  }

  datatype FromVolumeResult =
    | Copied(v: VolumeId)
    | SnapshotRefused
    | CloneFailed(result: CloneResult)
    | SnapshotKept(v: VolumeId)  // cloned, but the temporary snapshot could not be removed

  /**
   `_create_cli_volume_from_volume`: snapshot the source, clone from the snapshot, remove it. There is no cleanup
   on the way out: the temporary snapshot stays exactly when something after taking it fails.
   */
  method CreateCliVolumeFromVolume(a: SvcArray, name: string, volumeGroup: string, capacity: nat)
    returns (r: FromVolumeResult)
    requires a.Valid() && name != ""
    modifies a`volumes, a`groups, a`snapshots, a`nextId
    ensures a.Valid()
    ensures a.snapshots == old(a.snapshots) <==> r.Copied? || r.SnapshotRefused?
    ensures r.Copied? || r.SnapshotKept? ==>
      && r.v !in old(a.volumes) && a.groups == old(a.groups)
      && r.v in a.volumes && a.volumes == old(a.volumes)[r.v := a.volumes[r.v]] && a.volumes[r.v].name == name
    ensures r.SnapshotRefused? ==> a.volumes == old(a.volumes) && a.groups == old(a.groups)
    ensures !a.faults ==> (r.Copied? <==> CanClone(a.evicts, old(a.groups), old(a.Exists(name)), name, volumeGroup))
    ensures r.CloneFailed? && (r.result.NotStarted? || r.result.RolledBack?) ==>
      a.volumes == old(a.volumes) && a.groups == old(a.groups)
  {
    var answer, n := a.AddSnapshot();
    if answer != Accepted {
      return SnapshotRefused;
    }
    var clone := CreateCliVolumeFromSnapshot(a, name, volumeGroup, capacity);
    if !clone.Cloned? {
      assert n in a.snapshots;
      return CloneFailed(clone);
    }
    answer := a.RmSnapshot(n);
    if answer == Accepted {
      assert a.snapshots == old(a.snapshots);
      r := Copied(clone.v);
    } else {
      assert n in a.snapshots;
      r := SnapshotKept(clone.v);
    }
  }
}
