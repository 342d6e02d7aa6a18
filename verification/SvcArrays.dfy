/**
 The SVC array as the mediator sees it: volumes, volume groups, volume snapshots and FlashCopy mappings.

 Each command either takes effect as a whole or is refused and changes nothing. The array never accepts what
 contradicts its own state; what does not may still fail if `faults` is set. A command answered with a warning has
 taken effect.
 */
module SvcArrays {
  import opened Options

  type VolumeId = nat
  type MapId = nat

  /** `group` is empty for a volume in no group. */
  datatype CliVolume = CliVolume(name: string, group: string, capacity: nat)

  /**
   `done` is status idle_or_copied, `background` a copy rate other than 0, `remote` remote-copy controlled. A map holds
   its source's data from when it is `started`.
   */
  datatype FcMap = FcMap(
    source: VolumeId, target: VolumeId, done: bool, background: bool, remote: bool, started: bool)

  datatype Answer = Accepted | AlreadyExists | NotFound | Fault

  class SvcArray {
    // Whether commands may fail for reasons outside this model.
    const faults: bool
    // Whether a volume group can be removed while it has volumes; they are then in no group.
    const evicts: bool
    var volumes: map<VolumeId, CliVolume>
    var groups: set<string>
    var snapshots: set<nat>
    var maps: map<MapId, FcMap>
    var nextId: nat

    /** Ids are fresh, names are unique, groups and mapped volumes exist. */
    ghost predicate Valid()
      reads this
    {
      && (forall v :: v in volumes ==> v < nextId && (volumes[v].group == "" || volumes[v].group in groups))
      && (forall v, w :: v in volumes && w in volumes && volumes[v].name == volumes[w].name ==> v == w)
      && (forall m :: m in maps ==> m < nextId && maps[m].source in volumes && maps[m].target in volumes)
      && (forall n :: n in snapshots ==> n < nextId)
      && "" !in groups
    }

    constructor (faults: bool, evicts: bool)
      ensures Valid() && this.faults == faults && this.evicts == evicts
      ensures volumes == map[] && groups == {} && snapshots == {} && maps == map[]
    {
      this.faults, this.evicts := faults, evicts;
      volumes, groups, snapshots, maps, nextId := map[], {}, {}, map[], 0;
    }

    ghost predicate Exists(name: string)
      reads this
    {
      exists v :: v in volumes && volumes[v].name == name
    }

    /** `lsvdisk` by name; None also when nothing has it. */
    method FindByName(name: string) returns (v: Option<VolumeId>)
      requires Valid()
      ensures v.Some? ==> v.value in volumes && volumes[v.value].name == name
      ensures v.None? ==> !Exists(name)
    {
      var left := volumes.Keys;
      while left != {}
        invariant left <= volumes.Keys
        invariant forall w :: w in volumes && w !in left ==> volumes[w].name != name
        decreases |left|
      {
        var w :| w in left;
        if volumes[w].name == name {
          return Some(w);
        }
        left := left - {w};
      }
      v := None;
    }

    /** `mkvolumegroup -type clone -snapshot ...`: a group and, in it, one volume with a name of the array's choice. */
    method MkVolumeGroupFromSnapshot(name: string, capacity: nat) returns (answer: Answer, ghost v: VolumeId)
      requires Valid() && name != ""
      modifies this`volumes, this`groups, this`nextId
      ensures Valid()
      ensures name in old(groups) ==> answer == AlreadyExists
      ensures !faults && name !in old(groups) ==> answer == Accepted
      ensures answer == Accepted ==>
        && v !in old(volumes) && groups == old(groups) + {name}
        && v in volumes && volumes == old(volumes)[v := volumes[v]]
        && volumes[v].group == name && volumes[v].capacity == capacity
        && forall m :: m in maps ==> maps[m].source != v && maps[m].target != v
      ensures answer != Accepted ==> volumes == old(volumes) && groups == old(groups)
    {
      answer, v := Fault, nextId;
      var accept: bool := *;
      accept := accept || !faults;
      if name in groups {
        answer := AlreadyExists;
      } else if accept {
        SomeNameIsFree(volumes);
        var chosen: string :| IsFree(volumes, chosen);
        volumes := volumes[nextId := CliVolume(chosen, name, capacity)];
        groups := groups + {name};
        nextId := nextId + 1;
        answer := Accepted;
      }
    }

    /** `chvdisk -volumegroup`, or `-novolumegroup` for the empty group. */
    method ChangeVolumeGroup(v: VolumeId, group: string) returns (answer: Answer)
      requires Valid() && v in volumes
      modifies this`volumes
      ensures Valid()
      ensures answer == Accepted ==> volumes == old(volumes)[v := old(volumes)[v].(group := group)]
      ensures answer == Accepted ==> group == "" || group in groups
      ensures !faults && (group == "" || group in groups) ==> answer == Accepted
      ensures answer != Accepted ==> volumes == old(volumes)
    {
      answer := Fault;
      var accept: bool := *;
      accept := accept || !faults;
      if accept && (group == "" || group in groups) {
        volumes := volumes[v := volumes[v].(group := group)];
        answer := Accepted;
      }
    }

    /** `chvdisk -name`. */
    method RenameVolume(v: VolumeId, name: string) returns (answer: Answer)
      requires Valid() && v in volumes
      modifies this`volumes
      ensures Valid()
      ensures answer == Accepted ==> volumes == old(volumes)[v := old(volumes)[v].(name := name)]
      ensures !faults ==>
        answer == if NameIsOnlyFor(old(volumes), name, v) then Accepted else AlreadyExists
      ensures answer != Accepted ==> volumes == old(volumes)
    {
      answer := Fault;
      var accept: bool := *;
      accept := accept || !faults;
      var clash := FindByName(name);
      if clash.Some? && clash.value != v {
        answer := AlreadyExists;
      } else if accept {
        volumes := volumes[v := volumes[v].(name := name)];
        answer := Accepted;
      }
    }

    /** `rmvolumegroup`. */
    method RmVolumeGroup(name: string) returns (answer: Answer)
      requires Valid()
      modifies this`groups, this`volumes
      ensures Valid()
      ensures answer == Accepted ==> groups == old(groups) - {name} && volumes == Evicted(old(volumes), name)
      ensures answer == Accepted ==> evicts || IsEmpty(old(volumes), name)
      ensures answer == NotFound ==> name !in groups
      ensures !faults && (evicts || IsEmpty(old(volumes), name)) ==> answer == Accepted || answer == NotFound
      ensures answer != Accepted ==> groups == old(groups) && volumes == old(volumes)
    {
      answer := Fault;
      var accept: bool := *;
      accept := accept || !faults;
      if accept && name !in groups {
        answer := NotFound;
      } else if accept && (evicts || IsEmpty(volumes, name)) {
        groups := groups - {name};
        volumes := Evicted(volumes, name);
        answer := Accepted;
      }
    }

    /** `rmvolume`: a volume in a FlashCopy mapping is not removed. */
    method RmVolume(v: VolumeId) returns (answer: Answer)
      requires Valid()
      modifies this`volumes
      ensures Valid()
      ensures answer == Accepted ==> v in old(volumes) && volumes == old(volumes) - {v}
      ensures answer == NotFound <==> v !in old(volumes)
      ensures !faults && v in old(volumes) && MapsOf(maps, v) == {} ==> answer == Accepted
      ensures answer != Accepted ==> volumes == old(volumes)
    {
      answer := Fault;
      var accept: bool := *;
      accept := accept || !faults;
      if v !in volumes {
        answer := NotFound;
      } else if accept && MapsOf(maps, v) == {} {
        assert forall m :: m in maps ==> m !in MapsOf(maps, v);
        volumes := volumes - {v};
        answer := Accepted;
      }
    }

    /** `mkvolume`. */
    method MkVolume(name: string, capacity: nat) returns (answer: Answer)
      requires Valid()
      modifies this`volumes, this`nextId
      ensures Valid() && nextId >= old(nextId)
      ensures answer == Accepted ==>
        && !old(Exists(name)) && old(nextId) !in old(volumes) && MapsOf(maps, old(nextId)) == {}
        && volumes == old(volumes)[old(nextId) := CliVolume(name, "", capacity)]
      ensures answer == AlreadyExists ==> Exists(name)
      ensures !faults ==> answer == if old(Exists(name)) then AlreadyExists else Accepted
      ensures answer != Accepted ==> volumes == old(volumes)
    {
      answer := Fault;
      var accept: bool := *;
      accept := accept || !faults;
      var clash := FindByName(name);
      if accept && clash.Some? {
        answer := AlreadyExists;
      } else if accept {
        volumes := volumes[nextId := CliVolume(name, "", capacity)];
        nextId := nextId + 1;
        answer := Accepted;
      }
    }

    /** `mkfcmap`. */
    method MkFcMap(source: VolumeId, target: VolumeId, background: bool) returns (answer: Answer)
      requires Valid() && source in volumes && target in volumes
      modifies this`maps, this`nextId
      ensures Valid()
      ensures answer == Accepted ==>
        && old(nextId) !in old(maps)
        && maps == old(maps)[old(nextId) := FcMap(source, target, false, background, false, false)]
      ensures answer == AlreadyExists ==> Mapped(maps, source, target)
      ensures !faults ==> answer == if old(Mapped(maps, source, target)) then AlreadyExists else Accepted
      ensures answer != Accepted ==> maps == old(maps)
    {
      hide Mapped;
      answer := Fault;
      var accept: bool := *;
      accept := accept || !faults;
      if accept && Mapped(maps, source, target) {
        answer := AlreadyExists;
      } else if accept {
        maps := maps[nextId := FcMap(source, target, false, background, false, false)];
        nextId := nextId + 1;
        answer := Accepted;
      }
    }

    /** `startfcmap`; a map that is under way already is accepted as it is. */
    method StartFcMap(fcId: Option<MapId>) returns (answer: Answer)
      requires Valid()
      modifies this`maps
      ensures Valid()
      ensures answer == Accepted ==>
        && fcId.Some? && fcId.value in old(maps)
        && maps == old(maps)[fcId.value := old(maps)[fcId.value].(started := true)]
      ensures answer != Accepted ==> maps == old(maps)
      ensures !faults && fcId.Some? && fcId.value in old(maps) ==> answer == Accepted
    {
      answer := Fault;
      var accept: bool := *;
      accept := accept || !faults;
      if accept && fcId.Some? && fcId.value in maps {
        maps := maps[fcId.value := maps[fcId.value].(started := true)];
        answer := Accepted;
      }
    }

    /** `rmfcmap`. */
    method RmFcMap(m: MapId) returns (answer: Answer)
      requires Valid()
      modifies this`maps
      ensures Valid()
      ensures answer == Accepted ==> maps == old(maps) - {m}
      ensures !faults && m in old(maps) ==> answer == Accepted
      ensures answer != Accepted ==> maps == old(maps)
    {
      answer := Fault;
      var accept: bool := *;
      accept := accept || !faults;
      if accept && m in maps {
        maps := maps - {m};
        answer := Accepted;
      }
    }

    /** `addsnapshot`. */
    method AddSnapshot() returns (answer: Answer, n: nat)
      requires Valid()
      modifies this`snapshots, this`nextId
      ensures Valid()
      ensures !faults ==> answer == Accepted
      ensures answer == Accepted ==> n !in old(snapshots) && snapshots == old(snapshots) + {n}
      ensures answer != Accepted ==> snapshots == old(snapshots)
    {
      answer, n := Fault, nextId;
      var accept: bool := *;
      accept := accept || !faults;
      if accept {
        snapshots := snapshots + {nextId};
        nextId := nextId + 1;
        answer := Accepted;
      }
    }

    /** `rmsnapshot`. */
    method RmSnapshot(n: nat) returns (answer: Answer)
      requires Valid()
      modifies this`snapshots
      ensures Valid()
      ensures answer == Accepted ==> snapshots == old(snapshots) - {n}
      ensures !faults ==> answer == Accepted
      ensures answer != Accepted ==> snapshots == old(snapshots)
    {
      answer := Fault;
      var accept: bool := *;
      accept := accept || !faults;
      if accept {
        snapshots := snapshots - {n};
        answer := Accepted;
      }
    }

    /** `expandvdisksize`, `expandvolume` or `chvolume -size`. */
    method Resize(v: VolumeId, capacity: nat) returns (answer: Answer)
      requires Valid() && v in volumes
      modifies this`volumes
      ensures Valid()
      ensures answer == Accepted ==> volumes == old(volumes)[v := old(volumes)[v].(capacity := capacity)]
      ensures !faults ==> answer == Accepted
      ensures answer != Accepted ==> volumes == old(volumes)
    {
      answer := Fault;
      var accept: bool := *;
      accept := accept || !faults;
      if accept {
        volumes := volumes[v := volumes[v].(capacity := capacity)];
        answer := Accepted;
      }
    }
  }

  predicate IsEmpty(volumes: map<VolumeId, CliVolume>, group: string) {
    forall v :: v in volumes ==> volumes[v].group != group
  }

  /** No volume but `v` may have the name. */
  ghost predicate NameIsOnlyFor(volumes: map<VolumeId, CliVolume>, name: string, v: VolumeId) {
    forall w :: w in volumes && volumes[w].name == name ==> w == v
  }

  predicate IsFree(volumes: map<VolumeId, CliVolume>, name: string) {
    forall v :: v in volumes ==> volumes[v].name != name
  }

  /** There is always a name no volume has: one longer than all of theirs. */
  lemma SomeNameIsFree(volumes: map<VolumeId, CliVolume>)
    ensures exists name :: IsFree(volumes, name)
  {
    var longer := LongerThanAll(volumes, volumes.Keys);
    assert IsFree(volumes, seq(longer, k => 'x'));
  }

  lemma LongerThanAll(volumes: map<VolumeId, CliVolume>, ids: set<VolumeId>) returns (longer: nat)
    requires ids <= volumes.Keys
    ensures forall v :: v in ids ==> |volumes[v].name| < longer
    decreases |ids|
  {
    longer := 0;
    if ids != {} {
      var v :| v in ids;
      longer := LongerThanAll(volumes, ids - {v});
      longer := if longer <= |volumes[v].name| then |volumes[v].name| + 1 else longer;
    }
  }

  function Evicted(volumes: map<VolumeId, CliVolume>, group: string): map<VolumeId, CliVolume> {
    map v | v in volumes :: if volumes[v].group == group then volumes[v].(group := "") else volumes[v]
  }

  predicate Mapped(maps: map<MapId, FcMap>, source: VolumeId, target: VolumeId) {
    exists m :: m in maps && maps[m].source == source && maps[m].target == target
  }

  function MapsOf(maps: map<MapId, FcMap>, v: VolumeId): set<MapId> {
    set m | m in maps && (maps[m].source == v || maps[m].target == v)
  }
}
