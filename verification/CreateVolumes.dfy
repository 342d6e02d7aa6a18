/**
 `CreateVolume` of the controller over an abstract array: the idempotency rule of the "CreateVolume" section of
 the Container Storage Interface specification, and the copy with its rollback.
 */
module CreateVolumes {
  import opened Options

  /**
   The mediators whose `create_volume` differs in what it does with a source: SVC clones it when the controller is not
   to copy, SANtricity restores a snapshot, DS8K makes an empty volume.
   */
  datatype ArrayKind = Svc | Ds8k | Santricity

  /** `source` is the id of what the volume was made a copy of, empty if of nothing. */
  datatype Volume = Volume(id: string, capacity: nat, source: string, partition: string)

  /**
   A source as the controller finds it: `aliases` are the names of its space efficiency, `hasVolume` is whether a
   snapshot's own volume still exists, and `snapshottable` whether SVC can take or use a snapshot of it.
   */
  datatype Source = Source(
    capacity: nat, aliases: set<string>, partition: string, hasVolume: bool, snapshottable: bool)

  /** Names without text stand for "none": no source, no partition, no choice of space efficiency. */
  datatype Request = Request(
    name: string, requiredBytes: nat, spaceEfficiency: string, source: string, sourceIsSnapshot: bool,
    virtSnapFunc: bool, partition: string)
  {
    predicate UseSnapObject() {
      virtSnapFunc && partition == ""
    }

    predicate NoFlashCopy() {
      virtSnapFunc || partition != ""
    }

    /** The controller copies the data itself, after the volume is created. */
    predicate Copies() {
      source != "" && !NoFlashCopy()
    }
  }

  datatype Response =
    | Success(id: string, capacity: nat, source: string)
    | OutOfRange
    | NotFound
    | InvalidArgument
    | Mismatch        // the existing volume or the source is of another partition, size or space efficiency
    | AlreadyExists
    | Failed

  /** The checks of the source that are made only when the controller is not to copy; only SVC knows partitions. */
  function SourceCheck(kind: ArrayKind, sources: map<string, Source>, req: Request, required: nat): Option<Response> {
    if !req.NoFlashCopy() || req.source == "" then None
    else if req.source !in sources then Some(NotFound)
    else
      var s := sources[req.source];
      if req.UseSnapObject() && req.sourceIsSnapshot && !s.hasVolume then Some(InvalidArgument)
      else if req.partition == "" && req.spaceEfficiency != "" && req.spaceEfficiency !in s.aliases then Some(Mismatch)
      else if req.partition == "" && s.capacity < required then Some(Mismatch)
      else if kind == Svc && s.partition != req.partition then Some(Mismatch)
      else None
  }

  /**
   When the source decides: not at all if the controller copies; else it must exist, with its volume for a snapshot
   object, and outside a partition match in space efficiency and size; SVC asks for the same partition.
   */
  lemma SourceRefusedExactly(kind: ArrayKind, sources: map<string, Source>, req: Request, required: nat)
    ensures var r := SourceCheck(kind, sources, req, required);
      var mediatorCopies := req.source != "" && (req.virtSnapFunc || req.partition != "");
      var found := mediatorCopies && req.source in sources;
      var volumeGone := found && req.virtSnapFunc && req.partition == "" && req.sourceIsSnapshot
                        && !sources[req.source].hasVolume;
      && (r == Some(NotFound) <==> mediatorCopies && req.source !in sources)
      && (r == Some(InvalidArgument) <==> volumeGone)
      && (r == Some(Mismatch) <==>
            && found && !volumeGone
            && (|| (req.partition == "" && req.spaceEfficiency != ""
                    && req.spaceEfficiency !in sources[req.source].aliases)
                || (req.partition == "" && sources[req.source].capacity < required)
                || (kind == Svc && sources[req.source].partition != req.partition)))
      && (r.Some? ==> r.value == NotFound || r.value == InvalidArgument || r.value == Mismatch)
  {
  }

  /** The source a mediator reports for an existing volume: SANtricity's never reports one. */
  function ReportedSource(kind: ArrayKind, v: Volume): string {
    if kind == Santricity then "" else v.source
  }

  /** `_get_create_volume_response_for_existing_volume_source`; None means the handler goes on. */
  function ExistingSourceResponse(v: Volume, reported: string, source: string): Option<Response> {
    if source == "" && reported == "" then None
    else if reported == source then Some(Success(v.id, v.capacity, reported))
    else Some(AlreadyExists)
  }

  /** The request could have made this volume, as far as the mediator can tell. */
  predicate Acceptable(kind: ArrayKind, v: Volume, req: Request, required: nat) {
    && (kind == Svc ==> v.partition == req.partition)
    && (req.source == "" ==> v.capacity >= required)
    && (!req.UseSnapObject() ==> ReportedSource(kind, v) == req.source)
  }

  /** `CreateVolume` for a volume that exists already: it is returned exactly if the request could have made it. */
  method AnswerForExisting(kind: ArrayKind, v: Volume, req: Request, required: nat) returns (r: Response)
    ensures r.Success? <==> Acceptable(kind, v, req, required)
    ensures r.Success? ==> r == Success(v.id, v.capacity, req.source)
    ensures !r.Success? ==> r == if kind == Svc && v.partition != req.partition then Mismatch else AlreadyExists
  {
    if kind == Svc && v.partition != req.partition {
      return Mismatch;
    }
    if req.source == "" && v.capacity < required {
      return AlreadyExists;
    }
    if !req.UseSnapObject() {
      var early := ExistingSourceResponse(v, ReportedSource(kind, v), req.source);
      if early.Some? {
        return early.value;
      }
    }
    r := Success(v.id, v.capacity, req.source);
  }

  datatype CopyError = SourceMissing | VolumeMissing | DeleteFault | CopyFault

  datatype CopyResult = Copied | CopyFailed(error: CopyError)

  const ROLLBACK_TRIES := 5

  class VolumeArray {
    // Whether commands may fail for reasons outside this model.
    const faults: bool
    const minSize: nat
    const maxSize: nat
    // The space efficiencies the array can make.
    const supported: set<string>
    // The capacity a new volume gets for the size asked for, where it is more.
    const granted: nat -> nat
    const kind: ArrayKind
    var volumes: map<string, Volume>
    var sources: map<string, Source>
    // Volumes made, copies started and deletions tried so far.
    ghost var creates: nat
    ghost var copies: nat
    ghost var deletes: nat

    constructor (faults: bool, kind: ArrayKind, minSize: nat, maxSize: nat, supported: set<string>,
                 granted: nat -> nat, sources: map<string, Source>)
      ensures this.faults == faults && this.kind == kind && this.minSize == minSize && this.maxSize == maxSize
      ensures this.supported == supported && this.granted == granted
      ensures volumes == map[] && this.sources == sources && creates == 0 && copies == 0 && deletes == 0
    {
      this.faults, this.kind, this.minSize, this.maxSize := faults, kind, minSize, maxSize;
      this.supported, this.granted := supported, granted;
      volumes, this.sources, creates, copies, deletes := map[], sources, 0, 0, 0;
    }

    /** Arrays round a size up, never down. */
    function Capacity(size: nat): nat {
      if granted(size) > size then granted(size) else size
    }

    /** Whether the array makes the new volume as a clone of the source, with the source's capacity. */
    predicate Clones(req: Request) {
      && req.source != ""
      && match kind
         case Svc => req.NoFlashCopy()
         case Ds8k => false
         case Santricity => req.sourceIsSnapshot
    }

    /** Whether the controller's copy afterwards does anything: SANtricity's mediator has no such command. */
    predicate CopiesData(req: Request) {
      req.Copies() && kind != Santricity
    }

    /** The capacity a new volume is made with. */
    function NewCapacity(req: Request): nat
      reads this
    {
      if Clones(req) && req.source in sources then sources[req.source].capacity else Capacity(Required(req))
    }

    /** Whether the copy that completes a new volume enlarges it: DS8K extends the target of a larger source. */
    predicate Enlarges(req: Request)
      reads this
    {
      req.Copies() && kind == Ds8k && req.source in sources && Capacity(Required(req)) < sources[req.source].capacity
    }

    /** What `create_volume` refuses by itself: a clone it cannot make, or one of another size in a partition. */
    function CloneCheck(req: Request): Option<Response>
      reads this
    {
      if !Clones(req) then None
      else if req.source !in sources then Some(Failed)
      else
        var s := sources[req.source];
        if kind == Svc && req.partition != "" then
          if Capacity(Required(req)) != s.capacity then Some(InvalidArgument) else None
        else if kind == Svc && !s.snapshottable then Some(Failed)
        else None
    }

    /** A zero request means the least size. */
    function Required(req: Request): nat {
      if req.requiredBytes == 0 then minSize else req.requiredBytes
    }

    /** What a size means: zero is the least, and arrays never grant less than is asked for. */
    lemma SizeAskedFor(req: Request)
      ensures Required(req) == minSize <==> req.requiredBytes == 0 || req.requiredBytes == minSize
      ensures req.requiredBytes > 0 ==> Required(req) == req.requiredBytes
      ensures Capacity(Required(req)) >= Required(req) && Capacity(Required(req)) >= granted(Required(req))
      ensures Capacity(Required(req)) == Required(req) || Capacity(Required(req)) == granted(Required(req))
    {
    }

    /** When the array clones, and when it cannot. */
    lemma CloneRefusedExactly(req: Request)
      requires req.source in sources
      ensures Clones(req) <==>
        && req.source != ""
        && ((kind == Svc && (req.virtSnapFunc || req.partition != "")) || (kind == Santricity && req.sourceIsSnapshot))
      ensures CloneCheck(req) == Some(InvalidArgument) <==>
        && kind == Svc && req.source != "" && req.partition != ""
        && sources[req.source].capacity != Capacity(Required(req))
      ensures CloneCheck(req) == Some(Failed) <==>
        && kind == Svc && req.source != "" && req.virtSnapFunc && req.partition == ""
        && !sources[req.source].snapshottable
      ensures Supported(req) <==> kind == Santricity || req.spaceEfficiency in supported + {""}
    {
    }

    /** What the controller's copy does to its target: DS8K extends it to a greater source, SANtricity does nothing. */
    lemma CopyDoesExactly(v: Volume, source: string, sourceCapacity: nat, minimumSize: nat)
      ensures var copied := CopyOf(v, source, sourceCapacity, minimumSize);
        && copied.id == v.id && copied.partition == v.partition
        && (copied.source == source <==> kind != Santricity || v.source == source)
        && (kind == Santricity ==> copied == v)
        && (copied.capacity != v.capacity <==>
              kind == Ds8k && minimumSize < sourceCapacity && v.capacity < sourceCapacity)
        && (copied.capacity == v.capacity || copied.capacity == sourceCapacity)
    {
    }

    /** `delete_volume`. */
    method DeleteVolume(name: string) returns (error: Option<CopyError>)
      modifies this`volumes, this`deletes
      ensures deletes == old(deletes) + 1
      ensures error.None? ==> name in old(volumes) && volumes == old(volumes) - {name}
      ensures error.Some? ==> volumes == old(volumes)
      ensures error == Some(VolumeMissing) <==> name !in old(volumes)
      ensures error.Some? ==> error.value == VolumeMissing || (error.value == DeleteFault && faults)
    {
      deletes := deletes + 1;
      var accepted: bool := *;
      if name !in volumes {
        return Some(VolumeMissing);
      }
      if faults && !accepted {
        return Some(DeleteFault);
      }
      volumes := volumes - {name};
      error := None;
    }

    /** `_rollback_create_volume_from_source`: up to five attempts, then the last error. */
    method RollbackCreateVolumeFromSource(name: string) returns (error: Option<CopyError>)
      modifies this`volumes, this`deletes
      ensures error.Some? ==> deletes == old(deletes) + 5
      ensures old(deletes) < deletes <= old(deletes) + 5
      ensures error.None? ==> name in old(volumes) && volumes == old(volumes) - {name}
      ensures error.Some? ==> volumes == old(volumes)
      ensures error == Some(VolumeMissing) <==> name !in old(volumes)
      ensures error.Some? ==> error.value == VolumeMissing || (error.value == DeleteFault && faults)
    {
      error := DeleteVolume(name);
      for k := 1 to ROLLBACK_TRIES
        invariant old(deletes) < deletes <= old(deletes) + k && (error.Some? ==> deletes == old(deletes) + k)
        invariant error.None? ==> name in old(volumes) && volumes == old(volumes) - {name}
        invariant error.Some? ==> volumes == old(volumes)
        invariant error == Some(VolumeMissing) <==> name !in old(volumes)
        invariant error.Some? ==> error.value == VolumeMissing || (error.value == DeleteFault && faults)
      {
        if error.None? {
          break;
        }
        error := DeleteVolume(name);
      }
    }

    /**
     `copy_to_existing_volume_from_source`. Any failure deletes the new volume, unless every attempt at deleting it
     fails. A missing source rolls back twice: the second time there is nothing left to delete, so what is reported
     is the missing volume and never the missing source.
     */
    method CopyToExistingVolumeFromSource(name: string, source: string, minimumSize: nat) returns (r: CopyResult)
      requires name in volumes
      modifies this`volumes, this`copies, this`deletes
      // A volume that is left behind was tried five times, by the last of the rollbacks at least.
      ensures r.CopyFailed? && name in volumes ==> deletes >= old(deletes) + 5
      ensures r.Copied? ==>
        && source in sources && copies == old(copies) + (if kind == Santricity then 0 else 1)
        && volumes == old(volumes)[name := CopyOf(old(volumes)[name], source, sources[source].capacity, minimumSize)]
      ensures r.CopyFailed? ==> volumes == old(volumes) - {name} || volumes == old(volumes)
      ensures r.CopyFailed? && volumes == old(volumes) ==> r.error == DeleteFault
      ensures r != CopyFailed(SourceMissing)
      ensures source !in sources ==> r.CopyFailed? && (r.error == VolumeMissing || r.error == DeleteFault)
      ensures !faults ==> if source in sources then r.Copied? else r.CopyFailed? && name !in volumes
    {
      var error: CopyError;
      if source !in sources {
        var first := RollbackCreateVolumeFromSource(name);
        error := if first.None? then SourceMissing else first.value;
      } else {
        var accepted: bool := *;
        if accepted || !faults {
          copies := copies + if kind == Santricity then 0 else 1;
          volumes := volumes[name := CopyOf(volumes[name], source, sources[source].capacity, minimumSize)];
          return Copied;
        }
        error := CopyFault;
      }
      var second := RollbackCreateVolumeFromSource(name);
      r := CopyFailed(if second.None? then error else second.value);
    }

    /** The target after the copy; extending a volume never makes it smaller. */
    function CopyOf(v: Volume, source: string, sourceCapacity: nat, minimumSize: nat): Volume {
      match kind
      case Svc => v.(source := source)
      case Santricity => v
      case Ds8k =>
        var grows := minimumSize < sourceCapacity && v.capacity < sourceCapacity;
        v.(source := source, capacity := if grows then sourceCapacity else v.capacity)
    }

    /** `create_volume` of the mediator; None stands for a command that failed. */
    method MakeVolume(req: Request) returns (v: Option<Volume>)
      requires req.name !in volumes && CloneCheck(req).None?
      modifies this`volumes, this`creates
      ensures v.None? ==> faults && volumes == old(volumes) && creates == old(creates)
      ensures v.Some? ==>
        && volumes == old(volumes)[req.name := v.value] && creates == old(creates) + 1
        && v.value.capacity == NewCapacity(req) && v.value.partition == req.partition
        && v.value.source == (if Clones(req) then req.source else "")
    {
      var accepted: bool, id: string := *, *;
      if faults && !accepted {
        return None;
      }
      if Clones(req) {
        v := Some(Volume(id, sources[req.source].capacity, req.source, req.partition));
      } else {
        v := Some(Volume(id, Capacity(Required(req)), "", req.partition));
      }
      volumes := volumes[req.name := v.value];
      creates := creates + 1;
    }

    /** `CreateVolume`. */
    method CreateVolume(req: Request) returns (r: Response)
      modifies this
      ensures sources == old(sources)
      ensures forall name :: name != req.name ==> (name in volumes <==> name in old(volumes))
      ensures forall name :: name != req.name && name in volumes ==> volumes[name] == old(volumes)[name]
      // Nothing is ever done to an existing volume; the answer is a function of it.
      ensures req.name in old(volumes) ==> volumes == old(volumes) && creates == old(creates) && copies == old(copies)
      ensures Refusal(req).Some? ==> r == Refusal(req).value && volumes == old(volumes)
      ensures Refusal(req).None? && req.name in old(volumes) ==>
        var v := old(volumes)[req.name];
        r == if Acceptable(kind, v, req, Required(req)) then Success(v.id, v.capacity, req.source)
             else if kind == Svc && v.partition != req.partition then Mismatch
             else AlreadyExists
      // Without success there is no volume of that name, unless a failed copy could not be cleaned up.
      ensures req.name !in old(volumes) && !r.Success? ==>
        volumes - {req.name} == old(volumes) && (req.name in volumes ==> req.Copies() && r == Failed)
      // A new volume is reported at the size it was made with, and with the source whether it has its data or not.
      ensures req.name !in old(volumes) && r.Success? ==>
        && req.name in volumes && volumes[req.name].partition == req.partition
        && r == Success(volumes[req.name].id, NewCapacity(req), req.source)
        && volumes[req.name].source == (if GetsData(req) then req.source else "")
        && volumes[req.name].capacity == (if Enlarges(req) then sources[req.source].capacity else r.capacity)
        && (Clones(req) || req.Copies() ==> req.source in sources)
        && creates == old(creates) + 1 && copies == old(copies) + (if CopiesData(req) then 1 else 0)
      // It is as large as asked for, except for a snapshot restored on SANtricity, which is as large as its source.
      ensures req.name !in old(volumes) && r.Success? ==>
        (r.capacity >= Required(req) <==>
         !(kind == Santricity && req.source != "" && req.sourceIsSnapshot
           && sources[req.source].capacity < Required(req)))
      ensures r.Success? ==> Refusal(req).None?
      // When no command fails by itself, a new volume is made unless the request is refused or its source is missing.
      ensures !faults && req.name !in old(volumes) ==>
        && (r.Success? <==> Refusal(req).None? && Supported(req) && CloneCheck(req).None?
                            && (req.Copies() ==> req.source in sources))
        && (r.Success? <==> req.name in volumes)
      ensures req.name !in old(volumes) && Refusal(req).None? && !Supported(req) ==> r == InvalidArgument
      ensures req.name !in old(volumes) && Refusal(req).None? && Supported(req) && CloneCheck(req).Some? ==>
        r == CloneCheck(req).value
    {
      SourceRefusedExactly(kind, sources, req, Required(req));
      hide SourceCheck, Acceptable;
      if req.requiredBytes > maxSize {
        return OutOfRange;
      }
      var required := if req.requiredBytes == 0 then minSize else req.requiredBytes;
      var refused := SourceCheck(kind, sources, req, required);
      if refused.Some? {
        return refused.value;
      }
      if req.name in volumes {
        r := AnswerForExisting(kind, volumes[req.name], req, required);
        return;
      }
      if !Supported(req) {
        return InvalidArgument;
      }
      var clone := CloneCheck(req);
      if clone.Some? {
        return clone.value;
      }
      var made := MakeVolume(req);
      if made.None? {
        return Failed;
      }
      var v := made.value;
      if req.Copies() {
        var copy := CopyToExistingVolumeFromSource(req.name, req.source, required);
        if copy.CopyFailed? {
          return Failed;
        }
      }
      r := Success(v.id, v.capacity, req.source);
    }

    /** The refusals that do not depend on whether the volume exists. */
    function Refusal(req: Request): Option<Response>
      reads this
    {
      if req.requiredBytes > maxSize then Some(OutOfRange) else SourceCheck(kind, sources, req, Required(req))
    }

    /** `validate_supported_space_efficiency`, whose answer on SANtricity is not looked at. */
    predicate Supported(req: Request) {
      kind == Santricity || req.spaceEfficiency == "" || req.spaceEfficiency in supported
    }

    /**
     Whether a new volume has its source's data. On DS8K it has not when the controller leaves the copy to the array, on
     SANtricity when the source is a volume.
     */
    predicate GetsData(req: Request) {
      && req.source != ""
      && match kind
         case Svc => true
         case Ds8k => !req.virtSnapFunc && req.partition == ""
         case Santricity => req.sourceIsSnapshot
    }

    /** Whether a mediator can tell afterwards that this request made the volume. */
    predicate Repeatable(req: Request) {
      || req.source == "" || req.UseSnapObject() || kind == Svc
      || (kind == Ds8k && req.Copies())
    }

    /**
     Repeating a successful call never makes or copies anything. It succeeds exactly if the volume was there before the
     first one or the request is repeatable. Its answer is the same exactly unless the first call made the volume and
     copying enlarged it: then the repeated one reports more.
     */
    method CreateVolumeTwice(req: Request) returns (first: Response, second: Response)
      modifies this
      ensures first.Success? ==>
        && creates <= old(creates) + 1 && copies <= old(copies) + 1 && req.name in volumes
        && (second.Success? <==> req.name in old(volumes) || Repeatable(req))
        && (!second.Success? ==> second == AlreadyExists)
      ensures first.Success? && second.Success? ==>
        && second.id == first.id && second.source == first.source
        && second.capacity == volumes[req.name].capacity >= first.capacity
        && (second == first <==> req.name in old(volumes) || !Enlarges(req))
    {
      first := CreateVolume(req);
      second := CreateVolume(req);
    }
  }

  /** It does happen: one byte asked for from a source of two, on an array that extends the target. */
  method EnlargedRepeat() returns (first: Response, second: Response)
    ensures first.Success? && second.Success? && first.capacity == 1 && second.capacity == 2
  {
    var sources := map["s" := Source(2, {}, "", true, true)];
    var a := new VolumeArray(false, Ds8k, 1, 10, {}, size => size, sources);
    var req := Request("v", 1, "", "s", false, false, "");
    first := a.CreateVolume(req);
    second := a.CreateVolume(req);
  }

  /** So does the refusal: a snapshot restored on SANtricity, and asked for again. */
  method RefusedRepeat() returns (first: Response, second: Response)
    ensures first.Success? && second == AlreadyExists
  {
    var sources := map["s" := Source(2, {}, "", true, true)];
    var a := new VolumeArray(false, Santricity, 1, 10, {}, size => size, sources);
    var req := Request("v", 1, "", "s", true, false, "");
    first := a.CreateVolume(req);
    second := a.CreateVolume(req);
  }
}
