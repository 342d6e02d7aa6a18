/** Publishing and unpublishing a volume for a node, common to all mediators, and the controller's id lock. */
module ArrayMediators {
  import opened Options
  import opened VolumeIds
  import opened ControllerLocks
  import opened PublishProtocol

  /** Initiator names as compared: stripped, lower-cased, the empty ones left out. */
  datatype Initiators = Initiators(nvmeNqns: set<string>, fcWwns: set<string>, iscsiIqns: set<string>)

  /** `host.initiators in initiators`. */
  predicate Matches(host: Initiators, node: Initiators) {
    || host.nvmeNqns * node.nvmeNqns != {}
    || host.fcWwns * node.fcWwns != {}
    || host.iscsiIqns * node.iscsiIqns != {}
  }

  datatype Connectivity = NvmeOverRoce | NvmeOverFc | Fc | Iscsi

  /** `choose_connectivity_type`. */
  function Choose(types: set<Connectivity>): Option<Connectivity> {
    if NvmeOverRoce in types then Some(NvmeOverRoce)
    else if NvmeOverFc in types then Some(NvmeOverFc)
    else if Fc in types then Some(Fc)
    else if Iscsi in types then Some(Iscsi)
    else None
  }

  /** The kinds of connectivity, the preferred ones first. */
  const PREFERENCE := [NvmeOverRoce, NvmeOverFc, Fc, Iscsi]

  /** The first kind of the preference that there is. */
  lemma ChoosesByPreference(types: set<Connectivity>, k: nat)
    requires k < |PREFERENCE|
    ensures Choose(types) == Some(PREFERENCE[k]) <==>
      PREFERENCE[k] in types && forall j :: 0 <= j < k ==> PREFERENCE[j] !in types
    ensures Choose(types) == None <==> types == {}
  {
    assert PREFERENCE[0] == NvmeOverRoce && PREFERENCE[1] == NvmeOverFc;
    assert PREFERENCE[2] == Fc && PREFERENCE[3] == Iscsi;
    if types != {} {
      var c :| c in types;
      assert c.NvmeOverRoce? || c.NvmeOverFc? || c.Fc? || c.Iscsi?;
    }
  }

  /** A host is the node's if they share an initiator of one kind. */
  lemma MatchesBySharedInitiator(host: Initiators, node: Initiators)
    ensures Matches(host, node) <==>
      || (exists q :: q in host.nvmeNqns && q in node.nvmeNqns)
      || (exists w :: w in host.fcWwns && w in node.fcWwns)
      || exists q :: q in host.iscsiIqns && q in node.iscsiIqns
  {
    if Matches(host, node) {
      var q :|
        q in host.nvmeNqns * node.nvmeNqns || q in host.fcWwns * node.fcWwns || q in host.iscsiIqns * node.iscsiIqns;
    }
    if q :| q in host.nvmeNqns && q in node.nvmeNqns {
      assert q in host.nvmeNqns * node.nvmeNqns;
    }
    if w :| w in host.fcWwns && w in node.fcWwns {
      assert w in host.fcWwns * node.fcWwns;
    }
    if q :| q in host.iscsiIqns && q in node.iscsiIqns {
      assert q in host.iscsiIqns * node.iscsiIqns;
    }
  }

  /** A host defined on the array, with the array ports it can reach. */
  datatype HostRecord = HostRecord(initiators: Initiators, types: set<Connectivity>, targets: seq<string>)

  /** The id an unmap uses for this host's volume. */
  function UnmapId(host: HostRecord, id: string): string {
    if Choose(host.types) == Some(NvmeOverFc) then ConvertScsiIdToNguid(id) else id
  }

  /** The NGUID exactly for a host reached by NVMe/FC, and not by NVMe over RoCE as well. */
  lemma UnmapsByNguidOverNvmeFc(host: HostRecord, id: string)
    requires ConvertScsiIdToNguid(id) != id
    ensures UnmapId(host, id) == ConvertScsiIdToNguid(id) <==> NvmeOverFc in host.types && NvmeOverRoce !in host.types
    ensures UnmapId(host, id) == id || UnmapId(host, id) == ConvertScsiIdToNguid(id)
  {
  }

  predicate IsMappedTo(mappings: map<Volume, Mappings>, v: Option<Volume>, h: Host) {
    v.Some? && v.value in mappings && h in mappings[v.value]
  }

  datatype MapOutcome = Mapped(lun: string) | LunTaken | MapError

  datatype PublishResult =
    | Published(lun: string, connectivity: Connectivity, targets: seq<string>)
    | AlreadyMappedToDifferentHosts
    | VolumeNotFound
    | HostNotFound
    | UnsupportedConnectivity
    | NoTargets
    | LunAlreadyInUse
    | MappingFailed

  /** The LUN a publish call answers, if it succeeds. */
  function Answer(r: PublishResult): Option<string> {
    if r.Published? then Some(r.lun) else None
  }

  /** `after` is `before` with `host` added, at some LUN. */
  predicate HostAdded(before: Mappings, after: Mappings, host: Host) {
    host in after && after == before[host := after[host]]
  }

  /** A host of the node: one that is defined and shares an initiator with it. */
  predicate IsHostOf(hosts: map<Host, HostRecord>, node: Initiators, h: Host) {
    h in hosts && Matches(hosts[h].initiators, node)
  }

  /** `r` answers with the mapping to `h`, a host of the node, and with that host's connectivity and targets. */
  predicate Answers(hosts: map<Host, HostRecord>, mapped: Mappings, node: Initiators, h: Host, r: PublishResult) {
    && IsHostOf(hosts, node, h) && h in mapped && Choose(hosts[h].types).Some?
    && r == Published(mapped[h], Choose(hosts[h].types).value, hosts[h].targets)
  }

  /** What publishing answers and does to the volume's own mappings. */
  ghost predicate PublishEffect(hosts: map<Host, HostRecord>, before: Mappings, after: Mappings,
                                node: Initiators, exclusive: bool, r: PublishResult) {
    // Refused, with nothing changed, exactly for exclusive access to a volume that others have, or more than one.
    && (r.AlreadyMappedToDifferentHosts? <==>
          exclusive && (|before| > 1 || (|before| == 1 && AllForeign(hosts, before, node))))
    && (r.AlreadyMappedToDifferentHosts? ==> after == before)
    // Else, where some mapping says anything, one that does is the answer, and nothing changes.
    && ((!exclusive || |before| <= 1) && !AllForeign(hosts, before, node) ==>
          after == before && exists h :: IsReadFrom(hosts, before, node, h, r))
    // Else a host of the node is mapped, if it has one.
    && ((!exclusive || before == map[]) && AllForeign(hosts, before, node) ==>
          if forall h :: !IsHostOf(hosts, node, h) then r == HostNotFound && after == before
          else exists h :: IsHostOf(hosts, node, h) && IsMapResult(hosts, before, after, node, h, r))
  }

  /** `r` is what the mapping to `h` says: an undefined host is an error, and so is one of no known connectivity. */
  predicate IsReadFrom(hosts: map<Host, HostRecord>, mapped: Mappings, node: Initiators, h: Host, r: PublishResult) {
    && h in mapped
    && if h !in hosts then r == HostNotFound
       else if Choose(hosts[h].types).None? then IsHostOf(hosts, node, h) && r == UnsupportedConnectivity
       else Answers(hosts, mapped, node, h, r)
  }

  /** `r` is what trying to map `h` ends with: at most this host is added, on success or by a command that failed. */
  predicate IsMapResult(hosts: map<Host, HostRecord>, before: Mappings, after: Mappings, node: Initiators, h: Host,
                        r: PublishResult)
    requires h in hosts
  {
    if Choose(hosts[h].types).None? then r == UnsupportedConnectivity && after == before
    else if hosts[h].targets == [] then r == NoTargets && after == before
    else
      match r
      case Published(_, _, _) => HostAdded(before, after, h) && Answers(hosts, after, node, h, r)
      case LunAlreadyInUse => after == before
      case MappingFailed => after == before || HostAdded(before, after, h)
      case _ => false
  }

  /** Success names a host of the node that the volume is mapped to, with that mapping's LUN. */
  lemma PublishedAnswers(hosts: map<Host, HostRecord>, before: Mappings, after: Mappings, node: Initiators,
                         exclusive: bool, r: PublishResult)
    requires PublishEffect(hosts, before, after, node, exclusive, r) && r.Published?
    ensures exists h :: Answers(hosts, after, node, h, r)
  {
    hide Matches, Choose;
  }

  /** Where the volume is mapped to a usable host of the node alone, that mapping is the answer. */
  lemma MappedAlreadyAnswers(hosts: map<Host, HostRecord>, before: Mappings, after: Mappings, node: Initiators,
                             exclusive: bool, h: Host, r: PublishResult)
    requires PublishEffect(hosts, before, after, node, exclusive, r)
    requires before.Keys == {h} && IsHostOf(hosts, node, h) && Choose(hosts[h].types).Some?
    ensures after == before && Answers(hosts, before, node, h, r)
  {
    hide Matches, Choose;
    assert h in before && |before.Keys| == 1;
    var k :| IsReadFrom(hosts, before, node, k, r);
    assert k in before.Keys;
  }

  /** Every mapping is to a defined host of another node. */
  ghost predicate AllForeign(hosts: map<Host, HostRecord>, mapped: Mappings, node: Initiators) {
    forall h :: h in mapped ==> h in hosts && !IsHostOf(hosts, node, h)
  }

  /** Publishing for exclusive access never raises the number of hosts above one. */
  lemma StaysExclusive(hosts: map<Host, HostRecord>, before: Mappings, after: Mappings,
                       node: Initiators, r: PublishResult)
    requires PublishEffect(hosts, before, after, node, true, r) && |before| <= 1
    ensures |after| <= 1
  {
    hide Matches, Choose;
  }

  /** After a successful exclusive publish the volume has one host. */
  lemma PublishedToOneHost(hosts: map<Host, HostRecord>, before: Mappings, after: Mappings, node: Initiators, h: Host,
                           r: PublishResult)
    requires PublishEffect(hosts, before, after, node, true, r) && Answers(hosts, after, node, h, r)
    ensures after.Keys == {h} && |after| == 1
  {
    hide Matches, Choose;
    StaysExclusive(hosts, before, after, node, r);
    OnlyHost(after, h);
    assert |after.Keys| == 1;
  }

  lemma OnlyHost(m: Mappings, h: Host)
    requires |m| <= 1 && h in m
    ensures m.Keys == {h}
  {
    assert |m.Keys - {h}| == 0;
  }

  /** What is to be done once the volume's mappings are read. */
  datatype Decision = Done(r: PublishResult) | MapTo(host: Host)

  /** A host worth mapping: usable, of the node, while nothing read speaks against it. */
  ghost predicate MayMap(hosts: map<Host, HostRecord>, seen: Mappings, node: Initiators, exclusive: bool, h: Host) {
    && IsHostOf(hosts, node, h) && Choose(hosts[h].types).Some? && hosts[h].targets != []
    && AllForeign(hosts, seen, node) && (exclusive ==> seen == map[])
  }

  /** What publishing answers after the map command. */
  function ResultOf(host: HostRecord, mapped: MapOutcome): PublishResult
    requires Choose(host.types).Some?
  {
    match mapped
    case Mapped(lun) => Published(lun, Choose(host.types).value, host.targets)
    case LunTaken => LunAlreadyInUse
    case MapError => MappingFailed
  }

  /** Mapping such a host, or failing to, is all that publishing may do. */
  lemma MappedAsDecided(hosts: map<Host, HostRecord>, before: Mappings, after: Mappings, node: Initiators,
                        exclusive: bool, h: Host, mapped: MapOutcome)
    requires MayMap(hosts, before, node, exclusive, h) && IsMapped(before, after, h, mapped)
    ensures PublishEffect(hosts, before, after, node, exclusive, ResultOf(hosts[h], mapped))
  {
    hide Matches, Choose;
    assert IsMapResult(hosts, before, after, node, h, ResultOf(hosts[h], mapped));
  }

  /**
   A mediator over the array's hosts and the LUN of each volume at each host.

   Any number of threads use it at once, each for a request whose id it has locked. The ghost `run` records every
   step, and between two commands the other threads may do anything the protocol allows.
   */
  class ArrayMediator {
    // Whether commands may fail for reasons outside this model.
    const faults: bool
    // Whether the LUN chosen may be taken by the time a map command runs.
    const contended: bool
    const maxLunRetries: nat
    const hosts: map<Host, HostRecord>
    var mappings: map<Volume, Mappings>
    // The volume of each `map_volume` call of the threads that run the methods below.
    ghost var commands: seq<Volume>
    // The lock's ids, the protocol state, and how it got there.
    ghost const ids: IdsInUse
    ghost var state: State
    ghost var run: seq<State>

    ghost predicate Valid()
      reads this, ids
    {
      && IsRun(run) && run[|run| - 1] == state
      && state.mappings == mappings && state.retries == maxLunRetries && state.locks.Keys == ids.At(VOLUME_ID)
    }

    /** Thread `i` serves a request for the id, which names the array's volume if the array has it. */
    ghost predicate Serving(i: nat, id: string)
      reads this
    {
      && i < |state.threads| && !state.threads[i].Idle? && Names(state.threads[i].id, id)
    }

    ghost predicate Names(csi: Id, id: string)
      reads this
    {
      csi in state.uids && (Resolve(mappings, id).Some? ==> state.uids[csi] == Resolve(mappings, id).value)
    }

    /** From one state to the next thread `i` has reached `p` and the terms of the run are the same. */
    twostate predicate Reached(i: nat, p: Point)
      reads this
    {
      && SameTerms(old(state), state) && |state.threads| == |old(state).threads| && old(run) <= run
      && mappings.Keys == old(mappings).Keys && i < |state.threads| && state.threads[i] == p
    }

    constructor (faults: bool, contended: bool, maxLunRetries: nat, mappings: map<Volume, Mappings>,
                 hosts: map<Host, HostRecord>, ghost ids: IdsInUse, ghost uids: map<Id, Volume>, ghost sharing: bool,
                 ghost threadCount: nat)
      requires ids.At(VOLUME_ID) == {} && (!sharing ==> AllAtMostOne(mappings))
      ensures Valid() && this.ids == ids
      ensures this.faults == faults && this.contended == contended && this.maxLunRetries == maxLunRetries
      ensures this.mappings == mappings && this.hosts == hosts && commands == []
      ensures state == State(uids, maxLunRetries, sharing, mappings, map[], seq(threadCount, k => Idle))
    {
      this.faults, this.contended, this.maxLunRetries := faults, contended, maxLunRetries;
      this.mappings, this.hosts, this.ids, commands := mappings, hosts, ids, [];
      state := State(uids, maxLunRetries, sharing, mappings, map[], seq(threadCount, k => Idle));
      run := [state];
    }

    /** Thread `i` has just acted on the mappings or on the lock on its way to `p`. */
    ghost method Record(i: nat, locks: map<Id, nat>, p: Point)
      requires IsRun(run) && run[|run| - 1] == state && i < |state.threads| && state.retries == maxLunRetries
      requires Move(state, i, state.threads[i], mappings, locks, p) && locks.Keys == ids.At(VOLUME_ID)
      modifies this`state, this`run
      ensures Valid() && run == old(run) + [state]
      ensures state == old(state).(mappings := mappings, locks := locks, threads := old(state).threads[i := p])
    {
      hide Move, IsRun;
      run := Advanced(run, i, mappings, locks, p);
      state := state.(mappings := mappings, locks := locks, threads := state.threads[i := p]);
    }

    /** The other threads run for a while. Callers know only that they kept to the protocol. */
    method Interfere(ghost i: nat)
      requires Valid() && i < |state.threads|
      modifies this`mappings, this`state, this`run, ids
      ensures Valid() && OthersOnly(old(run), run, i)
    {
    }

    /** What thread `i` finds when it goes on: its own volume as it left it, if the id is the volume's only one. */
    method Yield(ghost i: nat)
      requires Valid() && i < |state.threads|
      modifies this`mappings, this`state, this`run, ids
      ensures Valid() && Reached(i, old(state).threads[i]) && LeftAlone(old(state), state, i)
    {
      hide IsRun, OthersOnly;
      ghost var before := run;
      Interfere(i);
      OthersLeaveAlone(before, run, i);
    }

    /** The hosts a volume is mapped to, in the order the dictionary lists them. */
    method MappedHosts(v: Volume) returns (order: seq<Host>)
      requires v in mappings
      ensures forall h :: h in order <==> h in mappings[v]
      ensures |order| == |mappings[v]|
    {
      order := [];
      var left := mappings[v].Keys;
      while left != {}
        invariant left <= mappings[v].Keys && |order| + |left| == |mappings[v]|
        invariant forall h :: h in order <==> h in mappings[v] && h !in left
        decreases |left|
      {
        var h :| h in left;
        left := left - {h};
        order := order + [h];
      }
    }

    /** `get_host_by_host_identifiers`: some host that shares an initiator with the node. */
    method FindHost(node: Initiators) returns (host: Option<Host>)
      ensures host.Some? ==> IsHostOf(hosts, node, host.value)
      ensures host.None? ==> forall h :: !IsHostOf(hosts, node, h)
    {
      var left := hosts.Keys;
      while left != {}
        invariant left <= hosts.Keys
        invariant forall h :: h in hosts && h !in left ==> !IsHostOf(hosts, node, h)
        decreases |left|
      {
        var h :| h in left;
        if Matches(hosts[h].initiators, node) {
          return Some(h);
        }
        left := left - {h};
      }
      host := None;
    }

    /** What one mapping read answers: an undefined host is an error, a host of another node says nothing. */
    function ReadMapping(v: Volume, h: Host, node: Initiators): Option<PublishResult>
      requires v in mappings && h in mappings[v]
      reads this
    {
      if h !in hosts then Some(HostNotFound)
      else if !Matches(hosts[h].initiators, node) then None
      else if Choose(hosts[h].types).None? then Some(UnsupportedConnectivity)
      else Some(Published(mappings[v][h], Choose(hosts[h].types).value, hosts[h].targets))
    }

    /** The loop over the mappings: the first one that says anything answers. */
    method FindExisting(v: Volume, order: seq<Host>, node: Initiators) returns (r: Option<PublishResult>)
      requires v in mappings && forall h :: h in order <==> h in mappings[v]
      ensures r.None? <==> AllForeign(hosts, mappings[v], node)
      ensures r.Some? ==>
        exists k :: 0 <= k < |order| && IsFirstAnswer(v, order, k, node) && r == ReadMapping(v, order[k], node)
    {
      for k := 0 to |order|
        invariant forall j :: 0 <= j < k ==> ReadMapping(v, order[j], node).None?
      {
        var h := order[k];
        assert h in order;
        if h !in hosts {
          assert IsFirstAnswer(v, order, k, node);
          return Some(HostNotFound);
        }
        if Matches(hosts[h].initiators, node) {
          assert IsFirstAnswer(v, order, k, node);
          var connectivity := Choose(hosts[h].types);
          if connectivity.None? {
            return Some(UnsupportedConnectivity);
          }
          return Some(Published(mappings[v][h], connectivity.value, hosts[h].targets));
        }
      }
      forall h | h in mappings[v] ensures h in hosts && !IsHostOf(hosts, node, h) {
        var k :| 0 <= k < |order| && order[k] == h;
        assert ReadMapping(v, order[k], node).None?;
      }
      r := None;
    }

    ghost predicate IsFirstAnswer(v: Volume, order: seq<Host>, k: int, node: Initiators)
      requires v in mappings && forall h :: h in order ==> h in mappings[v]
      reads this
    {
      && 0 <= k < |order| && ReadMapping(v, order[k], node).Some?
      && forall j :: 0 <= j < k ==> ReadMapping(v, order[j], node).None?
    }

    lemma ReadingIsEffect(v: Volume, h: Host, node: Initiators, exclusive: bool)
      requires v in mappings && h in mappings[v] && ReadMapping(v, h, node).Some? && (exclusive ==> |mappings[v]| <= 1)
      ensures PublishEffect(hosts, mappings[v], mappings[v], node, exclusive, ReadMapping(v, h, node).value)
    {
      hide Matches, Choose;
      var r := ReadMapping(v, h, node).value;
      assert IsReadFrom(hosts, mappings[v], node, h, r);
    }

    /** Publishing up to the map command: everything that only reads. */
    method Decide(v: Volume, node: Initiators, exclusive: bool) returns (d: Decision)
      requires v in mappings
      ensures d.MapTo? ==> MayMap(hosts, mappings[v], node, exclusive, d.host)
      ensures d.Done? ==> PublishEffect(hosts, mappings[v], mappings[v], node, exclusive, d.r)
      ensures d.Done? ==> !d.r.VolumeNotFound? && !d.r.MappingFailed? && !d.r.LunAlreadyInUse?
      ensures d.Done? && exclusive && d.r.Published? ==> |mappings[v]| == 1
    {
      hide Matches, Choose;
      var order := MappedHosts(v);
      if exclusive && |order| > 1 {
        return Done(AlreadyMappedToDifferentHosts);
      }
      var early := FindExisting(v, order, node);
      if early.Some? {
        ghost var k :| 0 <= k < |order| && IsFirstAnswer(v, order, k, node) && early == ReadMapping(v, order[k], node);
        assert order[k] in order;
        ReadingIsEffect(v, order[k], node, exclusive);
        return Done(early.value);
      }
      if exclusive && |order| == 1 {
        return Done(AlreadyMappedToDifferentHosts);
      }
      var host := FindHost(node);
      if host.None? {
        return Done(HostNotFound);
      }
      if Choose(hosts[host.value].types).None? {
        return Done(UnsupportedConnectivity);
      }
      if hosts[host.value].targets == [] {
        return Done(NoTargets);
      }
      d := MapTo(host.value);
    }

    /** `map_volume`: the array adds this host, or reports the LUN taken, or fails having added it or not. */
    method MapVolume(ghost i: nat, v: Volume, host: Host) returns (r: MapOutcome)
      requires Valid() && i < |state.threads| && IsMapping(i, v, host) && v in mappings
      modifies this`mappings, this`commands, this`state, this`run
      ensures commands == old(commands) + [v] && (r.MapError? ==> faults) && (r.LunTaken? ==> contended)
      ensures v in mappings && mappings == old(mappings)[v := mappings[v]]
      ensures IsMapped(old(mappings)[v], mappings[v], host, r)
      ensures Valid() && Reached(i, AfterMap(maxLunRetries, old(state).threads[i], r))
    {
      commands := commands + [v];
      var taken: bool, failed: bool, added: bool, lun: string := *, *, *, *;
      taken, failed := taken && contended, failed && faults;
      if !taken && (!failed || added) {
        mappings := mappings[v := mappings[v][host := lun]];
      }
      r := if taken then LunTaken else if failed then MapError else Mapped(lun);
      MapIsMove(state, i, v, host, mappings, r);
      hide Move, IsRun;
      Record(i, state.locks, AfterMap(maxLunRetries, state.threads[i], r));
    }

    ghost predicate IsMapping(i: nat, v: Volume, host: Host)
      reads this
    {
      && i < |state.threads| && state.threads[i].Mapping? && state.threads[i].host == host
      && state.threads[i].id in state.uids && state.uids[state.threads[i].id] == v
    }

    /** The map command and its retries: as many tries as configured, and always one. */
    method MapWithRetries(ghost i: nat, v: Volume, host: Host) returns (r: MapOutcome)
      requires Valid() && i < |state.threads| && IsMapping(i, v, host) && state.threads[i].tries == 0 && v in mappings
      modifies this`mappings, this`commands, this`state, this`run, ids
      ensures (r.MapError? ==> faults) && (r.LunTaken? ==> contended)
      ensures OnlyCommands(old(commands), commands, v) && |commands| <= |old(commands)| + Tries(maxLunRetries)
      ensures r.LunTaken? ==> |commands| == |old(commands)| + Tries(maxLunRetries)
      ensures v in mappings && (OneIdPerVolume(state.uids) ==> IsMapped(old(mappings)[v], mappings[v], host, r))
      ensures Valid() && Reached(i, Leaving(old(state).threads[i].id, if r.Mapped? then Some(r.lun) else None))
    {
      hide IsRun, Move, OneIdPerVolume, LeftAlone;
      r := MapVolume(i, v, host);
      if r.LunTaken? && maxLunRetries > 1 {
        r := Retry(i, v, host);
      }
    }

    /** The loop over the other tries. */
    method Retry(ghost i: nat, v: Volume, host: Host) returns (r: MapOutcome)
      requires Valid() && i < |state.threads| && IsMapping(i, v, host) && state.threads[i].tries == 1 && v in mappings
      requires maxLunRetries > 1 && contended
      modifies this`mappings, this`commands, this`state, this`run, ids
      ensures (r.MapError? ==> faults) && (r.LunTaken? ==> contended)
      ensures OnlyCommands(old(commands), commands, v) && |commands| < |old(commands)| + maxLunRetries
      ensures r.LunTaken? ==> |commands| == |old(commands)| + maxLunRetries - 1
      ensures v in mappings && (OneIdPerVolume(state.uids) ==> IsMapped(old(mappings)[v], mappings[v], host, r))
      ensures Valid() && Reached(i, Leaving(old(state).threads[i].id, if r.Mapped? then Some(r.lun) else None))
    {
      hide IsRun, Move, OneIdPerVolume, LeftAlone;
      ghost var p := state.threads[i];
      r := LunTaken;
      for k := 1 to maxLunRetries
        invariant r.LunTaken? && Valid() && v in mappings
        invariant Reached(i, if k < maxLunRetries then p.(tries := k) else Leaving(p.id, None))
        invariant OnlyCommands(old(commands), commands, v) && |commands| == |old(commands)| + k - 1
        invariant OneIdPerVolume(state.uids) ==> mappings[v] == old(mappings)[v]
      {
        r := MapAgain(i, v, host);
        if !r.LunTaken? {
          return;
        }
      }
    }

    /** One more try, after the other threads have had theirs. */
    method MapAgain(ghost i: nat, v: Volume, host: Host) returns (r: MapOutcome)
      requires Valid() && i < |state.threads| && IsMapping(i, v, host) && v in mappings
      modifies this`mappings, this`commands, this`state, this`run, ids
      ensures commands == old(commands) + [v] && (r.MapError? ==> faults) && (r.LunTaken? ==> contended)
      ensures v in mappings && (OneIdPerVolume(state.uids) ==> IsMapped(old(mappings)[v], mappings[v], host, r))
      ensures Valid() && Reached(i, AfterMap(maxLunRetries, old(state).threads[i], r))
    {
      hide IsRun, Move, OneIdPerVolume;
      Yield(i);
      r := MapVolume(i, v, host);
    }

    /** `map_volume_by_initiators`, for a thread that has locked the request's id. */
    method MapVolumeByInitiators(ghost i: nat, id: string, node: Initiators, exclusive: bool) returns (r: PublishResult)
      requires Valid() && Serving(i, id) && state.threads[i] == Reading(state.threads[i].id, exclusive)
      modifies this`mappings, this`commands, this`state, this`run, ids
      ensures Valid() && Reached(i, Leaving(old(state).threads[i].id, Answer(r)))
      ensures (r.MappingFailed? ==> faults) && (r.LunAlreadyInUse? ==> contended)
      // Nothing that other threads do meanwhile shows in what becomes of the volume.
      ensures PublishOutcome(hosts, state.uids, maxLunRetries, old(mappings), mappings, old(commands), commands,
                             id, node, exclusive, r)
    {
      hide IsRun, OneIdPerVolume, PublishEffect, Matches, Choose;
      ghost var csi := state.threads[i].id;
      var located := Resolve(mappings, id);
      if located.None? {
        Record(i, state.locks, Leaving(csi, None));
        return VolumeNotFound;
      }
      var v := located.value;
      var decision := Decide(v, node, exclusive);
      match decision {
        case Done(result) =>
          r := result;
          LunIsThere(mappings[v], node, exclusive, r);
          Record(i, state.locks, Leaving(csi, Answer(r)));
        case MapTo(host) =>
          r := MapDecided(i, csi, v, host, node, exclusive);
      }
    }

    /** A LUN answered without a map command is one of those read. */
    lemma LunIsThere(seen: Mappings, node: Initiators, exclusive: bool, r: PublishResult)
      requires PublishEffect(hosts, seen, seen, node, exclusive, r)
      ensures r.Published? ==> r.lun in seen.Values
    {
    }

    /** The map command for the host decided on, with what it answers. */
    method MapDecided(ghost i: nat, ghost csi: Id, v: Volume, host: Host, node: Initiators, exclusive: bool)
      returns (r: PublishResult)
      requires Valid() && i < |state.threads| && state.threads[i] == Reading(csi, exclusive)
      requires csi in state.uids && state.uids[csi] == v && v in mappings
      requires MayMap(hosts, mappings[v], node, exclusive, host)
      modifies this`mappings, this`commands, this`state, this`run, ids
      ensures Valid() && Reached(i, Leaving(csi, Answer(r)))
      ensures !r.VolumeNotFound? && (r.MappingFailed? ==> faults) && (r.LunAlreadyInUse? ==> contended)
      ensures v in mappings && OnlyCommands(old(commands), commands, v)
      ensures |commands| <= |old(commands)| + Tries(maxLunRetries)
      ensures OneIdPerVolume(state.uids) ==>
        PublishEffect(hosts, old(mappings)[v], mappings[v], node, exclusive, r)
    {
      hide IsRun, OneIdPerVolume, PublishEffect, IsMapped, Matches, Choose;
      ghost var before := mappings[v];
      Record(i, state.locks, Mapping(csi, exclusive, host, 0));
      Yield(i);
      var mapped := MapWithRetries(i, v, host);
      r := ResultOf(hosts[host], mapped);
      if OneIdPerVolume(state.uids) {
        MappedAsDecided(hosts, before, mappings[v], node, exclusive, host, mapped);
      }
    }

    /** `unmap_volume`: refused for a volume that is not there or not mapped to the host. */
    method UnmapVolume(ghost i: nat, id: string, host: Host) returns (ok: bool)
      requires Valid() && i < |state.threads| && state.threads[i].Unmapping? && Names(state.threads[i].id, id)
      modifies this`mappings, this`state, this`run
      ensures Valid() && Reached(i, Leaving(old(state).threads[i].id, None))
      ensures ok ==> IsMappedTo(old(mappings), Resolve(old(mappings), id), host)
      ensures !faults && IsMappedTo(old(mappings), Resolve(old(mappings), id), host) ==> ok
      ensures ok ==>
        var v := Resolve(old(mappings), id).value;
        v == state.uids[old(state).threads[i].id] && mappings == old(mappings)[v := old(mappings)[v] - {host}]
      ensures !ok ==> mappings == old(mappings)
    {
      var located := Resolve(mappings, id);
      var accepted: bool := *;
      ok := (accepted || !faults) && located.Some? && host in mappings[located.value];
      if ok {
        mappings := mappings[located.value := mappings[located.value] - {host}];
      }
      Record(i, state.locks, Leaving(state.threads[i].id, None));
    }

    /** `unmap_volume_by_initiators`: over NVMe/FC the volume is looked up by its NGUID. */
    method UnmapVolumeByInitiators(ghost i: nat, id: string, node: Initiators) returns (ok: bool)
      requires Valid() && Serving(i, id) && Serving(i, ConvertScsiIdToNguid(id)) && state.threads[i].Unmapping?
      modifies this`mappings, this`state, this`run, ids
      ensures Valid() && Reached(i, Leaving(old(state).threads[i].id, None))
      ensures OneIdPerVolume(state.uids) && state.uids[old(state).threads[i].id] in mappings ==>
        var v := state.uids[old(state).threads[i].id];
        UnpublishEffect(hosts, old(mappings), v, mappings[v], id, node, faults, ok)
    {
      hide IsRun, Move, OneIdPerVolume, Matches, Choose;
      ghost var before := mappings;
      var host := FindHost(node);
      if host.None? {
        Unmapped(i);
        return false;
      }
      Yield(i);
      SameKeysResolve(before, mappings, UnmapId(hosts[host.value], id));
      ok := UnmapVolume(i, UnmapId(hosts[host.value], id), host.value);
    }

    /** Thread `i` is done without an unmap command. */
    ghost method Unmapped(i: nat)
      requires Valid() && i < |state.threads| && state.threads[i].Unmapping? && state.threads[i].id in state.uids
      modifies this`state, this`run
      ensures Valid() && Reached(i, Leaving(old(state).threads[i].id, None))
    {
      Record(i, state.locks, Leaving(state.threads[i].id, None));
    }
  }

  /** A map command is a step of the protocol. */
  lemma MapIsMove(s: State, i: nat, v: Volume, host: Host, mappings': map<Volume, Mappings>, r: MapOutcome)
    requires i < |s.threads| && s.threads[i].Mapping? && s.threads[i].host == host && s.threads[i].id in s.uids
    requires s.uids[s.threads[i].id] == v && v in s.mappings && v in mappings'
    requires mappings' == s.mappings[v := mappings'[v]] && IsMapped(s.mappings[v], mappings'[v], host, r)
    ensures Move(s, i, s.threads[i], mappings', s.locks, AfterMap(s.retries, s.threads[i], r))
  {
  }

  lemma SameKeysResolve<T>(a: map<string, T>, b: map<string, T>, id: string)
    requires a.Keys == b.Keys
    ensures Resolve(a, id) == Resolve(b, id)
  {
  }

  /** What a map command did to the volume's mappings. */
  predicate IsMapped(before: Mappings, after: Mappings, host: Host, r: MapOutcome) {
    match r
    case Mapped(lun) => after == before[host := lun]
    case LunTaken => after == before
    case MapError => after == before || (host in after && after == before[host := after[host]])
  }

  /** Every command from `before` to `after` was for this volume. */
  ghost predicate OnlyCommands(before: seq<Volume>, after: seq<Volume>, v: Volume) {
    before <= after && forall k :: |before| <= k < |after| ==> after[k] == v
  }

  /** The thread that issued a map command goes on to leave, or to try again. */
  function AfterMap(retries: nat, p: Point, r: MapOutcome): Point
    requires p.Mapping?
  {
    match r
    case Mapped(lun) => Leaving(p.id, Some(lun))
    case LunTaken => Retried(retries, p)
    case MapError => Leaving(p.id, None)
  }

  /** What a publish call does: to its volume, and by which map commands. */
  ghost predicate PublishOutcome(
      hosts: map<Host, HostRecord>, uids: map<Id, Volume>, retries: nat, before: map<Volume, Mappings>,
      after: map<Volume, Mappings>, commands: seq<Volume>, commands': seq<Volume>, id: string, node: Initiators,
      exclusive: bool, r: PublishResult)
  {
    && |commands'| <= |commands| + Tries(retries)
    && (r.VolumeNotFound? <==> Resolve(before, id).None?)
    && match Resolve(before, id)
       case None => commands' == commands
       case Some(v) =>
         && v in after && OnlyCommands(commands, commands', v)
         && (OneIdPerVolume(uids) ==>
               && PublishEffect(hosts, before[v], after[v], node, exclusive, r)
               // Where the volume is already, no map command is issued.
               && (forall h :: before[v].Keys == {h} && IsHostOf(hosts, node, h) && Choose(hosts[h].types).Some? ==>
                     commands' == commands))
  }

  /** What other threads do to other volumes before and after does not show. */
  lemma OutcomeCarries(
      hosts: map<Host, HostRecord>, uids: map<Id, Volume>, retries: nat, first: map<Volume, Mappings>,
      before: map<Volume, Mappings>, after: map<Volume, Mappings>, last: map<Volume, Mappings>,
      commands: seq<Volume>, commands': seq<Volume>, id: string, node: Initiators, exclusive: bool, r: PublishResult,
      own: Volume)
    requires PublishOutcome(hosts, uids, retries, before, after, commands, commands', id, node, exclusive, r)
    requires first.Keys == before.Keys == after.Keys == last.Keys
    requires Resolve(before, id).Some? ==> Resolve(before, id).value == own
    requires OneIdPerVolume(uids) ==> Of(first, own) == Of(before, own) && Of(after, own) == Of(last, own)
    ensures PublishOutcome(hosts, uids, retries, first, last, commands, commands', id, node, exclusive, r)
  {
    hide PublishEffect, OneIdPerVolume, Matches, Choose;
    SameKeysResolve(first, before, id);
  }

  /** One mapping of the volume, to a host of the node, is removed; or none is, and without faults there was none. */
  ghost predicate UnpublishEffect(hosts: map<Host, HostRecord>, before: map<Volume, Mappings>, v: Volume,
                                  after: Mappings, id: string, node: Initiators, faults: bool, ok: bool) {
    && v in before
    && (ok ==> exists h :: IsHostOf(hosts, node, h) && Resolve(before, UnmapId(hosts[h], id)) == Some(v)
                           && h in before[v] && after == before[v] - {h})
    && (!ok ==> after == before[v])
    && (!ok && !faults ==>
          (forall h :: !IsHostOf(hosts, node, h))
          || exists h :: IsHostOf(hosts, node, h) && !IsMappedTo(before, Resolve(before, UnmapId(hosts[h], id)), h))
  }
}
