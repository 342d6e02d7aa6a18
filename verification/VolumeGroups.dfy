/** Volume-group reconciliation: the two loops of `ModifyVolumeGroupMembership` over the array's groups. */
module VolumeGroups {
  import opened Options
  import opened VolumeIds

  type Uid = string

  /** The group of each volume on the array; the empty text is no group. */
  type Groups = map<Uid, string>

  function Members(groups: Groups, group: string): set<Uid> {
    set u | u in groups && groups[u] == group
  }

  /** `_is_volume_id_in_volume_group`. */
  predicate InGroup(id: string, members: set<Uid>) {
    id in members || ConvertScsiIdToNguid(id) in members
  }

  /** `_is_volume_id_in_request`. */
  predicate Matches(uid: Uid, requested: string) {
    uid == requested || Contains(requested, ConvertNguidToScsiId(uid))
  }

  predicate MatchesSome(uid: Uid, request: seq<string>) {
    exists k :: 0 <= k < |request| && Matches(uid, request[k])
  }

  /** A volume the request names, under its SCSI id or its NGUID. */
  predicate Named(uid: Uid, request: seq<string>) {
    exists k :: 0 <= k < |request| && (uid == request[k] || uid == ConvertScsiIdToNguid(request[k]))
  }

  /** The volumes an add is issued for, given the members listed at the start. */
  predicate Added(groups: Groups, members: set<Uid>, request: seq<string>, uid: Uid) {
    exists k :: 0 <= k < |request| && !InGroup(request[k], members) && Resolve(groups, request[k]) == Some(uid)
  }

  /** The array after both loops; a removed volume ends in `elsewhere`. */
  function Reconciled(groups: Groups, group: string, elsewhere: string, request: seq<string>): Groups {
    map u | u in groups ::
      if Added(groups, Members(groups, group), request, u) then group
      else if groups[u] == group && !MatchesSome(u, request) then elsewhere
      else groups[u]
  }

  /** `after` is `before` with the volumes of requested ids that are not yet members moved to `group`. */
  ghost predicate IsAdded(before: Groups, after: Groups, group: string, request: seq<string>) {
    && after.Keys == before.Keys
    && forall u :: u in after ==>
                     after[u] == if Added(before, Members(before, group), request, u) then group else before[u]
  }

  lemma AddedNothing(before: Groups, group: string, request: seq<string>)
    ensures IsAdded(before, before, group, request[..0]) && AllExist(before, request[..0])
  {
  }

  lemma AddedOne(before: Groups, now: Groups, group: string, request: seq<string>, k: nat)
    requires k < |request| && IsAdded(before, now, group, request[..k])
    ensures Resolve(now, request[k]) == Resolve(before, request[k])
    ensures Resolve(before, request[k]).Some? ==> Resolve(before, request[k]).value in before
    ensures InGroup(request[k], Members(before, group)) ==>
      IsAdded(before, now, group, request[..k + 1]) && Resolve(before, request[k]).Some?
    ensures !InGroup(request[k], Members(before, group)) && Resolve(before, request[k]).Some? ==>
      IsAdded(before, now[Resolve(before, request[k]).value := group], group, request[..k + 1])
    ensures Resolve(before, request[k]).Some? && AllExist(before, request[..k]) ==> AllExist(before, request[..k + 1])
  {
    hide ConvertScsiIdToNguid;
    assert request[..k + 1] == request[..k] + [request[k]];
    forall u ensures Added(before, Members(before, group), request[..k + 1], u) <==>
      || Added(before, Members(before, group), request[..k], u)
      || (!InGroup(request[k], Members(before, group)) && Resolve(before, request[k]) == Some(u))
    {
      AddedGrows(before, Members(before, group), request, k, u);
    }
    hide Added;
  }

  lemma AddedGrows(before: Groups, members: set<Uid>, request: seq<string>, k: nat, u: Uid)
    requires k < |request|
    ensures Added(before, members, request[..k + 1], u) <==>
      || Added(before, members, request[..k], u)
      || (!InGroup(request[k], members) && Resolve(before, request[k]) == Some(u))
  {
    hide InGroup, Resolve;
    assert request[..k + 1] == request[..k] + [request[k]];
  }

  /** The id names a member, or a volume that may be moved in: one of no group, or any in a partition. */
  ghost predicate Movable(groups: Groups, group: string, partition: bool, r: string) {
    || InGroup(r, Members(groups, group))
    || (Resolve(groups, r).Some? && (partition || groups[Resolve(groups, r).value] == ""))
  }

  ghost predicate AllMovable(groups: Groups, group: string, partition: bool, request: seq<string>) {
    forall k :: 0 <= k < |request| ==> Movable(groups, group, partition, request[k])
  }

  lemma NothingToMove(groups: Groups, group: string, partition: bool, request: seq<string>)
    ensures AllMovable(groups, group, partition, request[..0])
  {
  }

  /** Part-way through, the array accepts a volume exactly if it was movable at the start. */
  lemma MovableOne(before: Groups, now: Groups, group: string, partition: bool, request: seq<string>, k: nat)
    requires k < |request| && IsAdded(before, now, group, request[..k])
    ensures AllMovable(before, group, partition, request) ==> Movable(before, group, partition, request[k])
    ensures AllMovable(before, group, partition, request[..k]) && Movable(before, group, partition, request[k]) ==>
      AllMovable(before, group, partition, request[..k + 1])
    ensures var uid := Resolve(before, request[k]);
      AllMovable(before, group, partition, request[..k]) && !InGroup(request[k], Members(before, group)) ==>
        (Movable(before, group, partition, request[k]) <==>
         uid.Some? && (partition || now[uid.value] in {"", group}))
    ensures InGroup(request[k], Members(before, group)) ==> Movable(before, group, partition, request[k])
  {
    assert request[..k + 1] == request[..k] + [request[k]];
    var uid := Resolve(before, request[k]);
    if AllMovable(before, group, partition, request[..k]) && uid.Some?
       && Added(before, Members(before, group), request[..k], uid.value) {
      var i :| 0 <= i < k && !InGroup(request[..k][i], Members(before, group))
               && Resolve(before, request[..k][i]) == uid;
      assert Movable(before, group, partition, request[..k][i]);
    }
    hide Added, ConvertScsiIdToNguid;
  }

  /** Each volume is where it was or where the whole request puts it. */
  ghost predicate IsPartOf(before: Groups, after: Groups, group: string, elsewhere: string, request: seq<string>) {
    && after.Keys == before.Keys
    && forall u :: u in after ==>
                     after[u] == before[u] || after[u] == Reconciled(before, group, elsewhere, request)[u]
  }

  lemma AddingIsPart(before: Groups, after: Groups, group: string, elsewhere: string, request: seq<string>, k: nat)
    requires k <= |request| && IsAdded(before, after, group, request[..k])
    ensures IsPartOf(before, after, group, elsewhere, request)
  {
    forall u | Added(before, Members(before, group), request[..k], u)
      ensures Added(before, Members(before, group), request, u)
    {
      var i :| 0 <= i < k && !InGroup(request[..k][i], Members(before, group))
               && Resolve(before, request[..k][i]) == Some(u);
      assert request[i] == request[..k][i];
    }
    hide Added, MatchesSome;
  }

  lemma MemberMeans(groups: Groups, group: string, u: Uid)
    requires u in groups
    ensures u in Members(groups, group) <==> groups[u] == group
  {
  }

  /** Both loops together do what the request asks for; stopped in the second one, a part of it. */
  lemma RemovingIsRest(before: Groups, mid: Groups, after: Groups, group: string, elsewhere: string,
                       request: seq<string>, listed: seq<Uid>, k: nat)
    requires k <= |listed| && IsAdded(before, mid, group, request)
    requires forall u :: u in listed <==> u in Members(before, group)
    requires IsRemoved(mid, after, listed[..k], request, elsewhere)
    ensures IsPartOf(before, after, group, elsewhere, request)
    ensures k == |listed| ==> after == Reconciled(before, group, elsewhere, request)
  {
    forall u | u in before
      ensures after[u] == before[u] || after[u] == Reconciled(before, group, elsewhere, request)[u]
      ensures k == |listed| ==> after[u] == Reconciled(before, group, elsewhere, request)[u]
    {
      AddedWasOutside(before, group, request);
      hide Added, MatchesSome, Members;
      assert k == |listed| ==> listed[..k] == listed;
      assert u in listed[..k] ==> u in listed;
      MemberMeans(before, group, u);
    }
  }

  /** `after` is `before` with the listed volumes that match no requested id moved to `elsewhere`. */
  ghost predicate IsRemoved(before: Groups, after: Groups, listed: seq<Uid>, request: seq<string>, elsewhere: string) {
    && after.Keys == before.Keys
    && forall u :: u in after ==>
                     after[u] == if u in listed && !MatchesSome(u, request) then elsewhere else before[u]
  }

  lemma RemovedNothing(before: Groups, listed: seq<Uid>, request: seq<string>, elsewhere: string)
    ensures IsRemoved(before, before, listed[..0], request, elsewhere)
  {
  }

  lemma RemovedOne(before: Groups, now: Groups, listed: seq<Uid>, j: nat, request: seq<string>, elsewhere: string)
    requires j < |listed| && listed[j] in before && IsRemoved(before, now, listed[..j], request, elsewhere)
    ensures var after := if MatchesSome(listed[j], request) then now else now[listed[j] := elsewhere];
      IsRemoved(before, after, listed[..j + 1], request, elsewhere)
  {
    hide MatchesSome;
    assert listed[..j + 1] == listed[..j] + [listed[j]];
  }

  class GroupArray {
    // Whether commands may fail for reasons outside this model.
    const faults: bool
    var groups: Groups
    // Add and remove commands issued so far.
    ghost var commands: nat

    constructor (faults: bool, groups: Groups)
      ensures this.faults == faults && this.groups == groups && commands == 0
    {
      this.faults := faults;
      this.groups := groups;
      commands := 0;
    }

    /** `get_volume_group`, as the uids of its volumes in some order. */
    method ListMembers(group: string) returns (uids: seq<Uid>)
      ensures forall u :: u in uids <==> u in Members(groups, group)
    {
      uids := [];
      var left := groups.Keys;
      while left != {}
        invariant left <= groups.Keys
        invariant forall u :: u in uids <==> u in groups && u !in left && groups[u] == group
        decreases |left|
      {
        var u :| u in left;
        left := left - {u};
        if groups[u] == group {
          uids := uids + [u];
        }
      }
    }

    /** `add_volume_to_volume_group`: refused for a volume of another group, unless a partition is given. */
    method AddVolumeToVolumeGroup(group: string, id: string, partition: bool) returns (ok: bool)
      modifies this
      ensures commands == old(commands) + 1
      ensures ok ==>
        Resolve(old(groups), id).Some? && groups == old(groups)[Resolve(old(groups), id).value := group]
      ensures !ok ==> groups == old(groups)
      ensures var uid := Resolve(old(groups), id);
        !faults ==> (ok <==> uid.Some? && (partition || old(groups)[uid.value] in {"", group}))
    {
      commands := commands + 1;
      var uid := Resolve(groups, id);
      ok := *;
      ok := (ok || !faults) && uid.Some? && (partition || groups[uid.value] == "" || groups[uid.value] == group);
      if ok {
        groups := groups[uid.value := group];
      }
    }

    /** `remove_volume_from_volume_group`: to no group, or to the partition's own. */
    method RemoveVolumeFromVolumeGroup(id: string, elsewhere: string) returns (ok: bool)
      modifies this
      ensures commands == old(commands) + 1
      ensures ok ==>
        Resolve(old(groups), id).Some? && groups == old(groups)[Resolve(old(groups), id).value := elsewhere]
      ensures !ok ==> groups == old(groups)
      ensures !faults ==> (ok <==> Resolve(old(groups), id).Some?)
    {
      commands := commands + 1;
      var uid := Resolve(groups, id);
      ok := *;
      ok := (ok || !faults) && uid.Some?;
      if ok {
        groups := groups[uid.value := elsewhere];
      }
    }

    method AddVolumesMissingFromGroup(request: seq<string>, listed: seq<Uid>, group: string, partition: bool)
      returns (ok: bool)
      requires forall u :: u in listed <==> u in Members(groups, group)
      modifies this
      ensures ok ==> AllExist(old(groups), request) && IsAdded(old(groups), groups, group, request)
      ensures !faults ==> (ok <==> AllMovable(old(groups), group, partition, request))
      ensures exists k: nat :: k <= |request| && IsAdded(old(groups), groups, group, request[..k])
      ensures (forall r :: r in request ==> InGroup(r, Members(old(groups), group))) ==> ok && commands == old(commands)
    {
      hide ConvertScsiIdToNguid, Resolve, Members, IsAdded, AllMovable;
      NothingToMove(groups, group, partition, request);
      ghost var members := Members(groups, group);
      AddedNothing(groups, group, request);
      for k := 0 to |request|
        invariant groups.Keys == old(groups).Keys
        invariant IsAdded(old(groups), groups, group, request[..k]) && AllExist(old(groups), request[..k])
        invariant (forall r :: r in request ==> InGroup(r, members)) ==> commands == old(commands)
        invariant !faults ==> AllMovable(old(groups), group, partition, request[..k])
      {
        AddedOne(old(groups), groups, group, request, k);
        MovableOne(old(groups), groups, group, partition, request, k);
        assert request[k] in request;
        if !(request[k] in listed || ConvertScsiIdToNguid(request[k]) in listed) {
          ok := AddVolumeToVolumeGroup(group, request[k], partition);
          if !ok {
            return false;
          }
        }
      }
      assert request[..|request|] == request;
      ok := true;
    }

    /** The inner loop: the flag is set by the first requested id that the volume matches. */
    method IsVolumeInRequest(uid: Uid, request: seq<string>) returns (isInRequest: bool)
      ensures isInRequest == MatchesSome(uid, request)
    {
      hide Matches;
      isInRequest := false;
      for k := 0 to |request|
        invariant !isInRequest
        invariant forall i :: 0 <= i < k ==> !Matches(uid, request[i])
      {
        if Matches(uid, request[k]) {
          isInRequest := true;
          break;
        }
      }
    }

    method RemoveVolumesMissingFromRequest(request: seq<string>, listed: seq<Uid>, elsewhere: string)
      returns (ok: bool)
      requires forall u :: u in listed ==> u in groups
      modifies this
      ensures ok ==> IsRemoved(old(groups), groups, listed, request, elsewhere)
      ensures exists k: nat :: k <= |listed| && IsRemoved(old(groups), groups, listed[..k], request, elsewhere)
      ensures (forall u :: u in listed ==> MatchesSome(u, request)) ==> ok && commands == old(commands)
      ensures !faults ==> ok
    {
      hide MatchesSome, IsRemoved, ConvertScsiIdToNguid;
      RemovedNothing(groups, listed, request, elsewhere);
      for j := 0 to |listed|
        invariant groups.Keys == old(groups).Keys
        invariant IsRemoved(old(groups), groups, listed[..j], request, elsewhere)
        invariant (forall u :: u in listed ==> MatchesSome(u, request)) ==> commands == old(commands)
      {
        var isInRequest := IsVolumeInRequest(listed[j], request);
        assert listed[j] in listed;
        RemovedOne(old(groups), groups, listed, j, request, elsewhere);
        if !isInRequest {
          ok := RemoveVolumeFromVolumeGroup(listed[j], elsewhere);
          if !ok {
            return false;
          }
        }
      }
      assert listed[..|listed|] == listed;
      ok := true;
    }

    /**
     `ModifyVolumeGroupMembership` once the group is known. A request that is already met issues no command,
     and cannot fail.
     */
    method ModifyVolumeGroupMembership(group: string, request: seq<string>, partition: bool, partitionGroup: string)
      returns (ok: bool)
      modifies this
      ensures ok ==> AllExist(old(groups), request)
      ensures ok ==> groups == Reconciled(old(groups), group, if partition then partitionGroup else "", request)
      // A failed request stops part-way.
      ensures IsPartOf(old(groups), groups, group, if partition then partitionGroup else "", request)
      ensures IsMet(old(groups), group, request) ==> ok && commands == old(commands) && groups == old(groups)
      // When no command fails by itself, the request alone decides.
      ensures !faults ==> (ok <==> AllMovable(old(groups), group, partition, request))
    {
      hide MatchesSome, InGroup, IsAdded, IsRemoved, IsPartOf, Reconciled, AllMovable;
      var listed := ListMembers(group);
      ghost var was, elsewhere := groups, if partition then partitionGroup else "";
      if IsMet(was, group, request) {
        MetIsReconciled(was, group, elsewhere, request);
      }
      ok := AddVolumesMissingFromGroup(request, listed, group, partition);
      ghost var mid := groups;
      if ok {
        KeysStay(was, mid, group, request);
        ok := RemoveVolumesMissingFromRequest(request, listed, if partition then partitionGroup else "");
        ghost var k: nat := if ok then |listed| else
          var k: nat :| k <= |listed| && IsRemoved(mid, groups, listed[..k], request, elsewhere); k;
        assert listed[..|listed|] == listed;
        RemovingIsRest(was, mid, groups, group, elsewhere, request, listed, k);
      } else {
        ghost var k: nat :| k <= |request| && IsAdded(was, mid, group, request[..k]);
        AddingIsPart(was, mid, group, elsewhere, request, k);
      }
    }
  }

  lemma KeysStay(before: Groups, after: Groups, group: string, request: seq<string>)
    requires IsAdded(before, after, group, request)
    ensures after.Keys == before.Keys
  {
  }

  /** A request that is met asks for nothing. */
  lemma MetIsReconciled(groups: Groups, group: string, elsewhere: string, request: seq<string>)
    requires IsMet(groups, group, request)
    ensures Reconciled(groups, group, elsewhere, request) == groups
  {
    hide InGroup, MatchesSome;
  }

  /** Each requested volume is a member under one of its names, and each member is recognised in the request. */
  ghost predicate IsMet(groups: Groups, group: string, request: seq<string>) {
    && (forall r :: r in request ==> InGroup(r, Members(groups, group)))
    && (forall u :: u in Members(groups, group) ==> MatchesSome(u, request))
  }

  lemma AddedWasOutside(groups: Groups, group: string, request: seq<string>)
    ensures forall u :: Added(groups, Members(groups, group), request, u) ==> u in groups && groups[u] != group
  {
  }

  // ----- what reconciliation achieves

  ghost predicate AllFullLength(groups: Groups, group: string, request: seq<string>) {
    && (forall r :: r in request ==> FullLength(r))
    && (forall u :: u in Members(groups, group) ==> FullLength(u))
  }

  /** Every requested id names a volume of the array. */
  ghost predicate AllExist(groups: Groups, request: seq<string>) {
    forall r :: r in request ==> Resolve(groups, r).Some?
  }

  /** Every requested volume is in the group afterwards, under its SCSI id or its NGUID. */
  lemma RequestedVolumesAreMembers(groups: Groups, group: string, elsewhere: string, request: seq<string>, r: string)
    requires AllFullLength(groups, group, request) && AllExist(groups, request) && r in request
    ensures InGroup(r, Members(Reconciled(groups, group, elsewhere, request), group))
  {
    var members := Members(groups, group);
    var k :| 0 <= k < |request| && request[k] == r;
    if InGroup(r, members) {
      var u := if r in members then r else ConvertScsiIdToNguid(r);
      NamedIsMatched(u, r);
      assert Matches(u, request[k]);
      assert u in Members(Reconciled(groups, group, elsewhere, request), group);
    } else {
      var u := Resolve(groups, r).value;
      assert Added(groups, members, request, u);
      assert u in Members(Reconciled(groups, group, elsewhere, request), group);
    }
  }

  lemma NamedIsMatched(uid: Uid, r: string)
    requires FullLength(r) && (uid == r || uid == ConvertScsiIdToNguid(r))
    ensures Matches(uid, r) && FullLength(uid)
  {
    ScsiIdThroughNguid(r);
    if uid == ConvertScsiIdToNguid(r) {
      ContainedAtTwoPlaces(r, uid);
    }
  }

  /** An unnamed member that the substring test takes for a requested volume. */
  ghost predicate AccidentalHit(groups: Groups, group: string, request: seq<string>, uid: Uid) {
    uid in Members(groups, group) && MatchesSome(uid, request) && !Named(uid, request)
  }

  /** The 31 characters of `uid` occur in `r` although `uid` is not its NGUID: wrong filler, or one place early. */
  predicate LooksLike(r: string, uid: Uid) {
    FullLength(r) && FullLength(uid) &&
    ((r[1..] == ConvertNguidToScsiId(uid) && uid[22] != '0') || r[..31] == ConvertNguidToScsiId(uid))
  }

  /** What an accident looks like, character by character. */
  lemma AccidentalHitExactly(groups: Groups, group: string, request: seq<string>, uid: Uid)
    requires AllFullLength(groups, group, request) && uid in Members(groups, group)
    ensures AccidentalHit(groups, group, request, uid) <==>
      && !Named(uid, request)
      && exists k :: 0 <= k < |request| && LooksLike(request[k], uid)
  {
    forall k | 0 <= k < |request|
      ensures Contains(request[k], ConvertNguidToScsiId(uid)) <==>
        uid == ConvertScsiIdToNguid(request[k]) || LooksLike(request[k], uid)
    {
      assert request[k] in request;
      ContainedMeansOwnNguid(request[k], uid);
    }
  }

  /** When removed volumes go to this very group, nothing ever leaves it. */
  lemma NothingLeavesForTheGroupItself(groups: Groups, group: string, request: seq<string>)
    ensures Members(groups, group) <= Members(Reconciled(groups, group, group, request), group)
    ensures forall u :: u in Members(Reconciled(groups, group, group, request), group) <==>
      u in Members(groups, group) || Added(groups, Members(groups, group), request, u)
  {
  }

  /**
   The group ends with requested volumes only, exactly when no accidental hit was among its members; and when
   removed volumes go to this very group, exactly when it had only requested ones before.
   */
  lemma OtherVolumesAreRemoved(groups: Groups, group: string, elsewhere: string, request: seq<string>)
    requires AllFullLength(groups, group, request)
    ensures (forall u :: u in Members(Reconciled(groups, group, elsewhere, request), group) ==> Named(u, request))
            <==> forall u :: !AccidentalHit(groups, group, request, u)
                             && (elsewhere == group && u in Members(groups, group) ==> Named(u, request))
  {
    var after := Reconciled(groups, group, elsewhere, request);
    forall u | u in Members(groups, group) && (elsewhere == group || MatchesSome(u, request))
      ensures u in Members(after, group)
    {
    }
    forall u | u in Members(after, group) && !Named(u, request)
      ensures AccidentalHit(groups, group, request, u) || (elsewhere == group && u in Members(groups, group))
    {
      NotAddedUnlessNamed(groups, group, request, u);
    }
  }

  lemma NotAddedUnlessNamed(groups: Groups, group: string, request: seq<string>, u: Uid)
    ensures Added(groups, Members(groups, group), request, u) ==> Named(u, request)
  {
  }

  /**
   Asking again finds the request met, so no add and no remove, exactly unless removed volumes stay in the group and
   one of them matches nothing requested.
   */
  lemma SecondRequestIsMet(groups: Groups, group: string, elsewhere: string, request: seq<string>)
    requires AllFullLength(groups, group, request) && AllExist(groups, request)
    ensures IsMet(Reconciled(groups, group, elsewhere, request), group, request)
            <==> elsewhere != group || forall u :: u in Members(groups, group) ==> MatchesSome(u, request)
  {
    var after := Reconciled(groups, group, elsewhere, request);
    forall r | r in request ensures InGroup(r, Members(after, group)) {
      RequestedVolumesAreMembers(groups, group, elsewhere, request, r);
    }
    if elsewhere != group || forall u :: u in Members(groups, group) ==> MatchesSome(u, request) {
      forall u | u in Members(after, group) ensures MatchesSome(u, request) {
        if Added(groups, Members(groups, group), request, u) {
          var k :| 0 <= k < |request| && Resolve(groups, request[k]) == Some(u);
          NamedIsMatched(u, request[k]);
        }
      }
    } else {
      NothingLeavesForTheGroupItself(groups, group, request);
    }
  }

  /** Volumes of other groups that are not requested stay where they are. */
  lemma BystandersStay(groups: Groups, group: string, elsewhere: string, request: seq<string>, uid: Uid)
    requires uid in groups && groups[uid] != group && !Named(uid, request)
    ensures Reconciled(groups, group, elsewhere, request)[uid] == groups[uid]
  {
  }
}
