/** SANtricity: which snapshot group an automatic snapshot goes to, and the automatic snapshot itself. */
module SnapshotChooser {
  import opened Options

  /** A group as listed; `ref` is its reference, empty when the array gave none. Absent fields are None. */
  datatype Group = Group(
    ref: string, baseVolume: string, maxBaseCapacity: Option<int>, baseVolumeCapacity: Option<int>,
    repositoryCapacity: Option<int>, snapshotCount: int, repositoryVolume: string)

  datatype Utilization = Utilization(groupRef: string, available: int, used: int)

  /** `counts` are the four fields a member count may come in, in order of preference. */
  datatype Repository = Repository(ref: string, counts: seq<Option<int>>, members: Option<nat>)

  /** Everything the chooser looks at. */
  datatype Query = Query(
    groups: seq<Group>, schedules: seq<string>, utilization: seq<Utilization>, repositories: seq<Repository>,
    volumeRef: string, includeScheduleOwnedGroups: bool, minFreePercent: real,
    maxRepoGroupCapacityPercent: real, maxRepoVolumesPerGroup: int)

  datatype GrowTarget = GrowTarget(
    groupRef: string, repositoryRef: string, baseVolumeRef: string,
    availableBytes: int, minFreeBytes: int, memberCount: int)

  // ----- the figures of one group

  function PickInt(fields: seq<Option<int>>): int {
    if fields == [] then 0
    else if fields[0].Some? then fields[0].value
    else PickInt(fields[1..])
  }

  /** Of several records with one reference the last one listed counts. */
  function UtilizationOf(records: seq<Utilization>, ref: string): Utilization {
    if records == [] then Utilization(ref, 0, 0)
    else
      var last := records[|records| - 1];
      if last.groupRef == ref then last else UtilizationOf(records[..|records| - 1], ref)
  }

  function RepositoryOf(records: seq<Repository>, ref: string): Repository {
    if records == [] || ref == "" then Repository(ref, [], None)
    else
      var last := records[|records| - 1];
      if last.ref == ref then last else RepositoryOf(records[..|records| - 1], ref)
  }

  function Available(q: Query, g: Group): int {
    UtilizationOf(q.utilization, g.ref).available
  }

  function Footprint(q: Query, g: Group): int {
    Available(q, g) + UtilizationOf(q.utilization, g.ref).used
  }

  function BaseBytes(q: Query, g: Group): int {
    var picked := PickInt([g.maxBaseCapacity, g.baseVolumeCapacity]);
    if picked <= 0 then Footprint(q, g) else picked
  }

  /** Python's `int` of a number: towards zero. */
  function Truncated(x: real): int {
    if x >= 0.0 then x.Floor else -(-x).Floor
  }

  function MinFreeBytes(q: Query, g: Group): int {
    var base := BaseBytes(q, g);
    if base > 0 then Truncated(base as real * (q.minFreePercent / 100.0)) else 0
  }

  function RepositoryPercent(q: Query, g: Group): real {
    var base := BaseBytes(q, g);
    var picked := PickInt([g.repositoryCapacity]);
    var capacity := if picked <= 0 then Footprint(q, g) else picked;
    if base > 0 then capacity as real / base as real * 100.0 else 0.0
  }

  function MemberCount(q: Query, g: Group): int {
    var repository := RepositoryOf(q.repositories, g.repositoryVolume);
    var picked := PickInt(repository.counts);
    if picked <= 0 && repository.members.Some? then repository.members.value else picked
  }

  // ----- what the figures are

  /** The first field that is there counts, even when it is not positive; without any it is 0. */
  lemma {:induction false} PicksTheFirstPresent(fields: seq<Option<int>>, k: nat)
    requires k <= |fields| && forall j :: 0 <= j < k ==> fields[j].None?
    ensures k < |fields| && fields[k].Some? ==> PickInt(fields) == fields[k].value
    ensures k == |fields| ==> PickInt(fields) == 0
  {
    if k > 0 {
      assert fields[0].None?;
      PicksTheFirstPresent(fields[1..], k - 1);
    }
  }

  /** The last record listed for the group, or zeros if none is. */
  lemma {:induction false} UtilizationIsTheLastListed(records: seq<Utilization>, ref: string)
    ensures (forall r :: r in records ==> r.groupRef != ref) ==> UtilizationOf(records, ref) == Utilization(ref, 0, 0)
    ensures (exists r :: r in records && r.groupRef == ref) ==>
      exists k :: 0 <= k < |records| && UtilizationOf(records, ref) == records[k] && records[k].groupRef == ref
                  && forall j :: k < j < |records| ==> records[j].groupRef != ref
  {
    if records != [] {
      var n := |records| - 1;
      UtilizationIsTheLastListed(records[..n], ref);
      if records[n].groupRef != ref {
        assert forall r :: r in records ==> r == records[n] || r in records[..n];
      }
    }
  }

  /** And so for the repository, of which a group without a reference to one has none. */
  lemma {:induction false} RepositoryIsTheLastListed(records: seq<Repository>, ref: string)
    ensures ref == "" || (forall r :: r in records ==> r.ref != ref) ==>
      RepositoryOf(records, ref) == Repository(ref, [], None)
    ensures ref != "" && (exists r :: r in records && r.ref == ref) ==>
      exists k :: 0 <= k < |records| && RepositoryOf(records, ref) == records[k] && records[k].ref == ref
                  && forall j :: k < j < |records| ==> records[j].ref != ref
  {
    if records != [] {
      var n := |records| - 1;
      RepositoryIsTheLastListed(records[..n], ref);
      if records[n].ref != ref {
        assert forall r :: r in records ==> r == records[n] || r in records[..n];
      }
    }
  }

  /** The size of the base volume: the greatest it may get, else what it is, where positive; else the footprint. */
  lemma BaseBytesAreTheVolumes(q: Query, g: Group)
    ensures var u := UtilizationOf(q.utilization, g.ref);
      BaseBytes(q, g) ==
      if g.maxBaseCapacity.Some? && g.maxBaseCapacity.value > 0 then g.maxBaseCapacity.value
      else if g.maxBaseCapacity.None? && g.baseVolumeCapacity.Some? && g.baseVolumeCapacity.value > 0
      then g.baseVolumeCapacity.value
      else u.available + u.used
  {
    var fields := [g.maxBaseCapacity, g.baseVolumeCapacity];
    PicksTheFirstPresent(fields, if g.maxBaseCapacity.Some? then 0 else if g.baseVolumeCapacity.Some? then 1 else 2);
  }

  /** The least free room is the share asked for of the base volume, cut to whole bytes towards zero. */
  lemma MinFreeBytesAreTheShare(q: Query, g: Group)
    ensures var base, least := BaseBytes(q, g), MinFreeBytes(q, g);
      var share := base as real * q.minFreePercent / 100.0;
      && (base <= 0 ==> least == 0)
      && (base > 0 && q.minFreePercent >= 0.0 ==> least as real <= share < least as real + 1.0)
      && (base > 0 && q.minFreePercent < 0.0 ==> least as real - 1.0 < share <= least as real)
  {
    var base := BaseBytes(q, g) as real;
    assert base * (q.minFreePercent / 100.0) == base * q.minFreePercent / 100.0;
    if base > 0.0 && q.minFreePercent >= 0.0 {
      assert base * q.minFreePercent >= 0.0;
    }
    if base > 0.0 && q.minFreePercent < 0.0 {
      assert base * q.minFreePercent < 0.0;
    }
  }

  /** The repository's share is its capacity, or else the footprint, as a percentage of the base volume. */
  lemma RepositoryPercentIsTheRatio(q: Query, g: Group)
    ensures var base, u := BaseBytes(q, g), UtilizationOf(q.utilization, g.ref);
      var capacity := if g.repositoryCapacity.Some? && g.repositoryCapacity.value > 0 then g.repositoryCapacity.value
                      else u.available + u.used;
      && (base > 0 ==> RepositoryPercent(q, g) * base as real == 100.0 * capacity as real)
      && (base <= 0 ==> RepositoryPercent(q, g) == 0.0)
  {
    PicksTheFirstPresent([g.repositoryCapacity], if g.repositoryCapacity.Some? then 0 else 1);
    var base := BaseBytes(q, g);
    if base > 0 {
      var u := UtilizationOf(q.utilization, g.ref);
      var capacity := if g.repositoryCapacity.Some? && g.repositoryCapacity.value > 0 then g.repositoryCapacity.value
                      else u.available + u.used;
      RatioTimes(capacity as real, base as real);
    }
  }

  lemma RatioTimes(x: real, y: real)
    requires y > 0.0
    ensures x / y * 100.0 * y == 100.0 * x
  {
    assert x / y * y == x;
  }

  /** The first count given where positive, else the length of the list of members, if there is one. */
  lemma MembersAreCounted(q: Query, g: Group, k: nat)
    requires var counts := RepositoryOf(q.repositories, g.repositoryVolume).counts;
      k <= |counts| && (forall j :: 0 <= j < k ==> counts[j].None?) && (k < |counts| ==> counts[k].Some?)
    ensures var repository := RepositoryOf(q.repositories, g.repositoryVolume);
      var given := if k < |repository.counts| then repository.counts[k].value else 0;
      MemberCount(q, g) == if given <= 0 && repository.members.Some? then repository.members.value else given
  {
    PicksTheFirstPresent(RepositoryOf(q.repositories, g.repositoryVolume).counts, k);
  }

  // ----- which groups qualify

  predicate Considered(q: Query, g: Group) {
    && g.ref != "" && g.baseVolume == q.volumeRef
    && (g.ref !in q.schedules || q.includeScheduleOwnedGroups)
  }

  /** Enough free room already. */
  predicate Eligible(q: Query, g: Group) {
    Considered(q, g) && Available(q, g) >= MinFreeBytes(q, g)
  }

  /** Too little free room, but under both growth limits. */
  predicate Growable(q: Query, g: Group) {
    && Considered(q, g) && Available(q, g) < MinFreeBytes(q, g)
    && RepositoryPercent(q, g) < q.maxRepoGroupCapacityPercent
    && MemberCount(q, g) < q.maxRepoVolumesPerGroup
  }

  function TargetOf(q: Query, g: Group): GrowTarget {
    GrowTarget(g.ref, g.repositoryVolume, g.baseVolume, Available(q, g), MinFreeBytes(q, g), MemberCount(q, g))
  }

  // ----- the order of the candidates

  /** Tuples as Python compares them; `lessMembers` is 0 among eligible groups. */
  datatype Key = Key(available: int, fewerSnapshots: int, fewerMembers: int, ref: string)

  predicate TextLess(a: string, b: string) {
    if b == "" then false
    else if a == "" then true
    else if a[0] != b[0] then a[0] < b[0]
    else TextLess(a[1..], b[1..])
  }

  predicate KeyLess(a: Key, b: Key) {
    if a.available != b.available then a.available < b.available
    else if a.fewerSnapshots != b.fewerSnapshots then a.fewerSnapshots < b.fewerSnapshots
    else if a.fewerMembers != b.fewerMembers then a.fewerMembers < b.fewerMembers
    else TextLess(a.ref, b.ref)
  }

  lemma {:induction false} TextOrder(a: string, b: string, c: string)
    ensures TextLess(a, b) || TextLess(b, a) || a == b
    ensures !(TextLess(a, b) && TextLess(b, a))
    ensures TextLess(a, b) && TextLess(b, c) ==> TextLess(a, c)
  {
    if a != "" && b != "" {
      TextOrder(a[1..], b[1..], if c == "" then "" else c[1..]);
      if a[0] == b[0] && a[1..] == b[1..] {
        assert a == [a[0]] + a[1..] && b == [b[0]] + b[1..];
      }
    }
  }

  /** Text is compared character by character; the shorter of two that agree comes first. */
  lemma {:induction false} TextLessExactly(a: string, b: string)
    ensures TextLess(a, b) <==> IsLess(a, b)
  {
    if a != "" && b != "" && a[0] == b[0] {
      TextLessExactly(a[1..], b[1..]);
      SameFirstCharacter(a, b);
    } else if a != "" && b != "" {
      assert a[0] < b[0] ==> DifferFirstAt(a, b, 0);
    }
  }

  predicate DifferFirstAt(a: string, b: string, k: nat) {
    k < |a| && k < |b| && a[k] < b[k] && forall j :: 0 <= j < k ==> a[j] == b[j]
  }

  ghost predicate IsLess(a: string, b: string) {
    (a <= b && a != b) || exists k: nat :: DifferFirstAt(a, b, k)
  }

  lemma SameFirstCharacter(a: string, b: string)
    requires a != "" && b != "" && a[0] == b[0]
    ensures IsLess(a, b) <==> IsLess(a[1..], b[1..])
  {
    assert a == [a[0]] + a[1..] && b == [b[0]] + b[1..];
    forall k: nat | DifferFirstAt(a, b, k) ensures DifferFirstAt(a[1..], b[1..], k - 1) {
    }
    forall k: nat | DifferFirstAt(a[1..], b[1..], k) ensures DifferFirstAt(a, b, k + 1) {
      forall j | 0 <= j < k + 1 ensures a[j] == b[j] {
        assert j > 0 ==> a[1..][j - 1] == b[1..][j - 1];
      }
    }
    if k: nat :| DifferFirstAt(a, b, k) {
      assert k > 0 && DifferFirstAt(a[1..], b[1..], k - 1);
    }
    if k: nat :| DifferFirstAt(a[1..], b[1..], k) {
      assert DifferFirstAt(a, b, k + 1);
    }
  }

  lemma KeyOrder(a: Key, b: Key, c: Key)
    ensures KeyLess(a, b) || KeyLess(b, a) || a == b
    ensures !(KeyLess(a, b) && KeyLess(b, a))
    ensures KeyLess(a, b) && KeyLess(b, c) ==> KeyLess(a, c)
  {
    TextOrder(a.ref, b.ref, c.ref);
  }

  function EligibleKey(q: Query, g: Group): Key {
    Key(Available(q, g), -g.snapshotCount, 0, g.ref)
  }

  function GrowKey(q: Query, g: Group): Key {
    Key(Available(q, g), -g.snapshotCount, -MemberCount(q, g), g.ref)
  }

  /** `sort(reverse=True)`, as an insertion sort. */
  function SortDescending<T>(entries: seq<(Key, T)>): seq<(Key, T)> {
    if entries == [] then [] else Insert(entries[0], SortDescending(entries[1..]))
  }

  function Insert<T>(e: (Key, T), sorted: seq<(Key, T)>): seq<(Key, T)> {
    if sorted == [] || KeyLess(sorted[0].0, e.0) then [e] + sorted else [sorted[0]] + Insert(e, sorted[1..])
  }

  lemma {:induction false} SortedHeadIsGreatest<T>(entries: seq<(Key, T)>)
    requires entries != []
    ensures SortDescending(entries) != []
    ensures SortDescending(entries)[0] in entries
    ensures forall e :: e in entries ==> !KeyLess(SortDescending(entries)[0].0, e.0)
  {
    var head := SortDescending(entries)[0];
    var rest := entries[1..];
    KeyOrder(head.0, head.0, head.0);
    if rest != [] {
      SortedHeadIsGreatest(rest);
      var best := SortDescending(rest)[0];
      forall e | e in entries ensures !KeyLess(head.0, e.0) {
        KeyOrder(best.0, entries[0].0, e.0);
        KeyOrder(entries[0].0, best.0, entries[0].0);
        KeyOrder(best.0, head.0, e.0);
        assert e == entries[0] || e in rest;
      }
    }
  }

  // ----- the chooser

  /** `g` is a group that qualifies and none that qualifies is better. */
  ghost predicate BestEligible(q: Query, g: Group) {
    && g in q.groups && Eligible(q, g)
    && forall h :: h in q.groups && Eligible(q, h) ==> !KeyLess(EligibleKey(q, g), EligibleKey(q, h))
  }

  /** The best eligible group has the most free bytes, then the fewest snapshots, then the last reference. */
  lemma BestEligibleMeans(q: Query, g: Group, h: Group)
    requires BestEligible(q, g) && h in q.groups && Eligible(q, h)
    ensures Available(q, h) <= Available(q, g)
    ensures Available(q, h) == Available(q, g) ==> h.snapshotCount >= g.snapshotCount
    ensures Available(q, h) == Available(q, g) && h.snapshotCount == g.snapshotCount ==> !IsLess(g.ref, h.ref)
  {
    TextLessExactly(g.ref, h.ref);
  }

  /** Among growable groups the fewest members count before the reference. */
  lemma BestGrowableMeans(q: Query, g: Group, h: Group)
    requires BestGrowable(q, g) && h in q.groups && Growable(q, h)
    ensures Available(q, h) <= Available(q, g)
    ensures Available(q, h) == Available(q, g) ==> h.snapshotCount >= g.snapshotCount
    ensures Available(q, h) == Available(q, g) && h.snapshotCount == g.snapshotCount ==>
      MemberCount(q, h) >= MemberCount(q, g)
    ensures Available(q, h) == Available(q, g) && h.snapshotCount == g.snapshotCount ==>
      MemberCount(q, h) == MemberCount(q, g) ==> !IsLess(g.ref, h.ref)
  {
    TextLessExactly(g.ref, h.ref);
  }

  ghost predicate BestGrowable(q: Query, g: Group) {
    && g in q.groups && Growable(q, g)
    && forall h :: h in q.groups && Growable(q, h) ==> !KeyLess(GrowKey(q, g), GrowKey(q, h))
  }

  /** Groups that have a reference have one of their own. */
  ghost predicate DistinctRefs(q: Query) {
    forall j, k :: 0 <= j < k < |q.groups| ==> q.groups[j].ref != q.groups[k].ref || q.groups[k].ref == ""
  }

  /** With distinct references the best is one group. */
  lemma BestIsUnique(q: Query, g: Group, h: Group)
    requires DistinctRefs(q)
    ensures BestEligible(q, g) && BestEligible(q, h) ==> g == h
    ensures BestGrowable(q, g) && BestGrowable(q, h) ==> g == h
  {
    KeyOrder(EligibleKey(q, g), EligibleKey(q, h), EligibleKey(q, g));
    KeyOrder(GrowKey(q, g), GrowKey(q, h), GrowKey(q, g));
  }

  datatype Choice = Use(ref: string) | Grow(target: GrowTarget) | Neither

  /** What the chooser is for: the best eligible group, else the best growable one, else nothing. */
  ghost predicate IsChoice(q: Query, r: Choice) {
    match r
    case Use(ref) => exists g :: BestEligible(q, g) && g.ref == ref
    case Grow(target) => (forall h :: h in q.groups ==> !Eligible(q, h)) &&
                         exists g :: BestGrowable(q, g) && target == TargetOf(q, g)
    case Neither => forall h :: h in q.groups ==> !Eligible(q, h) && !Growable(q, h)
  }

  /** `_choose_snapshot_group_for_auto`. */
  method ChooseSnapshotGroupForAuto(q: Query) returns (r: Choice)
    requires DistinctRefs(q)
    ensures IsChoice(q, r)
  {
    hide MinFreeBytes, Available, RepositoryPercent, MemberCount, SortDescending, KeyLess;
    var eligible: seq<(Key, string)> := [];
    var growCandidates: seq<(Key, GrowTarget)> := [];
    ghost var eligibleGroups: seq<Group>, growGroups: seq<Group> := [], [];
    for k := 0 to |q.groups|
      invariant |eligible| == |eligibleGroups| && |growCandidates| == |growGroups|
      invariant forall i :: 0 <= i < |eligible| ==>
        eligible[i] == (EligibleKey(q, eligibleGroups[i]), eligibleGroups[i].ref)
      invariant forall i :: 0 <= i < |growGroups| ==>
        growCandidates[i] == (GrowKey(q, growGroups[i]), TargetOf(q, growGroups[i]))
      invariant forall g :: g in eligibleGroups <==> g in q.groups[..k] && Eligible(q, g)
      invariant forall g :: g in growGroups <==> g in q.groups[..k] && Growable(q, g)
    {
      var g := q.groups[k];
      assert q.groups[..k + 1] == q.groups[..k] + [g];
      if g.ref == "" || g.baseVolume != q.volumeRef {
        continue;
      }
      if g.ref in q.schedules && !q.includeScheduleOwnedGroups {
        continue;
      }
      var available, minFreeBytes := Available(q, g), MinFreeBytes(q, g);
      if available >= minFreeBytes {
        eligible := eligible + [(Key(available, -g.snapshotCount, 0, g.ref), g.ref)];
        eligibleGroups := eligibleGroups + [g];
        continue;
      }
      if RepositoryPercent(q, g) >= q.maxRepoGroupCapacityPercent {
        continue;
      }
      var memberCount := MemberCount(q, g);
      if memberCount >= q.maxRepoVolumesPerGroup {
        continue;
      }
      growCandidates := growCandidates + [(
        Key(available, -g.snapshotCount, -memberCount, g.ref),
        GrowTarget(g.ref, g.repositoryVolume, g.baseVolume, available, minFreeBytes, memberCount))];
      growGroups := growGroups + [g];
    }
    assert q.groups[..|q.groups|] == q.groups;
    if eligible != [] {
      SortedHeadIsGreatest(eligible);
      eligible := SortDescending(eligible);
      r := Use(eligible[0].1);
    } else if growCandidates != [] {
      SortedHeadIsGreatest(growCandidates);
      growCandidates := SortDescending(growCandidates);
      r := Grow(growCandidates[0].1);
    } else {
      r := Neither;
    }
  }
}
