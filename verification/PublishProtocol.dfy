/**
 Exclusive publish and unpublish by concurrent threads: each holds the controller's lock for its CSI volume id
 while it reads the array's mappings and then changes them, in separate steps.
 */
module PublishProtocol {
  import opened Options
  import Runs

  type Id = string      // a CSI volume id, as in the request
  type Volume = string  // a volume on the array
  type Host = string
  type Mappings = map<Host, string>

  datatype Point =
    | Idle
    | Reading(id: Id, exclusive: bool)            // publish: before the mappings are read
    | Mapping(id: Id, exclusive: bool, host: Host, tries: nat)  // `tries` map commands found the LUN taken
    | Unmapping(id: Id)                           // unpublish: before the unmap command
    | Leaving(id: Id, lun: Option<string>)        // result known; the lock is still held

  /**
   `locks` is the set of ids in use, with the thread that added each; `uids` is the volume each id names. With
   `sharing`, publishes for shared access are served too.
   */
  datatype State = State(
    uids: map<Id, Volume>, retries: nat, sharing: bool,
    mappings: map<Volume, Mappings>, locks: map<Id, nat>, threads: seq<Point>)

  function Of(mappings: map<Volume, Mappings>, v: Volume): Mappings {
    if v in mappings then mappings[v] else map[]
  }

  /** The first try is always made. */
  function Tries(retries: nat): nat {
    if retries == 0 then 1 else retries
  }

  /** After one more map command that found its LUN taken. */
  function Retried(retries: nat, p: Point): Point
    requires p.Mapping?
  {
    if p.tries + 1 < Tries(retries) then p.(tries := p.tries + 1) else Leaving(p.id, None)
  }

  ghost predicate Step(s: State, i: nat, s': State) {
    && i < |s.threads| == |s'.threads|
    && s' == s.(mappings := s'.mappings, locks := s'.locks, threads := s.threads[i := s'.threads[i]])
    && Move(s, i, s.threads[i], s'.mappings, s'.locks, s'.threads[i])
  }

  /** `host` is added to the volume's mappings, at some LUN. */
  predicate HostMapped(mappings: map<Volume, Mappings>, mappings': map<Volume, Mappings>, v: Volume, host: Host) {
    && v in mappings && v in mappings' && host in mappings'[v]
    && mappings' == mappings[v := mappings[v][host := mappings'[v][host]]]
  }

  /** One host, or none, is taken out of the volume's mappings. */
  ghost predicate HostUnmapped(mappings: map<Volume, Mappings>, mappings': map<Volume, Mappings>, v: Volume) {
    v in mappings && v in mappings' && mappings' == mappings[v := mappings'[v]] && Without(mappings[v], mappings'[v])
  }

  ghost predicate Without(before: Mappings, after: Mappings) {
    exists h :: h in before && after == before - {h}
  }

  /** One step of thread `i` from `p` to `p'`. */
  ghost predicate Move(
      s: State, i: nat, p: Point, mappings': map<Volume, Mappings>, locks': map<Id, nat>, p': Point)
  {
    match p
    case Idle =>
      && ((p'.Reading? && (p'.exclusive || s.sharing)) || p'.Unmapping?) && p'.id in s.uids && p'.id !in s.locks
      && locks' == s.locks[p'.id := i] && mappings' == s.mappings
    case Reading(id, exclusive) =>
      && locks' == s.locks && mappings' == s.mappings && id in s.uids
      && var seen := Of(s.mappings, s.uids[id]);
         || p' == Leaving(id, None)
         || (p'.Leaving? && p'.id == id && p'.lun.Some? && p'.lun.value in seen.Values && (exclusive ==> |seen| == 1))
         || (p'.Mapping? && p' == Mapping(id, exclusive, p'.host, 0) && (exclusive ==> |seen| == 0))
    case Mapping(id, _, host, _) =>
      && locks' == s.locks && id in s.uids
      && (|| (mappings' == s.mappings && p' == Retried(s.retries, p))
          || (mappings' == s.mappings && p' == Leaving(id, None))
          || (HostMapped(s.mappings, mappings', s.uids[id], host)
              && (p' == Leaving(id, Some(mappings'[s.uids[id]][host])) || p' == Leaving(id, None))))
    case Unmapping(id) =>
      && locks' == s.locks && id in s.uids && p' == Leaving(id, None)
      && (mappings' == s.mappings || HostUnmapped(s.mappings, mappings', s.uids[id]))
    case Leaving(id, _) => p' == Idle && locks' == s.locks - {id} && mappings' == s.mappings
  }

  ghost predicate Init(s: State) {
    && s.locks == map[] && (!s.sharing ==> AllAtMostOne(s.mappings))
    && forall i :: 0 <= i < |s.threads| ==> s.threads[i] == Idle
  }

  ghost predicate Next(s: State, s': State) {
    exists i: nat :: Step(s, i, s')
  }

  ghost predicate IsRun(run: seq<State>)
    ensures IsRun(run) ==> run != []
  {
    Runs.IsRun(Init, Next, run)
  }

  /** No two CSI ids in use name the same volume. */
  ghost predicate OneIdPerVolume(uids: map<Id, Volume>) {
    forall a, b :: a in uids && b in uids && uids[a] == uids[b] ==> a == b
  }

  // ----- the invariant

  ghost predicate AllAtMostOne(mappings: map<Volume, Mappings>) {
    forall v :: v in mappings ==> |mappings[v]| <= 1
  }

  ghost predicate LocksHeld(s: State) {
    forall i :: 0 <= i < |s.threads| ==> Holds(s.uids, s.locks, i, s.threads[i])
  }

  predicate Holds(uids: map<Id, Volume>, locks: map<Id, nat>, i: nat, p: Point) {
    p.Idle? || (p.id in uids && p.id in locks && locks[p.id] == i)
  }

  /** Only a thread that serves shared access maps a volume it saw mapped. */
  predicate IsAllowed(s: State, p: Point) {
    p.Reading? || p.Mapping? ==> p.exclusive || s.sharing
  }

  /**
   A thread about to map for exclusive access is right that nothing is mapped yet, and any is within its tries; a LUN
   it answers is there.
   */
  ghost predicate IsRight(s: State, mappings: map<Volume, Mappings>, p: Point) {
    && (p.Mapping? && p.id in s.uids ==>
          (p.exclusive ==> Of(mappings, s.uids[p.id]) == map[]) && p.tries < Tries(s.retries))
    && (p.Leaving? && p.lun.Some? && p.id in s.uids ==> p.lun.value in Of(mappings, s.uids[p.id]).Values)
  }

  ghost predicate ThreadsAreRight(s: State) {
    forall i :: 0 <= i < |s.threads| ==> IsRight(s, s.mappings, s.threads[i])
  }

  ghost predicate ThreadsAreAllowed(s: State) {
    forall i :: 0 <= i < |s.threads| ==> IsAllowed(s, s.threads[i])
  }

  ghost predicate Inv(s: State) {
    && LocksHeld(s) && ThreadsAreAllowed(s)
    && (OneIdPerVolume(s.uids) ==> ThreadsAreRight(s) && (!s.sharing ==> AllAtMostOne(s.mappings)))
  }

  /** Locks change only at the ends, and only for the mover's own id. */
  lemma MoveLocks(
      s: State, i: nat, p: Point, mappings': map<Volume, Mappings>, locks': map<Id, nat>, p': Point, j: nat, q: Point)
    requires Move(s, i, p, mappings', locks', p') && j != i
    requires Holds(s.uids, s.locks, i, p) && Holds(s.uids, s.locks, j, q)
    ensures Holds(s.uids, locks', i, p') && Holds(s.uids, locks', j, q)
    ensures !p.Idle? && !p'.Idle? ==> p'.id == p.id
    ensures IsAllowed(s, p) ==> IsAllowed(s, p')
  {
  }

  /** Mappings change only for the mover's own volume; no volume appears or disappears. */
  lemma MoveMappings(s: State, i: nat, p: Point, mappings': map<Volume, Mappings>, locks': map<Id, nat>, p': Point)
    requires Move(s, i, p, mappings', locks', p') && Holds(s.uids, s.locks, i, p)
    ensures mappings'.Keys == s.mappings.Keys
    ensures forall v :: p.Idle? || v != s.uids[p.id] ==> Of(mappings', v) == Of(s.mappings, v)
    ensures IsRight(s, s.mappings, p) ==> IsRight(s, mappings', p')
  {
    if p.Reading? {
      var seen := Of(s.mappings, s.uids[p.id]);
      assert |seen| == 0 ==> seen == map[];
    }
  }

  /** Without shared access they go from none to one at most. */
  lemma MoveStaysExclusive(
      s: State, i: nat, p: Point, mappings': map<Volume, Mappings>, locks': map<Id, nat>, p': Point, v: Volume)
    requires Move(s, i, p, mappings', locks', p') && IsAllowed(s, p) && !s.sharing && Holds(s.uids, s.locks, i, p)
    requires IsRight(s, s.mappings, p) && v in s.mappings && |s.mappings[v]| <= 1
    ensures v in mappings' && |mappings'[v]| <= 1
  {
    if p.Unmapping? && HostUnmapped(s.mappings, mappings', v) {
      RemovalShrinks(s.mappings[v], mappings'[v]);
    }
  }

  lemma RemovalShrinks(before: Mappings, after: Mappings)
    requires |before| <= 1 && Without(before, after)
    ensures |after| <= 1
  {
    var h :| h in before && after == before - {h};
    assert after.Keys == before.Keys - {h};
  }

  lemma StepInv(s: State, i: nat, s': State)
    requires Inv(s) && Step(s, i, s')
    ensures Inv(s')
  {
    var p, p' := s.threads[i], s'.threads[i];
    hide Move, IsRight, AllAtMostOne;
    forall j | 0 <= j < |s.threads| ensures Holds(s.uids, s'.locks, j, s'.threads[j]) && IsAllowed(s', s'.threads[j]) {
      OtherThreadAside(s, i, s', j);
    }
    if OneIdPerVolume(s.uids) {
      forall j | 0 <= j < |s.threads| ensures IsRight(s', s'.mappings, s'.threads[j]) {
        ThreadStaysRight(s, i, s', j);
      }
      if !s.sharing {
        StepStaysExclusive(s, i, s');
      }
    }
  }

  lemma StepStaysExclusive(s: State, i: nat, s': State)
    requires Inv(s) && Step(s, i, s') && OneIdPerVolume(s.uids) && !s.sharing
    ensures AllAtMostOne(s'.mappings)
  {
    hide Move, IsRight;
    assert IsRight(s, s.mappings, s.threads[i]) && IsAllowed(s, s.threads[i]);
    assert Holds(s.uids, s.locks, i, s.threads[i]);
    MoveMappings(s, i, s.threads[i], s'.mappings, s'.locks, s'.threads[i]);
    forall v | v in s'.mappings ensures |s'.mappings[v]| <= 1 {
      MoveStaysExclusive(s, i, s.threads[i], s'.mappings, s'.locks, s'.threads[i], v);
    }
  }

  lemma ThreadStaysRight(s: State, i: nat, s': State, j: nat)
    requires LocksHeld(s) && ThreadsAreRight(s) && OneIdPerVolume(s.uids) && Step(s, i, s') && j < |s.threads|
    ensures IsRight(s', s'.mappings, s'.threads[j])
  {
    hide Move;
    assert Holds(s.uids, s.locks, i, s.threads[i]) && Holds(s.uids, s.locks, j, s.threads[j]);
    assert IsRight(s, s.mappings, s.threads[i]) && IsRight(s, s.mappings, s.threads[j]);
    MoveMappings(s, i, s.threads[i], s'.mappings, s'.locks, s'.threads[i]);
  }

  lemma OtherThreadAside(s: State, i: nat, s': State, j: nat)
    requires LocksHeld(s) && ThreadsAreAllowed(s) && Step(s, i, s') && j < |s.threads|
    ensures Holds(s.uids, s'.locks, j, s'.threads[j]) && IsAllowed(s', s'.threads[j])
  {
    hide Move;
    assert IsAllowed(s, s.threads[i]) && IsAllowed(s, s.threads[j]);
    MoveLocks(s, i, s.threads[i], s'.mappings, s'.locks, s'.threads[i], if j == i then i + 1 else j,
              if j == i then Idle else s.threads[j]);
  }

  /** What never changes: which volume an id names, the number of tries, whether access is shared. */
  predicate SameTerms(s: State, s': State) {
    s'.uids == s.uids && s'.retries == s.retries && s'.sharing == s.sharing
  }

  lemma RunInv(run: seq<State>, k: nat)
    requires IsRun(run) && k < |run|
    ensures Inv(run[k]) && SameTerms(run[0], run[k])
  {
    forall s, s' | Inv(s) && Next(s, s') ensures Inv(s') {
      var i: nat :| Step(s, i, s');
      StepInv(s, i, s');
    }
    Runs.Always(Init, Next, Inv, run, k);
    TermsStay(run, k);
  }

  lemma {:induction false} TermsStay(run: seq<State>, k: nat)
    requires IsRun(run) && k < |run|
    ensures SameTerms(run[0], run[k])
  {
    hide Move;
    if |run| > 1 {
      TermsStay(run[..|run| - 1], if k < |run| - 1 then k else |run| - 2);
    }
  }

  // ----- what the other threads leave alone

  /** The steps added to a run are all of threads other than `i`. */
  ghost predicate OthersOnly(run: seq<State>, longer: seq<State>, i: nat)
    ensures OthersOnly(run, longer, i) ==> run != [] && run <= longer
  {
    && run <= longer && run != []
    && forall k :: |run| - 1 <= k < |longer| - 1 ==> IsOthersStep(longer[k], longer[k + 1], i)
  }

  ghost predicate IsOthersStep(s: State, s': State, i: nat) {
    exists j: nat :: IsOtherStep(s, s', j, i)
  }

  ghost predicate IsOtherStep(s: State, s': State, j: nat, i: nat) {
    j != i && Step(s, j, s')
  }

  /** From `s` to `s'` thread `i` has not moved, and with an id of its own its volume has not changed. */
  ghost predicate LeftAlone(s: State, s': State, i: nat) {
    && SameTerms(s, s') && |s'.threads| == |s.threads| && s'.mappings.Keys == s.mappings.Keys
    && (i < |s.threads| ==>
          && s'.threads[i] == s.threads[i]
          && (OneIdPerVolume(s.uids) && !s.threads[i].Idle? && s.threads[i].id in s.uids ==>
                Of(s'.mappings, s.uids[s.threads[i].id]) == Of(s.mappings, s.uids[s.threads[i].id])))
  }

  lemma OtherStepLeavesAlone(s: State, j: nat, s': State, i: nat)
    requires Inv(s) && Step(s, j, s') && j != i
    ensures LeftAlone(s, s', i)
  {
    hide Move;
    assert Holds(s.uids, s.locks, j, s.threads[j]);
    assert i < |s.threads| ==> Holds(s.uids, s.locks, i, s.threads[i]);
    MoveMappings(s, j, s.threads[j], s'.mappings, s'.locks, s'.threads[j]);
  }

  /** However many steps the others take, a thread that holds an id finds its volume as it left it. */
  lemma {:induction false} OthersLeaveAlone(run: seq<State>, longer: seq<State>, i: nat)
    requires IsRun(longer) && OthersOnly(run, longer, i)
    ensures LeftAlone(run[|run| - 1], longer[|longer| - 1], i)
    decreases |longer|
  {
    hide IsRun, OthersOnly, LeftAlone, Inv;
    if |longer| > |run| {
      var k := |longer| - 2;
      BeforeLast(run, longer, i);
      OthersLeaveAlone(run, longer[..k + 1], i);
      RunInv(longer, k);
      LastOtherStep(longer[k], longer[k + 1], i);
      LeftAloneTwice(run[|run| - 1], longer[k], longer[k + 1], i);
    } else {
      NoOtherStep(run, longer, i);
    }
  }

  lemma NoOtherStep(run: seq<State>, longer: seq<State>, i: nat)
    requires OthersOnly(run, longer, i) && |longer| <= |run|
    ensures LeftAlone(run[|run| - 1], longer[|longer| - 1], i)
  {
    assert longer == run;
  }

  lemma LastOtherStep(s: State, s': State, i: nat)
    requires Inv(s) && IsOthersStep(s, s', i)
    ensures LeftAlone(s, s', i)
  {
    hide Step, Inv, LeftAlone;
    var j: nat :| IsOtherStep(s, s', j, i);
    OtherStepLeavesAlone(s, j, s', i);
  }

  lemma LeftAloneTwice(s: State, t: State, u: State, i: nat)
    requires LeftAlone(s, t, i) && LeftAlone(t, u, i)
    ensures LeftAlone(s, u, i)
  {
    hide OneIdPerVolume;
  }

  lemma BeforeLastIsRun(run: seq<State>)
    requires IsRun(run) && |run| > 1
    ensures IsRun(run[..|run| - 1])
  {
  }

  lemma BeforeLast(run: seq<State>, longer: seq<State>, i: nat)
    requires IsRun(longer) && OthersOnly(run, longer, i) && |longer| > |run|
    ensures IsRun(longer[..|longer| - 1]) && OthersOnly(run, longer[..|longer| - 1], i)
    ensures IsOthersStep(longer[|longer| - 2], longer[|longer| - 1], i)
  {
    hide IsOthersStep;
    BeforeLastIsRun(longer);
    var before := longer[..|longer| - 1];
    forall k | |run| - 1 <= k < |before| - 1 ensures IsOthersStep(before[k], before[k + 1], i) {
      assert IsOthersStep(longer[k], longer[k + 1], i);
      assert before[k] == longer[k] && before[k + 1] == longer[k + 1];
    }
  }

  // ----- safety over runs

  /** Exclusive access: if every CSI id has a volume of its own, no volume is ever mapped to two hosts. */
  lemma AtMostOneHost(run: seq<State>, k: nat, v: Volume)
    requires IsRun(run) && k < |run| && OneIdPerVolume(run[0].uids) && !run[0].sharing
    ensures |Of(run[k].mappings, v)| <= 1
  {
    RunInv(run, k);
  }

  /**
   The LUN of a publish reply is still a LUN of the volume when the thread comes to release its lock, and with
   exclusive access its only one.
   */
  lemma AnswerStillHolds(run: seq<State>, k: nat, i: nat)
    requires IsRun(run) && k < |run| && OneIdPerVolume(run[0].uids) && i < |run[k].threads|
    requires run[k].threads[i].Leaving? && run[k].threads[i].lun.Some?
    ensures var s, p := run[k], run[k].threads[i];
      && p.id in s.uids && p.lun.value in Of(s.mappings, s.uids[p.id]).Values
      && (!s.sharing ==> Of(s.mappings, s.uids[p.id]).Values == {p.lun.value})
  {
    RunInv(run, k);
    var s, p := run[k], run[k].threads[i];
    assert Holds(s.uids, s.locks, i, p) && IsRight(s, s.mappings, p);
    if !s.sharing {
      OneValue(Of(s.mappings, s.uids[p.id]), p.lun.value);
    }
  }

  lemma OneValue(m: Mappings, lun: string)
    requires |m| <= 1 && lun in m.Values
    ensures m.Values == {lun}
  {
    var h :| h in m && m[h] == lun;
    assert |m.Keys - {h}| == 0;
  }

  /** At most one thread holds the lock of an id. */
  lemma LockIsExclusive(run: seq<State>, k: nat, i: nat, j: nat)
    requires IsRun(run) && k < |run| && i < |run[k].threads| && j < |run[k].threads|
    requires !run[k].threads[i].Idle? && !run[k].threads[j].Idle? && run[k].threads[i].id == run[k].threads[j].id
    ensures i == j
  {
    RunInv(run, k);
    assert Holds(run[k].uids, run[k].locks, i, run[k].threads[i]);
    assert Holds(run[k].uids, run[k].locks, j, run[k].threads[j]);
  }

  /** The run in which thread `i` goes on to `p`. */
  lemma Advanced(run: seq<State>, i: nat, mappings: map<Volume, Mappings>, locks: map<Id, nat>, p: Point)
    returns (longer: seq<State>)
    requires IsRun(run) && i < |run[|run| - 1].threads|
    requires var s := run[|run| - 1]; Move(s, i, s.threads[i], mappings, locks, p)
    ensures IsRun(longer) && longer[0] == run[0] && longer[..|longer| - 1] == run
    ensures var s := run[|run| - 1];
      longer[|longer| - 1] == s.(mappings := mappings, locks := locks, threads := s.threads[i := p])
  {
    hide Move, Init;
    var s := run[|run| - 1];
    var s' := s.(mappings := mappings, locks := locks, threads := s.threads[i := p]);
    assert Step(s, i, s');
    Runs.Extended(Init, Next, run, s');
    longer := run + [s'];
  }

  // ----- and when there is none

  /** A run for these ids that starts with no volume at two hosts and ends with this one there. */
  ghost predicate DoubleMaps(run: seq<State>, uids: map<Id, Volume>, sharing: bool, v: Volume) {
    && IsRun(run) && run[0].uids == uids && run[0].sharing == sharing && AllAtMostOne(run[0].mappings)
    && IsDoubleMapped(run[|run| - 1], v)
  }

  predicate IsDoubleMapped(s: State, v: Volume) {
    v in s.mappings && |s.mappings[v]| > 1
  }

  /** Two ids of one volume: both threads see no mapping before either maps. */
  lemma BothSeeNothing(uids: map<Id, Volume>, sharing: bool, a: Id, b: Id) returns (run: seq<State>)
    requires a in uids && b in uids && a != b && uids[a] == uids[b]
    ensures IsRun(run) && run[0].uids == uids && run[0].sharing == sharing && AllAtMostOne(run[0].mappings)
    ensures run[|run| - 1] == State(uids, 1, sharing, map[uids[a] := map[]], map[a := 0, b := 1],
                                    [Mapping(a, true, "A", 0), Mapping(b, true, "B", 0)])
  {
    var none: map<Volume, Mappings> := map[uids[a] := map[]];
    run := [State(uids, 1, sharing, none, map[], [Idle, Idle])];
    hide IsRun;
    run := Advanced(run, 0, none, map[a := 0], Reading(a, true));
    run := Advanced(run, 1, none, map[a := 0, b := 1], Reading(b, true));
    run := Advanced(run, 0, none, map[a := 0, b := 1], Mapping(a, true, "A", 0));
    run := Advanced(run, 1, none, map[a := 0, b := 1], Mapping(b, true, "B", 0));
  }

  lemma AliasedIdsCanDoubleMap(uids: map<Id, Volume>, sharing: bool, a: Id, b: Id)
    requires a in uids && b in uids && a != b && uids[a] == uids[b]
    ensures exists run :: DoubleMaps(run, uids, sharing, uids[a])
  {
    hide IsRun;
    var run := BothSeeNothing(uids, sharing, a, b);
    var v, locks := uids[a], map[a := 0, b := 1];
    var one: Mappings := map["A" := "0"];
    run := Advanced(run, 0, map[v := one], locks, Leaving(a, Some("0")));
    run := Advanced(run, 1, map[v := one["B" := "1"]], locks, Leaving(b, Some("1")));
    assert |one["B" := "1"]| == 2;
    assert DoubleMaps(run, uids, sharing, v);
  }

  /** Shared access maps a volume that has one host to a second one. */
  lemma SharedAccessDoubleMaps(uids: map<Id, Volume>, a: Id)
    requires a in uids
    ensures exists run :: DoubleMaps(run, uids, true, uids[a])
  {
    var v := uids[a];
    var one: Mappings := map["A" := "0"];
    var first, lock := map[v := one], map[a := 0];
    var run := [State(uids, 1, true, first, map[], [Idle])];
    hide IsRun;
    run := Advanced(run, 0, first, lock, Reading(a, false));
    run := Advanced(run, 0, first, lock, Mapping(a, false, "B", 0));
    run := Advanced(run, 0, map[v := one["B" := "1"]], lock, Leaving(a, Some("1")));
    assert |one["B" := "1"]| == 2;
    assert DoubleMaps(run, uids, true, v);
  }

  /**
   No run takes a volume to two hosts exactly when every CSI id has a volume of its own and no shared access is served:
   the lock is on the id's text, so two ids of one volume do not exclude each other.
   */
  lemma SafeExactlyWithOneIdPerVolume(uids: map<Id, Volume>, sharing: bool)
    requires uids != map[]
    ensures (forall run: seq<State>, v :: !DoubleMaps(run, uids, sharing, v)) <==> OneIdPerVolume(uids) && !sharing
  {
    if !OneIdPerVolume(uids) {
      var a, b :| a in uids && b in uids && uids[a] == uids[b] && a != b;
      AliasedIdsCanDoubleMap(uids, sharing, a, b);
    } else if sharing {
      var a :| a in uids;
      SharedAccessDoubleMaps(uids, a);
    } else {
      forall run: seq<State>, v ensures !DoubleMaps(run, uids, sharing, v) {
        if DoubleMaps(run, uids, sharing, v) {
          AtMostOneHost(run, |run| - 1, v);
        }
      }
    }
  }
}
