/**
 The DS8K name cache under concurrent calls: each call reads the cache, asks the array, and changes the cache in
 separate steps, and no lock spans them.
 */
module Ds8kCacheProtocol {
  import opened Ds8kCache
  import Runs

  datatype Point =
    | Idle
    | Getting(name: string, pool: string)               // `get_volume`, before the cache is read
    | Fetching(name: string, pool: string, v: VolumeId) // cached id read, before its volume is fetched
    | Scanning(name: string, pool: string)              // before the pool is listed
    | Toggling(name: string, v: VolumeId)               // found, before the cache is toggled
    | Adding(name: string, v: VolumeId)                 // `create_volume`, made but not cached
    | Deleting(name: string, v: VolumeId)               // `_delete_object`, before the delete command
    | Removing(name: string)                            // deleted, but not yet removed from the cache

  /** With `serial`, no call starts on a name that another call is at work on. */
  datatype State = State(serial: bool, world: World, threads: seq<Point>)

  predicate IsFree(threads: seq<Point>, name: string) {
    forall i :: 0 <= i < |threads| ==> threads[i].Idle? || threads[i].name != name
  }

  predicate IsNamed(w: World, v: VolumeId, name: string) {
    v in w.volumes && w.volumes[v].name == name
  }

  /** What a call starts with; creating is one command, for a name no live volume has. */
  ghost predicate Starts(w: World, w': World, p': Point) {
    match p'
    case Getting(_, _) => w' == w
    case Adding(name, v) =>
      && v !in w.volumes && (forall u :: u in w.volumes ==> w.volumes[u].name != name)
      && IsNamed(w', v, name) && w' == w.(volumes := w.volumes[v := w'.volumes[v]])
    case Deleting(name, v) => IsNamed(w, v, name) && w' == w
    case _ => false
  }

  /** One step of a call from `p` to `p'`. Any command may fail, and ends the call. */
  ghost predicate Move(w: World, p: Point, w': World, p': Point) {
    match p
    case Idle => Starts(w, w', p')
    case Getting(name, pool) =>
      w' == w && p' == if name in w.cache then Fetching(name, pool, w.cache[name]) else Scanning(name, pool)
    case Fetching(name, pool, v) =>
      && w' == w
      && (|| p' == Scanning(name, pool)
          || (v !in w.volumes && p' == Idle)
          || (IsNamed(w, v, name) && p' == Toggling(name, v)))
    case Scanning(name, pool) =>
      w' == w && (p' == Idle || (p'.Toggling? && p'.name == name && InPool(w, p'.v, name, pool)))
    case Toggling(name, v) => p' == Idle && w' == w.(cache := Toggled(w.cache, name, v))
    case Adding(name, v) => p' == Idle && (w' == w || w' == w.(cache := w.cache[name := v]))
    case Deleting(name, v) =>
      || (p' == Idle && w' == w)
      || (v in w.volumes && p' == Removing(name) && w' == w.(volumes := w.volumes - {v}))
    case Removing(name) => p' == Idle && w' == w.(cache := Removed(w.cache, name))
  }

  ghost predicate Step(s: State, i: nat, s': State) {
    && i < |s.threads| == |s'.threads|
    && s' == State(s.serial, s'.world, s.threads[i := s'.threads[i]])
    && Move(s.world, s.threads[i], s'.world, s'.threads[i])
    && (s.serial && s.threads[i].Idle? && !s'.threads[i].Idle? ==> IsFree(s.threads, s'.threads[i].name))
  }

  ghost predicate Quiet(s: State) {
    forall i :: 0 <= i < |s.threads| ==> s.threads[i] == Idle
  }

  ghost predicate Init(s: State) {
    s.world.cache == map[] && UniqueNames(s.world) && Quiet(s)
  }

  ghost predicate Next(s: State, s': State) {
    exists i: nat :: Step(s, i, s')
  }

  ghost predicate IsRun(run: seq<State>)
    ensures IsRun(run) ==> run != []
  {
    Runs.IsRun(Init, Next, run)
  }

  // ----- the invariant of serialised calls

  ghost predicate OneCallPerName(threads: seq<Point>) {
    forall i, j :: 0 <= i < j < |threads| && !threads[i].Idle? && !threads[j].Idle? ==>
                     threads[i].name != threads[j].name
  }

  /** The volume a call is about is still there under its name. */
  predicate IsRight(w: World, p: Point) {
    p.Toggling? || p.Adding? || p.Deleting? ==> IsNamed(w, p.v, p.name)
  }

  /** A cached name is right, or the call that deleted its volume is about to remove it. */
  ghost predicate IsCovered(w: World, threads: seq<Point>, name: string) {
    name in w.cache ==> IsNamed(w, w.cache[name], name) || Removing(name) in threads
  }

  ghost predicate Inv(s: State) {
    && UniqueNames(s.world)
    && (s.serial ==>
          && OneCallPerName(s.threads)
          && (forall i :: 0 <= i < |s.threads| ==> IsRight(s.world, s.threads[i]))
          && forall name :: IsCovered(s.world, s.threads, name))
  }

  /** What a step does to volumes and cache is about the call's own name only. */
  lemma MoveIsLocal(w: World, p: Point, w': World, p': Point, other: string)
    requires Move(w, p, w', p') && UniqueNames(w)
    requires (p.Idle? ==> p'.name != other) && (!p.Idle? ==> p.name != other && IsRight(w, p))
    ensures UniqueNames(w')
    ensures !p.Idle? && !p'.Idle? ==> p'.name == p.name
    ensures other in w'.cache <==> other in w.cache
    ensures other in w.cache ==> w'.cache[other] == w.cache[other]
    ensures forall v :: IsNamed(w, v, other) ==> IsNamed(w', v, other)
  {
  }

  /** A call on its own name keeps it right and covered. */
  lemma MoveIsRight(w: World, p: Point, w': World, p': Point, name: string)
    requires Move(w, p, w', p') && UniqueNames(w) && IsRight(w, p)
    requires name == if p.Idle? then p'.name else p.name
    requires p.Removing? || (name in w.cache ==> IsNamed(w, w.cache[name], name))
    ensures UniqueNames(w') && IsRight(w', p') && (p'.Idle? || p'.name == name)
    ensures name in w'.cache ==> IsNamed(w', w'.cache[name], name) || p' == Removing(name)
  {
  }

  /** The name the step of thread `i` is about. */
  function NameOf(s: State, i: nat, s': State): string
    requires i < |s.threads| == |s'.threads| && (s.threads[i].Idle? ==> !s'.threads[i].Idle?)
  {
    if s.threads[i].Idle? then s'.threads[i].name else s.threads[i].name
  }

  lemma StepInv(s: State, i: nat, s': State)
    requires Inv(s) && Step(s, i, s')
    ensures Inv(s')
  {
    var p, p' := s.threads[i], s'.threads[i];
    if s.serial {
      var name := NameOf(s, i, s');
      OthersElsewhere(s, i, s');
      OwnName(s, i, s');
      hide Move;
      forall j | 0 <= j < |s.threads| && j != i ensures IsRight(s'.world, s'.threads[j]) {
        OtherStaysRight(s, i, s', j);
      }
      forall other ensures IsCovered(s'.world, s'.threads, other) {
        if other != name {
          OtherStaysCovered(s, i, s', other);
        }
      }
    } else {
      MoveKeepsUnique(s.world, p, s'.world, p');
    }
  }

  lemma MoveKeepsUnique(w: World, p: Point, w': World, p': Point)
    requires Move(w, p, w', p') && UniqueNames(w)
    ensures UniqueNames(w')
  {
  }

  /** No other thread is at work on the name of the step. */
  lemma OthersElsewhere(s: State, i: nat, s': State)
    requires s.serial && OneCallPerName(s.threads) && Step(s, i, s')
    ensures forall j :: 0 <= j < |s.threads| && j != i && !s.threads[j].Idle? ==> s.threads[j].name != NameOf(s, i, s')
    ensures OneCallPerName(s'.threads)
  {
    var p, p' := s.threads[i], s'.threads[i];
    assert !p.Idle? && !p'.Idle? ==> p'.name == p.name;
    hide Move;
  }

  lemma OwnName(s: State, i: nat, s': State)
    requires Inv(s) && s.serial && Step(s, i, s')
    ensures UniqueNames(s'.world) && IsRight(s'.world, s'.threads[i])
    ensures IsCovered(s'.world, s'.threads, NameOf(s, i, s'))
  {
    var name := NameOf(s, i, s');
    OthersElsewhere(s, i, s');
    hide Move;
    assert IsRight(s.world, s.threads[i]) && IsCovered(s.world, s.threads, name);
    if Removing(name) in s.threads {
      var j :| 0 <= j < |s.threads| && s.threads[j] == Removing(name);
      assert j == i;
    }
    MoveIsRight(s.world, s.threads[i], s'.world, s'.threads[i], name);
    assert s'.threads[i] in s'.threads;
  }

  lemma OtherStaysRight(s: State, i: nat, s': State, j: nat)
    requires Inv(s) && s.serial && Step(s, i, s') && j < |s.threads| && j != i
    ensures IsRight(s'.world, s'.threads[j])
  {
    OthersElsewhere(s, i, s');
    hide Move;
    assert IsRight(s.world, s.threads[j]) && IsRight(s.world, s.threads[i]);
    if !s.threads[j].Idle? {
      MoveIsLocal(s.world, s.threads[i], s'.world, s'.threads[i], s.threads[j].name);
    }
  }

  lemma OtherStaysCovered(s: State, i: nat, s': State, other: string)
    requires Inv(s) && s.serial && Step(s, i, s') && other != NameOf(s, i, s')
    ensures IsCovered(s'.world, s'.threads, other)
  {
    hide Move;
    assert IsRight(s.world, s.threads[i]) && IsCovered(s.world, s.threads, other);
    MoveIsLocal(s.world, s.threads[i], s'.world, s'.threads[i], other);
    if Removing(other) in s.threads {
      var j :| 0 <= j < |s.threads| && s.threads[j] == Removing(other);
      assert s'.threads[j] == Removing(other);
    }
  }

  lemma RunInv(run: seq<State>, k: nat)
    requires IsRun(run) && k < |run|
    ensures Inv(run[k]) && run[k].serial == run[0].serial
  {
    forall s, s' | Inv(s) && Next(s, s') ensures Inv(s') {
      var i: nat :| Step(s, i, s');
      StepInv(s, i, s');
    }
    Runs.Always(Init, Next, Inv, run, k);
    SerialStays(run, k);
  }

  lemma {:induction false} SerialStays(run: seq<State>, k: nat)
    requires IsRun(run) && k < |run|
    ensures run[k].serial == run[0].serial
  {
    hide Move;
    if |run| > 1 {
      SerialStays(run[..|run| - 1], if k < |run| - 1 then k else |run| - 2);
    }
  }

  // ----- what serialising is good for

  /** A cached name that no call is at work on is right, whatever goes on elsewhere. */
  lemma SerialCacheIsTruthful(run: seq<State>, k: nat, name: string)
    requires IsRun(run) && k < |run| && run[0].serial
    requires IsFree(run[k].threads, name) && name in run[k].world.cache
    ensures IsNamed(run[k].world, run[k].world.cache[name], name)
  {
    RunInv(run, k);
    assert IsCovered(run[k].world, run[k].threads, name);
  }

  /** Between calls the cache is not part of the live name-to-id map. */
  ghost predicate EndsStale(run: seq<State>, serial: bool) {
    IsRun(run) && run[0].serial == serial && Quiet(run[|run| - 1]) && !Truthful(run[|run| - 1].world)
  }

  lemma Advanced(run: seq<State>, i: nat, w: World, p: Point) returns (longer: seq<State>)
    requires IsRun(run) && !run[|run| - 1].serial && i < |run[|run| - 1].threads|
    requires Move(run[|run| - 1].world, run[|run| - 1].threads[i], w, p)
    ensures IsRun(longer) && longer[0] == run[0]
    ensures var s := run[|run| - 1]; longer[|longer| - 1] == s.(world := w, threads := s.threads[i := p])
  {
    hide Move, Init;
    var s := run[|run| - 1];
    var s' := s.(world := w, threads := s.threads[i := p]);
    assert Step(s, i, s');
    Runs.Extended(Init, Next, run, s');
    longer := run + [s'];
  }

  const ONE_VOLUME := World(map[7 := ApiVolume("n", "p")], map[])

  /** A get has found a volume that is not cached, and has still to cache it. */
  lemma FoundNotCached() returns (run: seq<State>)
    ensures IsRun(run) && run[0].serial == false
    ensures run[|run| - 1] == State(false, ONE_VOLUME, [Toggling("n", 7), Idle])
  {
    run := [State(false, ONE_VOLUME, [Idle, Idle])];
    assert UniqueNames(ONE_VOLUME) && IsRun(run);
    hide IsRun;
    run := Advanced(run, 0, ONE_VOLUME, Getting("n", "p"));
    run := Advanced(run, 0, ONE_VOLUME, Scanning("n", "p"));
    run := Advanced(run, 0, ONE_VOLUME, Toggling("n", 7));
  }

  /** Then a delete runs from start to end, and the get caches the dead id. */
  lemma DeleteBetweenFindAndToggle()
    ensures exists run :: EndsStale(run, false)
  {
    hide IsRun;
    var run := FoundNotCached();
    var gone := World(map[], map[]);
    run := Advanced(run, 1, ONE_VOLUME, Deleting("n", 7));
    assert ONE_VOLUME.volumes - {7} == map[];
    run := Advanced(run, 1, gone, Removing("n"));
    assert gone.cache - {"n"} == gone.cache;
    run := Advanced(run, 1, gone, Idle);
    run := Advanced(run, 0, gone.(cache := map["n" := 7]), Idle);
    assert "n" in run[|run| - 1].world.cache;
    assert EndsStale(run, false);
  }

  /** Between calls the cache is right in every run exactly if calls on one name are serialised. */
  lemma TruthfulExactlyWhenSerialised(serial: bool)
    ensures (forall run: seq<State> :: !EndsStale(run, serial)) <==> serial
  {
    if serial {
      forall run: seq<State> ensures !EndsStale(run, serial) {
        if EndsStale(run, serial) {
          var k := |run| - 1;
          RunInv(run, k);
          forall name | name in run[k].world.cache ensures IsNamed(run[k].world, run[k].world.cache[name], name) {
            SerialCacheIsTruthful(run, k, name);
          }
        }
      }
    } else {
      DeleteBetweenFindAndToggle();
    }
  }

  /** So, serialised, the cached lookup between calls is the pool scan, unless the volume is in another pool. */
  lemma SerialLookupIsTheScan(
      run: seq<State>, k: nat, name: string, pool: string, trouble: bool, cached: Lookup, scanned: Lookup)
    requires IsRun(run) && k < |run| && run[0].serial && Quiet(run[k])
    requires IsCachedLookup(run[k].world, name, pool, trouble, cached) && IsScan(run[k].world, name, pool, scanned)
    ensures cached == scanned <==> trouble || !CachedElsewhere(run[k].world, name, pool)
  {
    RunInv(run, k);
    forall n | n in run[k].world.cache ensures IsNamed(run[k].world, run[k].world.cache[n], n) {
      SerialCacheIsTruthful(run, k, n);
    }
    TruthfulLookupIsTheScan(run[k].world, name, pool, trouble, cached, scanned);
  }
}
