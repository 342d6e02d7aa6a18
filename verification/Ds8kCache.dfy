/** The DS8K volume-name cache: its rules, and runs of the mediator that take one call after another. */
module Ds8kCache {
  import Runs

  type VolumeId = nat
  type Cache = map<string, VolumeId>

  datatype ApiVolume = ApiVolume(name: string, pool: string)

  /** The array's live volumes and the cache kept for its address. */
  datatype World = World(volumes: map<VolumeId, ApiVolume>, cache: Cache)

  // ----- the dictionary operations of ds8k_volume_cache.py, on one address

  function Removed(cache: Cache, name: string): Cache {
    cache - {name}
  }

  function Toggled(cache: Cache, name: string, v: VolumeId): Cache {
    if name in cache then cache - {name} else cache[name := v]
  }

  // ----- looking a volume up

  datatype Lookup =
    | Found(v: VolumeId)
    | Missing       // no volume of that name in the pool
    | Gone          // the cached id names no volume: ObjectNotFoundError, without a scan

  ghost predicate InPool(w: World, v: VolumeId, name: string, pool: string) {
    v in w.volumes && w.volumes[v] == ApiVolume(name, pool)
  }

  /** `_get_api_volume_by_name`: some volume of the pool with the name, if there is one. */
  ghost predicate IsScan(w: World, name: string, pool: string, r: Lookup) {
    match r
    case Found(v) => InPool(w, v, name, pool)
    case Missing => forall v :: !InPool(w, v, name, pool)
    case Gone => false
  }

  /** `_get_api_volume_with_cache`; `trouble` is a client or server error while fetching the cached id. */
  ghost predicate IsCachedLookup(w: World, name: string, pool: string, trouble: bool, r: Lookup) {
    if name !in w.cache then IsScan(w, name, pool, r)
    else if trouble then IsScan(w, name, pool, r)
    else if w.cache[name] !in w.volumes then r == Gone
    else if w.volumes[w.cache[name]].name == name then r == Found(w.cache[name])
    else IsScan(w, name, pool, r)
  }

  // ----- runs of the mediator alone on its array

  ghost predicate UniqueNames(w: World) {
    forall v, u :: v in w.volumes && u in w.volumes && w.volumes[v].name == w.volumes[u].name ==> v == u
  }

  ghost predicate Init(w: World) {
    w.cache == map[] && UniqueNames(w)
  }

  /** `create_volume`, for a name no live volume has; reading the new volume back may fail before it is cached. */
  ghost predicate Created(w: World, name: string, pool: string, v: VolumeId, w': World) {
    && v !in w.volumes && (forall u :: u in w.volumes ==> w.volumes[u].name != name)
    && w'.volumes == w.volumes[v := ApiVolume(name, pool)]
    && (w'.cache == w.cache[name := v] || w'.cache == w.cache)
  }

  /** `get_volume`: a volume found is toggled in the cache, a failed lookup changes nothing. */
  ghost predicate Fetched(w: World, name: string, pool: string, r: Lookup, w': World) {
    && (exists trouble :: IsCachedLookup(w, name, pool, trouble, r))
    && w' == if r.Found? then w.(cache := Toggled(w.cache, name, r.v)) else w
  }

  /** `_delete_object` once its FlashCopy cleanup is done; it may fail before the volume is deleted. */
  ghost predicate Deleted(w: World, v: VolumeId, w': World) {
    w' == w || (v in w.volumes && w' == World(w.volumes - {v}, Removed(w.cache, w.volumes[v].name)))
  }

  ghost predicate Next(w: World, w': World) {
    || (exists name, pool, v :: Created(w, name, pool, v, w'))
    || (exists name, pool, r :: Fetched(w, name, pool, r, w'))
    || (exists v :: Deleted(w, v, w'))
  }

  /** The cache is part of the live name-to-id map. */
  ghost predicate Truthful(w: World) {
    && UniqueNames(w)
    && forall name :: name in w.cache ==> w.cache[name] in w.volumes && w.volumes[w.cache[name]].name == name
  }

  lemma NextTruthful(w: World, w': World)
    requires Truthful(w) && Next(w, w')
    ensures Truthful(w')
  {
    if name, pool, v :| Created(w, name, pool, v, w') {
    } else if name, pool, r :| Fetched(w, name, pool, r, w') {
    } else {
      var v :| Deleted(w, v, w');
    }
  }

  lemma CacheStaysTruthful(run: seq<World>, k: nat)
    requires Runs.IsRun(Init, Next, run) && k < |run|
    ensures Truthful(run[k])
  {
    forall w, w' | Truthful(w) && Next(w, w') ensures Truthful(w') {
      NextTruthful(w, w');
    }
    Runs.Always(Init, Next, Truthful, run, k);
  }

  /** In every run the cached lookup is the pool scan, exactly unless the cached volume is in another pool. */
  lemma CachedLookupIsTheScan(
      run: seq<World>, k: nat, name: string, pool: string, trouble: bool, cached: Lookup, scanned: Lookup)
    requires Runs.IsRun(Init, Next, run) && k < |run|
    requires IsCachedLookup(run[k], name, pool, trouble, cached) && IsScan(run[k], name, pool, scanned)
    ensures cached == scanned <==> trouble || !CachedElsewhere(run[k], name, pool)
  {
    CacheStaysTruthful(run, k);
    TruthfulLookupIsTheScan(run[k], name, pool, trouble, cached, scanned);
  }

  lemma TruthfulLookupIsTheScan(
      w: World, name: string, pool: string, trouble: bool, cached: Lookup, scanned: Lookup)
    requires Truthful(w) && IsCachedLookup(w, name, pool, trouble, cached) && IsScan(w, name, pool, scanned)
    ensures cached == scanned <==> trouble || !CachedElsewhere(w, name, pool)
  {
    if name in w.cache {
      assert InPool(w, w.cache[name], name, pool) <==> !CachedElsewhere(w, name, pool);
    }
  }

  predicate CachedElsewhere(w: World, name: string, pool: string) {
    name in w.cache && w.cache[name] in w.volumes && w.volumes[w.cache[name]].pool != pool
  }

  /** Fetching a volume twice finds the same one and leaves the cache as it was. */
  lemma FetchTwiceRestoresTheCache(
      run: seq<World>, k: nat, name: string, pool: string, r: Lookup, w': World, r': Lookup, w'': World)
    requires Runs.IsRun(Init, Next, run) && k < |run|
    requires Fetched(run[k], name, pool, r, w') && r.Found? && Fetched(w', name, pool, r', w'') && r'.Found?
    ensures r' == r && w'' == run[k]
  {
    CacheStaysTruthful(run, k);
    var w := run[k];
    assert r.v in w.volumes && w.volumes[r.v].name == name;
    assert r'.v in w.volumes && w.volumes[r'.v].name == name;
    assert w''.cache == w.cache;
  }
}
