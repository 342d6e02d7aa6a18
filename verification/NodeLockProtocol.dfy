/**
 The node agent's lock manager as interleaved thread steps: one concurrent map holding volume and LUN keys,
 and a channel of tokens bounding how many operations run at once.

 Acquiring and releasing take several separate steps, with rollback when a later one fails.
 */
module NodeLockProtocol {
  import opened Options
  import opened Tally
  import Runs

  datatype Key = Vol(id: string) | Lun(lun: int)

  /** What a caller asked for: a volume, and a LUN with it for the combined lock. */
  datatype Request = Request(id: string, lun: Option<int>)

  datatype Point =
    | Idle
    | LunTry(id: string, lun: int)  // `addLunLock`, before LoadOrStore
    | VolTry(op: Request)           // `AddVolumeLock`, before LoadOrStore
    | TokenTry(op: Request)         // volume key stored; in the select, whose timer can only win on a full channel
    | VolUndo(op: Request)          // timed out; about to delete the volume key
    | LunUndo(lun: int)             // `AddVolumeLock` failed; about to delete the LUN key
    | Inside(op: Request)           // the operation runs
    | LunRelease(op: Request)       // `RemoveVolumeAndLunLock`, before the LUN key is deleted
    | TokenRelease(op: Request)     // `RemoveVolumeLock`, before the token is received
    | VolRelease(op: Request)       // before the volume key is deleted

  /** The map's value is not used by the source; here it records which thread stored the key. */
  datatype Locks = Locks(store: map<Key, nat>, tokens: nat)

  datatype State = State(max: nat, clean: bool, locks: Locks, threads: seq<Point>)

  function Without(l: Locks, k: Key): Locks {
    l.(store := l.store - {k})
  }

  function WithoutLun(clean: bool, l: Locks, lun: int): Locks {
    if clean then Without(l, Lun(lun)) else l
  }

  /** Where a thread goes when its volume could not be locked. */
  function Unwinding(op: Request): Point {
    if op.lun.Some? then LunUndo(op.lun.value) else Idle
  }

  /** One step of thread `i` from `p` to `p'`. */
  ghost predicate Move(max: nat, clean: bool, i: nat, l: Locks, p: Point, l': Locks, p': Point) {
    match p
    case Idle => (p'.LunTry? || (p'.VolTry? && p'.op.lun.None?)) && l' == l
    case LunTry(id, lun) =>
      if !clean then p' == VolTry(Request(id, Some(lun))) && l' == l
      else if Lun(lun) in l.store then p' == Idle && l' == l
      else p' == VolTry(Request(id, Some(lun))) && l' == l.(store := l.store[Lun(lun) := i])
    case VolTry(op) =>
      if Vol(op.id) in l.store then p' == Unwinding(op) && l' == l
      else p' == TokenTry(op) && l' == l.(store := l.store[Vol(op.id) := i])
    case TokenTry(op) =>
      || (l.tokens < max && p' == Inside(op) && l' == l.(tokens := l.tokens + 1))
      || (l.tokens >= max && p' == VolUndo(op) && l' == l)
    case VolUndo(op) => p' == Unwinding(op) && l' == Without(l, Vol(op.id))
    case LunUndo(lun) => p' == Idle && l' == WithoutLun(clean, l, lun)
    case Inside(op) => p' == (if op.lun.Some? then LunRelease(op) else TokenRelease(op)) && l' == l
    case LunRelease(op) =>
      p' == TokenRelease(op) && l' == if op.lun.Some? then WithoutLun(clean, l, op.lun.value) else l
    case TokenRelease(op) => l.tokens > 0 && p' == VolRelease(op) && l' == l.(tokens := l.tokens - 1)
    case VolRelease(op) => p' == Idle && l' == Without(l, Vol(op.id))
  }

  ghost predicate Init(s: State) {
    s.locks == Locks(map[], 0) && AllIdle(s)
  }

  ghost predicate AllIdle(s: State) {
    forall i :: 0 <= i < |s.threads| ==> s.threads[i] == Idle
  }

  ghost predicate Step(s: State, i: nat, s': State) {
    && i < |s.threads| == |s'.threads|
    && s' == Placed(s, i, s'.locks, s'.threads[i])
    && Move(s.max, s.clean, i, s.locks, s.threads[i], s'.locks, s'.threads[i])
  }

  function Placed(s: State, i: nat, l: Locks, p: Point): State
    requires i < |s.threads|
  {
    s.(locks := l, threads := s.threads[i := p])
  }

  ghost predicate Next(s: State, s': State) {
    exists i: nat :: Step(s, i, s')
  }

  ghost predicate IsRun(run: seq<State>)
    ensures IsRun(run) ==> run != []
  {
    Runs.IsRun(Init, Next, run)
  }

  // ----- the invariant

  function LunKeys(clean: bool, lun: Option<int>): set<Key> {
    if clean && lun.Some? then {Lun(lun.value)} else {}
  }

  /** The keys a thread at `p` has stored and not yet deleted. */
  function Owns(clean: bool, p: Point): set<Key> {
    match p
    case Idle => {}
    case LunTry(_, _) => {}
    case VolTry(op) => LunKeys(clean, op.lun)
    case TokenTry(op) => {Vol(op.id)} + LunKeys(clean, op.lun)
    case VolUndo(op) => {Vol(op.id)} + LunKeys(clean, op.lun)
    case LunUndo(lun) => LunKeys(clean, Some(lun))
    case Inside(op) => {Vol(op.id)} + LunKeys(clean, op.lun)
    case LunRelease(op) => {Vol(op.id)} + LunKeys(clean, op.lun)
    case TokenRelease(op) => {Vol(op.id)}
    case VolRelease(op) => {Vol(op.id)}
  }

  predicate HasToken(p: Point) {
    p.Inside? || p.LunRelease? || p.TokenRelease?
  }

  /** One for each thread between sending its token and receiving it back. */
  function Tokens(): Point -> nat {
    (p: Point) => if HasToken(p) then 1 else 0
  }

  function Insiders(): Point -> nat {
    (p: Point) => if p.Inside? then 1 else 0
  }

  /** A stored key is owned by the thread that stored it, and an owned key is stored. */
  ghost predicate StoreIsOwned(s: State) {
    && (forall k :: k in s.locks.store ==>
                      s.locks.store[k] < |s.threads| && k in Owns(s.clean, s.threads[s.locks.store[k]]))
    && (forall i, k :: 0 <= i < |s.threads| && k in Owns(s.clean, s.threads[i]) ==>
                         k in s.locks.store && s.locks.store[k] == i)
  }

  ghost predicate Inv(s: State) {
    StoreIsOwned(s) && s.locks.tokens == Total(s.threads, Tokens()) <= s.max
  }

  /** What one step does to the keys and the tokens, seen from the moving thread. */
  lemma MoveKeys(max: nat, clean: bool, i: nat, l: Locks, p: Point, l': Locks, p': Point)
    requires Move(max, clean, i, l, p, l', p') && l.tokens <= max
    requires forall k :: k in Owns(clean, p) ==> k in l.store && l.store[k] == i
    ensures forall k :: k in Owns(clean, p') <==> k in l'.store && (k in Owns(clean, p) || k !in l.store)
    ensures forall k :: k in l'.store ==> l'.store[k] == if k in l.store then l.store[k] else i
    ensures forall k :: k in l.store && k !in l'.store ==> k in Owns(clean, p)
  {
  }

  lemma MoveTokens(max: nat, clean: bool, i: nat, l: Locks, p: Point, l': Locks, p': Point)
    requires Move(max, clean, i, l, p, l', p') && l.tokens <= max
    ensures l'.tokens + Tokens()(p) == l.tokens + Tokens()(p') && l'.tokens <= max
  {
  }

  lemma StoredKey(s: State, i: nat, s': State, k: Key)
    requires StoreIsOwned(s) && s.locks.tokens <= s.max && Step(s, i, s') && k in s'.locks.store
    ensures s'.locks.store[k] < |s.threads| && k in Owns(s.clean, s'.threads[s'.locks.store[k]])
  {
    hide Move, Owns;
    MoveKeys(s.max, s.clean, i, s.locks, s.threads[i], s'.locks, s'.threads[i]);
    if k in s.locks.store {
      var j := s.locks.store[k];
      assert k in Owns(s.clean, s.threads[j]);
      assert j != i ==> s'.threads[j] == s.threads[j];
    }
  }

  lemma OwnedKey(s: State, i: nat, s': State, j: nat, k: Key)
    requires StoreIsOwned(s) && s.locks.tokens <= s.max && Step(s, i, s')
    requires j < |s.threads| && k in Owns(s.clean, s'.threads[j])
    ensures k in s'.locks.store && s'.locks.store[k] == j
  {
    hide Move, Owns;
    MoveKeys(s.max, s.clean, i, s.locks, s.threads[i], s'.locks, s'.threads[i]);
    assert j != i ==> s'.threads[j] == s.threads[j];
  }

  lemma StepStore(s: State, i: nat, s': State)
    requires StoreIsOwned(s) && s.locks.tokens <= s.max && Step(s, i, s')
    ensures StoreIsOwned(s')
  {
    hide Move, Owns;
    forall k | k in s'.locks.store
      ensures s'.locks.store[k] < |s.threads| && k in Owns(s.clean, s'.threads[s'.locks.store[k]])
    {
      StoredKey(s, i, s', k);
    }
    forall j: nat, k | j < |s.threads| && k in Owns(s.clean, s'.threads[j])
      ensures k in s'.locks.store && s'.locks.store[k] == j
    {
      OwnedKey(s, i, s', j, k);
    }
  }

  lemma StepInv(s: State, i: nat, s': State)
    requires Inv(s) && Step(s, i, s')
    ensures Inv(s')
  {
    StepStore(s, i, s');
    MoveTokens(s.max, s.clean, i, s.locks, s.threads[i], s'.locks, s'.threads[i]);
    hide Move, Owns, StoreIsOwned;
    TotalUpdate(s.threads, i, s'.threads[i], Tokens());
  }

  lemma RunInv(run: seq<State>, k: nat)
    requires IsRun(run) && k < |run|
    ensures Inv(run[k])
  {
    forall s | Init(s) ensures Inv(s) {
      TotalZero(s.threads, Tokens());
    }
    forall s, s' | Inv(s) && Next(s, s') ensures Inv(s') {
      var i: nat :| Step(s, i, s');
      StepInv(s, i, s');
    }
    Runs.Always(Init, Next, Inv, run, k);
  }

  lemma RunExtends(run: seq<State>, i: nat, l: Locks, p: Point)
    requires IsRun(run)
    requires var s := run[|run| - 1];
      i < |s.threads| && Move(s.max, s.clean, i, s.locks, s.threads[i], l, p)
    ensures IsRun(run + [Placed(run[|run| - 1], i, l, p)])
  {
    hide Init, Move;
    var s := run[|run| - 1];
    assert Step(s, i, Placed(s, i, l, p));
    Runs.Extended(Init, Next, run, Placed(s, i, l, p));
  }

  // ----- what holds in every run

  /** Of two threads past LoadOrStore, or at work, never both are for the same volume. */
  lemma OneThreadPerVolume(run: seq<State>, k: nat, i: nat, j: nat, id: string)
    requires IsRun(run) && k < |run| && i < |run[k].threads| && j < |run[k].threads|
    requires Vol(id) in Owns(run[k].clean, run[k].threads[i]) && Vol(id) in Owns(run[k].clean, run[k].threads[j])
    ensures i == j
  {
    RunInv(run, k);
    assert run[k].locks.store[Vol(id)] == i;
  }

  /** With device cleaning on, never two threads are inside for the same LUN. */
  lemma OneThreadPerLun(run: seq<State>, k: nat, i: nat, j: nat)
    requires IsRun(run) && k < |run| && i < |run[k].threads| && j < |run[k].threads| && run[k].clean
    requires run[k].threads[i].Inside? && run[k].threads[j].Inside?
    requires run[k].threads[i].op.lun.Some? && run[k].threads[i].op.lun == run[k].threads[j].op.lun
    ensures i == j
  {
    RunInv(run, k);
    var key := Lun(run[k].threads[i].op.lun.value);
    assert key in Owns(true, run[k].threads[i]) && key in Owns(true, run[k].threads[j]);
    assert run[k].locks.store[key] == i;
  }

  /** The tokens in the channel are the threads between send and receive, and they bound those inside. */
  lemma TokensBoundInvocations(run: seq<State>, k: nat)
    requires IsRun(run) && k < |run|
    ensures run[k].locks.tokens == Total(run[k].threads, Tokens())
    ensures Total(run[k].threads, Insiders()) <= run[k].locks.tokens <= run[k].max
  {
    RunInv(run, k);
    TotalBelow(run[k].threads, Insiders(), Tokens());
  }

  /** The receive in `RemoveVolumeLock` always finds a token. */
  lemma ReleaseNeverBlocks(run: seq<State>, k: nat, i: nat)
    requires IsRun(run) && k < |run| && i < |run[k].threads| && run[k].threads[i].TokenRelease?
    ensures run[k].locks.tokens > 0
  {
    RunInv(run, k);
    TotalCovers(run[k].threads, i, Tokens());
  }

  /** Steps a thread still needs before it is idle or inside. */
  function Distance(p: Point): nat {
    match p
    case Idle => 0
    case Inside(_) => 0
    case LunTry(_, _) => 5
    case VolTry(_) => 4
    case TokenTry(_) => 3
    case VolUndo(_) => 2
    case LunUndo(_) => 1
    case LunRelease(_) => 3
    case TokenRelease(_) => 2
    case VolRelease(_) => 1
  }

  /** No thread ever hangs: each one not idle and not inside has a step, and every step brings it closer. */
  lemma EveryCallFinishes(run: seq<State>, k: nat, i: nat)
    requires IsRun(run) && k < |run| && i < |run[k].threads| && Distance(run[k].threads[i]) > 0
    ensures exists l, p :: Move(run[k].max, run[k].clean, i, run[k].locks, run[k].threads[i], l, p)
    ensures forall l, p :: Move(run[k].max, run[k].clean, i, run[k].locks, run[k].threads[i], l, p) ==>
                             Distance(p) < Distance(run[k].threads[i])
  {
    var s, p := run[k], run[k].threads[i];
    if p.TokenRelease? {
      ReleaseNeverBlocks(run, k, i);
    }
    var (l', p') := match p
      case LunTry(id, lun) =>
        if !s.clean then (s.locks, VolTry(Request(id, Some(lun))))
        else if Lun(lun) in s.locks.store then (s.locks, Idle)
        else (s.locks.(store := s.locks.store[Lun(lun) := i]), VolTry(Request(id, Some(lun))))
      case VolTry(op) =>
        if Vol(op.id) in s.locks.store then (s.locks, Unwinding(op))
        else (s.locks.(store := s.locks.store[Vol(op.id) := i]), TokenTry(op))
      case TokenTry(op) =>
        if s.locks.tokens < s.max then (s.locks.(tokens := s.locks.tokens + 1), Inside(op)) else (s.locks, VolUndo(op))
      case VolUndo(op) => (Without(s.locks, Vol(op.id)), Unwinding(op))
      case LunUndo(lun) => (WithoutLun(s.clean, s.locks, lun), Idle)
      case LunRelease(op) =>
        (if op.lun.Some? then WithoutLun(s.clean, s.locks, op.lun.value) else s.locks, TokenRelease(op))
      case TokenRelease(op) => (s.locks.(tokens := s.locks.tokens - 1), VolRelease(op))
      case VolRelease(op) => (Without(s.locks, Vol(op.id)), Idle);
    assert Move(s.max, s.clean, i, s.locks, p, l', p');
  }

  /** A key is deleted only by the thread that stored it, and nobody overwrites a stored key. */
  lemma OnlyTheOwnerDeletes(run: seq<State>, k: nat, i: nat, s': State, key: Key)
    requires IsRun(run) && k < |run| && Step(run[k], i, s') && key in run[k].locks.store
    ensures key !in s'.locks.store ==> run[k].locks.store[key] == i
    ensures key in s'.locks.store ==> s'.locks.store[key] == run[k].locks.store[key]
  {
    RunInv(run, k);
    MoveKeys(run[k].max, run[k].clean, i, run[k].locks, run[k].threads[i], s'.locks, s'.threads[i]);
  }

  /** A thread that is back outside, after success or failure, has left no key and no token behind. */
  lemma OutsideLeavesNothing(run: seq<State>, k: nat, i: nat)
    requires IsRun(run) && k < |run| && i < |run[k].threads| && run[k].threads[i] == Idle
    ensures forall key :: key in run[k].locks.store ==> run[k].locks.store[key] != i
    ensures run[k].locks.tokens == Total(run[k].threads[..i], Tokens()) + Total(run[k].threads[i + 1..], Tokens())
  {
    RunInv(run, k);
    TotalSplit(run[k].threads, i, Tokens());
  }

  /** When every thread is done the map and the channel are empty. */
  lemma QuietMeansEmpty(run: seq<State>, k: nat)
    requires IsRun(run) && k < |run| && AllIdle(run[k])
    ensures run[k].locks == Locks(map[], 0)
  {
    RunInv(run, k);
    TotalZero(run[k].threads, Tokens());
    assert run[k].locks.store.Keys == {};
  }
}
