/**
 The bounded connection pool as interleaved thread steps.

 Each thread is at one program point of `get` or `put`. The counter is changed under the pool's lock;
 the queue, the liveness test, connecting and disconnecting happen outside it, so every such action is
 a step of its own and other threads may run in between.
 */
module PoolProtocol {
  import opened Tally
  import Runs

  type Conn = nat

  datatype Point =
    | Idle
    | Polling                  // top of the loop in `get`
    | Testing(item: Conn)      // popped; `is_active` is running
    | Retiring(item: Conn)     // found inactive; about to be uncounted
    | Closing(item: Conn)      // uncounted; being disconnected before the loop runs again
    | Claiming                 // the queue was empty; about to compare the counter with the bound
    | Creating                 // a slot is reserved; `create` is running
    | CreateFailed             // `create` raised; about to give the slot back
    | Waiting                  // the pool is full; blocked in the second `channel.get`
    | Holding(item: Conn)      // returned by `get`
    | Returning(item: Conn)    // in `put`, before the comparison
    | Enqueueing(item: Conn)   // in `put`, about to enqueue without blocking
    | Discarding(item: Conn)   // in `put`, uncounted because the pool was over its bound
    | Overflowing(item: Conn)  // in `put`, the queue was full
    | Purging(item: Conn)      // in `__del__`, about to disconnect
    | Purged                   // in `__del__`, disconnected and about to be uncounted

  /**
   What the threads share. `next`, `closed`, `lost` and `dead` record history: the next connection to be
   created, those disconnected, those dropped because `is_active` raised, and those `is_active` called
   inactive.
   */
  datatype Shared = Shared(
    size: int, channel: seq<Conn>, next: Conn, closed: multiset<Conn>, lost: multiset<Conn>, dead: set<Conn>)

  datatype Pool = Pool(max: nat, condemned: bool, shared: Shared, threads: seq<Point>)

  ghost predicate Init(s: Pool) {
    && s.max > 0 && !s.condemned
    && s.shared == Shared(0, [], 0, multiset{}, multiset{}, {})
    && AllIdle(s)
  }

  ghost predicate AllIdle(s: Pool) {
    forall i :: 0 <= i < |s.threads| ==> s.threads[i] == Idle
  }

  /** One step of a thread at `p`, which leaves it at `p'`. */
  ghost predicate Move(max: nat, condemned: bool, s: Shared, p: Point, s': Shared, p': Point) {
    match p
    case Idle => p' == Polling && s' == s
    case Polling =>
      if s.channel == [] then p' == Claiming && s' == s
      else p' == Testing(s.channel[0]) && s' == s.(channel := s.channel[1..])
    case Testing(c) =>
      || (p' == Holding(c) && s' == s)
      || (p' == Retiring(c) && s' == s.(dead := s.dead + {c}))
      || (p' == Idle && s' == s.(lost := s.lost[c := s.lost[c] + 1]))
    case Retiring(c) => p' == Closing(c) && s' == s.(size := s.size - 1)
    case Closing(c) => p' == Polling && s' == s.(closed := s.closed[c := s.closed[c] + 1])
    case Claiming =>
      if s.size >= max then p' == Waiting && s' == s
      else p' == Creating && s' == s.(size := s.size + 1)
    case Creating =>
      || (p' == Holding(s.next) && s' == s.(next := s.next + 1))
      || (p' == CreateFailed && s' == s)
    case CreateFailed => p' == Idle && s' == s.(size := s.size - 1)
    case Waiting =>
      || (p' == Idle && s' == s)
      || (s.channel != [] && p' == Holding(s.channel[0]) && s' == s.(channel := s.channel[1..]))
    case Holding(c) => (p' == Returning(c) || (condemned && p' == Purging(c))) && s' == s
    case Returning(c) =>
      if s.size > max then p' == Discarding(c) && s' == s.(size := s.size - 1)
      else p' == Enqueueing(c) && s' == s
    case Enqueueing(c) =>
      if |s.channel| < max then p' == Idle && s' == s.(channel := s.channel + [c])
      else p' == Overflowing(c) && s' == s
    case Discarding(c) => p' == Idle && s' == s.(closed := s.closed[c := s.closed[c] + 1])
    case Overflowing(c) => p' == Idle && s' == s.(closed := s.closed[c := s.closed[c] + 1])
    case Purging(c) => p' == Purged && s' == s.(closed := s.closed[c := s.closed[c] + 1])
    case Purged => p' == Idle && s' == s.(size := s.size - 1)
  }

  ghost predicate Step(s: Pool, i: nat, s': Pool) {
    && i < |s.threads| == |s'.threads|
    && s' == Pool(s.max, s.condemned, s'.shared, s.threads[i := s'.threads[i]])
    && Move(s.max, s.condemned, s.shared, s.threads[i], s'.shared, s'.threads[i])
  }

  /** `__del__` runs once no thread refers to the pool any more. */
  ghost predicate Condemn(s: Pool, s': Pool) {
    AllIdle(s) && s' == s.(condemned := true)
  }

  ghost predicate Next(s: Pool, s': Pool) {
    Condemn(s, s') || exists i: nat :: Step(s, i, s')
  }

  ghost predicate IsRun(run: seq<Pool>)
    ensures IsRun(run) ==> run != []
  {
    Runs.IsRun(Init, Next, run)
  }

  // ----- the invariant

  function Held(): Point -> nat {
    (p: Point) =>
      if p.Holding? || p.Returning? || p.Enqueueing? || p.Overflowing? || p.Purging? || p.Purged? then 1 else 0
  }

  function Popped(): Point -> nat {
    (p: Point) => if p.Testing? || p.Retiring? then 1 else 0
  }

  function Reserved(): Point -> nat {
    (p: Point) => if p.Creating? || p.CreateFailed? then 1 else 0
  }

  function Carries(c: Conn): Point -> nat {
    (p: Point) => Carried(p, c)
  }

  function Carried(p: Point, c: Conn): nat {
    match p
    case Idle | Polling | Claiming | Creating | CreateFailed | Waiting | Purged => 0
    case _ => if p.item == c then 1 else 0
  }

  /** The counter is what is queued, checked out, popped but still counted, reserved, or lost. */
  ghost predicate Accounted(s: Pool) {
    && s.shared.size == |s.shared.channel| + Total(s.threads, Held()) + Total(s.threads, Popped())
                        + Total(s.threads, Reserved()) + |s.shared.lost|
    && s.shared.size <= s.max
  }

  /** How many times a connection occurs in the queue, in a thread's hands, closed or lost. */
  ghost function Places(s: Pool, c: Conn): nat {
    multiset(s.shared.channel)[c] + Total(s.threads, Carries(c)) + s.shared.closed[c] + s.shared.lost[c]
  }

  ghost predicate Conserved(s: Pool) {
    forall c: Conn :: Places(s, c) == if c < s.shared.next then 1 else 0
  }

  predicate Discards(p: Point) {
    p.Discarding? || p.Overflowing?
  }

  ghost predicate NothingDiscarded(s: Pool) {
    forall i :: 0 <= i < |s.threads| ==> !Discards(s.threads[i])
  }

  ghost predicate ClosedWereDead(s: Pool) {
    && (forall i :: 0 <= i < |s.threads| ==> DeadInHand(s.condemned, s.shared, s.threads[i]))
    && (!s.condemned ==> forall c :: c in s.shared.closed ==> c in s.shared.dead)
  }

  ghost predicate DeadInHand(condemned: bool, s: Shared, p: Point) {
    && ((p.Retiring? || p.Closing?) ==> p.item in s.dead)
    && (!condemned ==> !p.Purging? && !p.Purged?)
  }

  ghost predicate Inv(s: Pool) {
    s.max > 0 && Accounted(s) && NothingDiscarded(s) && Conserved(s) && ClosedWereDead(s)
  }

  lemma InitInv(s: Pool)
    requires Init(s)
    ensures Inv(s)
  {
    TotalZero(s.threads, Held());
    TotalZero(s.threads, Popped());
    TotalZero(s.threads, Reserved());
    forall c: Conn ensures Places(s, c) == 0 {
      TotalZero(s.threads, Carries(c));
    }
  }

  function Weight(p: Point): nat {
    Held()(p) + Popped()(p) + Reserved()(p)
  }

  /** What one step does to the counter, as a sum over the moving thread alone. */
  lemma MoveBalance(max: nat, condemned: bool, s: Shared, p: Point, s': Shared, p': Point)
    requires Move(max, condemned, s, p, s', p') && !Discards(p) && s.size <= max
    ensures s'.size - |s'.channel| - |s'.lost| - Weight(p') == s.size - |s.channel| - |s.lost| - Weight(p)
    ensures s'.size <= max && !p'.Discarding?
    ensures p'.Overflowing? ==> |s.channel| >= max && s' == s && Held()(p) == 1
  {
  }

  lemma StepAccounted(s: Pool, i: nat, s': Pool)
    requires Accounted(s) && NothingDiscarded(s) && Step(s, i, s')
    ensures Accounted(s') && NothingDiscarded(s')
  {
    var p := s'.threads[i];
    MoveBalance(s.max, s.condemned, s.shared, s.threads[i], s'.shared, p);
    TotalUpdate(s.threads, i, p, Held());
    TotalUpdate(s.threads, i, p, Popped());
    TotalUpdate(s.threads, i, p, Reserved());
    TotalCovers(s.threads, i, Held());
  }

  /** Occurrences in the queue, closed and lost, and in the hands of a thread at `p`. */
  ghost function Around(s: Shared, p: Point, c: Conn): nat {
    multiset(s.channel)[c] + Carried(p, c) + s.closed[c] + s.lost[c]
  }

  /** No step creates a second occurrence of a connection or drops one, except a create. */
  lemma MovePlaces(max: nat, condemned: bool, s: Shared, p: Point, s': Shared, p': Point, c: Conn)
    requires Move(max, condemned, s, p, s', p')
    ensures s'.next == s.next || s'.next == s.next + 1
    ensures Around(s', p', c) == Around(s, p, c) + if s.next <= c < s'.next then 1 else 0
  {
    if p.Polling? || p.Waiting? {
      PopOccurrence(s.channel, c);
    } else if p.Enqueueing? {
      PushOccurrence(s.channel, p.item, c);
    } else {
      MoveOffQueue(max, condemned, s, p, s', p', c);
    }
  }

  lemma MoveOffQueue(max: nat, condemned: bool, s: Shared, p: Point, s': Shared, p': Point, c: Conn)
    requires Move(max, condemned, s, p, s', p') && !p.Polling? && !p.Waiting? && !p.Enqueueing?
    ensures s'.next == s.next || s'.next == s.next + 1
    ensures Around(s', p', c) == Around(s, p, c) + if s.next <= c < s'.next then 1 else 0
  {
  }

  lemma PopOccurrence(channel: seq<Conn>, c: Conn)
    ensures channel != [] ==> multiset(channel)[c] == (if channel[0] == c then 1 else 0) + multiset(channel[1..])[c]
  {
    if channel != [] {
      assert channel == [channel[0]] + channel[1..];
    }
  }

  lemma PushOccurrence(channel: seq<Conn>, d: Conn, c: Conn)
    ensures multiset(channel + [d])[c] == multiset(channel)[c] + (if c == d then 1 else 0)
  {
  }

  lemma StepConserved(s: Pool, i: nat, s': Pool)
    requires Conserved(s) && Step(s, i, s')
    ensures Conserved(s')
  {
    forall c: Conn ensures Places(s', c) == if c < s'.shared.next then 1 else 0 {
      MovePlaces(s.max, s.condemned, s.shared, s.threads[i], s'.shared, s'.threads[i], c);
      TotalUpdate(s.threads, i, s'.threads[i], Carries(c));
      assert Places(s, c) == if c < s.shared.next then 1 else 0;
    }
  }

  lemma MoveClosed(max: nat, condemned: bool, s: Shared, p: Point, s': Shared, p': Point)
    requires Move(max, condemned, s, p, s', p') && !Discards(p) && DeadInHand(condemned, s, p)
    requires !condemned ==> forall c :: c in s.closed ==> c in s.dead
    ensures s.dead <= s'.dead && DeadInHand(condemned, s', p')
    ensures !condemned ==> forall c :: c in s'.closed ==> c in s'.dead
  {
  }

  lemma StepClosed(s: Pool, i: nat, s': Pool)
    requires ClosedWereDead(s) && NothingDiscarded(s) && Step(s, i, s')
    ensures ClosedWereDead(s')
  {
    MoveClosed(s.max, s.condemned, s.shared, s.threads[i], s'.shared, s'.threads[i]);
  }

  lemma StepInv(s: Pool, i: nat, s': Pool)
    requires Inv(s) && Step(s, i, s')
    ensures Inv(s')
  {
    StepAccounted(s, i, s');
    StepConserved(s, i, s');
    StepClosed(s, i, s');
  }

  lemma NextInv(s: Pool, s': Pool)
    requires Inv(s) && Next(s, s')
    ensures Inv(s')
  {
    if Condemn(s, s') {
      assert s'.threads == s.threads;
      forall c: Conn ensures Places(s', c) == if c < s'.shared.next then 1 else 0 {
        assert Places(s, c) == if c < s.shared.next then 1 else 0;
      }
    } else {
      var i: nat :| Step(s, i, s');
      StepInv(s, i, s');
    }
  }

  lemma RunInv(run: seq<Pool>, k: nat)
    requires IsRun(run) && k < |run|
    ensures Inv(run[k])
  {
    forall s | Init(s) ensures Inv(s) {
      InitInv(s);
    }
    forall s, s' | Inv(s) && Next(s, s') ensures Inv(s') {
      NextInv(s, s');
    }
    Runs.Always(Init, Next, Inv, run, k);
  }

  lemma RunExtends(run: seq<Pool>, s: Pool)
    requires IsRun(run) && Next(run[|run| - 1], s)
    ensures IsRun(run + [s])
  {
    hide Next, Init;
    Runs.Extended(Init, Next, run, s);
  }

  // ----- what holds in every run

  lemma CounterAccountsForEveryConnection(run: seq<Pool>, k: nat)
    requires IsRun(run) && k < |run|
    ensures var s := run[k];
      && s.shared.size == |s.shared.channel| + Total(s.threads, Held()) + Total(s.threads, Popped())
                          + Total(s.threads, Reserved()) + |s.shared.lost|
      && s.shared.size <= s.max
  {
    RunInv(run, k);
  }

  /** Both discard branches of `put` are dead: the bound is kept and the queue has room on every return. */
  lemma PutNeverDiscards(run: seq<Pool>, k: nat, i: nat)
    requires IsRun(run) && k < |run| && i < |run[k].threads|
    ensures !Discards(run[k].threads[i])
    ensures run[k].threads[i].Returning? ==> run[k].shared.size <= run[k].max
    ensures run[k].threads[i].Enqueueing? ==> |run[k].shared.channel| < run[k].max
  {
    RunInv(run, k);
    TotalCovers(run[k].threads, i, Held());
  }

  /** A connection one thread has is nowhere else. */
  lemma ConnectionIsExclusive(run: seq<Pool>, k: nat, i: nat, c: Conn)
    requires IsRun(run) && k < |run| && i < |run[k].threads| && Carried(run[k].threads[i], c) == 1
    ensures c < run[k].shared.next
    ensures c !in run[k].shared.channel && c !in run[k].shared.closed && c !in run[k].shared.lost
    ensures forall j :: 0 <= j < |run[k].threads| && j != i ==> Carried(run[k].threads[j], c) == 0
  {
    var s := run[k];
    RunInv(run, k);
    assert Places(s, c) == if c < s.shared.next then 1 else 0;
    TotalCovers(s.threads, i, Carries(c));
    assert multiset(s.shared.channel)[c] == 0;
    forall j | 0 <= j < |s.threads| && j != i ensures Carried(s.threads[j], c) == 0 {
      if i < j {
        TotalCoversPair(s.threads, i, j, Carries(c));
      } else {
        TotalCoversPair(s.threads, j, i, Carries(c));
      }
    }
  }

  /** No connection vanishes: one that is neither closed nor lost is queued or in some thread's hands. */
  lemma NoConnectionVanishes(run: seq<Pool>, k: nat, c: Conn)
    requires IsRun(run) && k < |run| && c < run[k].shared.next
    requires c !in run[k].shared.closed && c !in run[k].shared.lost && c !in run[k].shared.channel
    ensures exists i :: 0 <= i < |run[k].threads| && Carried(run[k].threads[i], c) == 1
  {
    RunInv(run, k);
    assert Places(run[k], c) == 1;
    var i := TotalPositive(run[k].threads, Carries(c));
  }

  /** Until the pool itself is deleted, only connections that `is_active` called inactive are closed. */
  lemma HealthyConnectionsStayOpen(run: seq<Pool>, k: nat, c: Conn)
    requires IsRun(run) && k < |run| && !run[k].condemned && c !in run[k].shared.dead
    ensures c !in run[k].shared.closed
  {
    RunInv(run, k);
  }

  // ----- building runs

  const Fresh := Shared(0, [], 0, multiset{}, multiset{}, {})

  lemma Started(s: Pool) returns (run: seq<Pool>)
    requires Init(s)
    ensures IsRun(run) && run == [s]
  {
    run := [s];
  }

  function Placed(s: Pool, i: nat, h: Shared, p: Point): Pool
    requires i < |s.threads|
  {
    s.(shared := h, threads := s.threads[i := p])
  }

  /** The run in which thread `i` goes on to `p`, changing what is shared to `h`. */
  lemma Advanced(run: seq<Pool>, i: nat, h: Shared, p: Point) returns (longer: seq<Pool>)
    requires IsRun(run) && var s := run[|run| - 1];
      i < |s.threads| && Move(s.max, s.condemned, s.shared, s.threads[i], h, p)
    ensures IsRun(longer) && longer == run + [Placed(run[|run| - 1], i, h, p)]
  {
    hide Move, IsRun;
    var s := run[|run| - 1];
    assert Step(s, i, Placed(s, i, h, p));
    RunExtends(run, Placed(s, i, h, p));
    longer := run + [Placed(s, i, h, p)];
  }
}
