/**
 Two ways the pool can fail its callers, with the exact condition of each: a drain that does not end, and a caller
 of `get` that waits with no one left to serve it.
 */
module PoolLimits {
  import opened Tally
  import opened PoolProtocol
  import Runs

  function Last(run: seq<Pool>): Pool
    requires run != []
  {
    run[|run| - 1]
  }

  // ----- a lost connection

  /** A connection lost stays lost. */
  lemma {:induction false} LostIsForever(run: seq<Pool>, k: nat, m: nat)
    requires IsRun(run) && k <= m < |run|
    ensures run[k].shared.lost <= run[m].shared.lost
  {
    if k < m {
      LostIsForever(run, k, m - 1);
      Runs.StepAt(Init, Next, run, m - 1);
    }
  }

  /** Its slot is never given back: the counter does not reach zero again. */
  lemma LostSlotIsNeverFreed(run: seq<Pool>, k: nat, m: nat)
    requires IsRun(run) && k <= m < |run| && run[k].shared.lost != multiset{}
    ensures run[m].shared.size > 0
  {
    LostIsForever(run, k, m);
    RunInv(run, m);
    var c :| c in run[k].shared.lost;
    assert run[m].shared.lost[c] > 0;
    assert |run[m].shared.lost| > 0;
  }

  // ----- when the drain ends

  lemma IdleBalance(run: seq<Pool>)
    requires IsRun(run) && AllIdle(Last(run))
    ensures Last(run).shared.size == |Last(run).shared.channel| + |Last(run).shared.lost| <= Last(run).max
  {
    RunInv(run, |run| - 1);
    TotalZero(Last(run).threads, Held());
    TotalZero(Last(run).threads, Popped());
    TotalZero(Last(run).threads, Reserved());
  }

  /** One turn of the loop in `__del__` over a live connection from the queue. */
  lemma Purged(run: seq<Pool>, i: nat) returns (longer: seq<Pool>)
    requires IsRun(run) && Last(run).condemned && AllIdle(Last(run)) && i < |Last(run).threads|
    requires Last(run).shared.channel != []
    ensures IsRun(longer) && run <= longer
    ensures Last(longer).condemned && AllIdle(Last(longer)) && |Last(longer).threads| == |Last(run).threads|
    ensures Last(longer).shared.channel == Last(run).shared.channel[1..]
    ensures Last(longer).shared.lost == Last(run).shared.lost
  {
    hide IsRun;
    var h := Last(run).shared;
    var c, popped := h.channel[0], h.(channel := h.channel[1..]);
    var shut := popped.(closed := popped.closed[c := popped.closed[c] + 1]);
    longer := Advanced(run, i, h, Polling);
    longer := Advanced(longer, i, popped, Testing(c));
    longer := Advanced(longer, i, popped, Holding(c));
    longer := Advanced(longer, i, popped, Purging(c));
    longer := Advanced(longer, i, shut, PoolProtocol.Purged);
    longer := Advanced(longer, i, shut.(size := shut.size - 1), Idle);
  }

  lemma {:induction false} Drained(run: seq<Pool>, i: nat) returns (longer: seq<Pool>)
    requires IsRun(run) && Last(run).condemned && AllIdle(Last(run)) && i < |Last(run).threads|
    requires Last(run).shared.lost == multiset{}
    ensures IsRun(longer) && run <= longer && Last(longer).shared.size == 0
    decreases |Last(run).shared.channel|
  {
    if Last(run).shared.channel == [] {
      IdleBalance(run);
      longer := run;
    } else {
      longer := Purged(run, i);
      longer := Drained(longer, i);
    }
  }

  /** `longer` goes on from `run` until the counter is zero, where the loop in `__del__` stops. */
  ghost predicate Ends(run: seq<Pool>, longer: seq<Pool>) {
    IsRun(longer) && run <= longer && Last(longer).shared.size == 0
  }

  /**
   From the moment the pool is deleted, the loop of its drain can reach its own end, the counter at zero, exactly if no
   connection was lost before. A `get` that raises inside it ends it early in either case.
   */
  lemma DrainEndsExactlyIfNothingIsLost(run: seq<Pool>, i: nat)
    requires IsRun(run) && Last(run).condemned && AllIdle(Last(run)) && i < |Last(run).threads|
    ensures (exists longer :: Ends(run, longer)) <==> Last(run).shared.lost == multiset{}
  {
    if Last(run).shared.lost == multiset{} {
      var longer := Drained(run, i);
      assert Ends(run, longer);
    }
    forall longer | Ends(run, longer) ensures Last(run).shared.lost == multiset{} {
      if Last(run).shared.lost != multiset{} {
        assert longer[|run| - 1] == Last(run);
        LostSlotIsNeverFreed(longer, |run| - 1, |longer| - 1);
      }
    }
  }

  // ----- what the drain does instead

  /** Seven steps of thread `i`, as many as one turn of the loop in `__del__` takes when it makes a connection. */
  ghost predicate AreSteps(s: Pool, i: nat, round: seq<Pool>) {
    && i < |s.threads| && |round| == 8 && round[0] == s
    && (forall k :: 0 <= k < 8 ==> |round[k].threads| == |s.threads|)
    && forall k :: 0 <= k < 7 ==> Step(round[k], i, round[k + 1])
  }

  /** They are a turn, from idle through purging back to idle. */
  ghost predicate IsDrainRound(s: Pool, i: nat, round: seq<Pool>) {
    AreSteps(s, i, round) && round[6].threads[i] == PoolProtocol.Purged && round[7].threads[i] == Idle
  }

  /** A turn that leaves everything the next one depends on as it was. */
  ghost predicate IsIdleTurn(s: Pool, i: nat, round: seq<Pool>) {
    && IsDrainRound(s, i, round)
    && round[7].threads == s.threads && round[7].shared.size == s.shared.size && round[7].shared.channel == []
  }

  /**
   On an empty queue with the counter not zero, `__del__` can complete a turn exactly if the counter is below the
   bound, and that turn changes nothing: it makes a connection and closes it. At the bound `get` only waits.
   */
  lemma EmptyDrainSpinsExactlyBelowTheBound(s: Pool, i: nat)
    requires s.condemned && i < |s.threads| && s.threads[i] == Idle && s.shared.channel == []
    ensures (exists round: seq<Pool> :: IsDrainRound(s, i, round)) <==> s.shared.size < s.max
    ensures s.shared.size < s.max ==> exists round: seq<Pool> :: IsIdleTurn(s, i, round)
  {
    if s.shared.size < s.max {
      var round := IdleTurn(s, i);
      assert IsIdleTurn(s, i, round);
    } else {
      forall round: seq<Pool> ensures !IsDrainRound(s, i, round) {
        if AreSteps(s, i, round) {
          FullPoolWaits(s, i, round);
        }
      }
    }
  }

  lemma FullPoolWaits(s: Pool, i: nat, round: seq<Pool>)
    requires AreSteps(s, i, round)
    requires s.shared.channel == [] && s.shared.size >= s.max && s.threads[i] == Idle
    ensures round[3].threads[i] == Waiting && round[6].threads[i] == Claiming
  {
    assert Step(round[0], i, round[1]) && round[1].threads[i] == Polling && round[1].shared == s.shared;
    assert Step(round[1], i, round[2]) && round[2].threads[i] == Claiming && round[2].shared == s.shared;
    assert Step(round[2], i, round[3]) && round[3].threads[i] == Waiting && round[3].shared == s.shared;
    assert Step(round[3], i, round[4]) && round[4].threads[i] == Idle && round[4].shared == s.shared;
    assert Step(round[4], i, round[5]) && round[5].threads[i] == Polling && round[5].shared == s.shared;
    assert Step(round[5], i, round[6]);
  }

  lemma IdleTurn(s: Pool, i: nat) returns (round: seq<Pool>)
    requires s.condemned && i < |s.threads| && s.threads[i] == Idle
    requires s.shared.channel == [] && s.shared.size < s.max
    ensures IsIdleTurn(s, i, round)
  {
    var h, c := s.shared, s.shared.next;
    var claimed := h.(size := h.size + 1);
    var created := claimed.(next := c + 1);
    var shut := created.(closed := created.closed[c := created.closed[c] + 1]);
    round := [s, Placed(s, i, h, Polling), Placed(s, i, h, Claiming), Placed(s, i, claimed, Creating),
              Placed(s, i, created, Holding(c)), Placed(s, i, created, Purging(c)),
              Placed(s, i, shut, PoolProtocol.Purged), Placed(s, i, shut.(size := h.size), Idle)];
    assert s.threads[i := Idle] == s.threads;
    forall k | 0 <= k < 7 ensures Step(round[k], i, round[k + 1]) {
      assert k == 0 || k == 1 || k == 2 || k == 3 || k == 4 || k == 5 || k == 6;
    }
  }

  // ----- runs that lose connections

  /** Thread 0 has lost `lost` connections of a pool with bound `max`, and nothing else is left. */
  ghost predicate HasLost(s: Pool, max: nat, lost: nat) {
    && s.max == max && !s.condemned && s.threads == [Idle, Idle]
    && s.shared.size == lost && s.shared.channel == [] && |s.shared.lost| == lost
  }

  /** A connection is made, returned, taken again, and dropped when `is_active` raises. */
  lemma LosesOne(run: seq<Pool>, max: nat, lost: nat) returns (longer: seq<Pool>)
    requires IsRun(run) && HasLost(Last(run), max, lost) && lost < max
    ensures IsRun(longer) && HasLost(Last(longer), max, lost + 1)
  {
    hide IsRun;
    var h, c := Last(run).shared, Last(run).shared.next;
    longer := MakesOne(run, max);
    var made := Last(longer).shared;
    var gone := made.(channel := []);
    longer := Advanced(longer, 0, made, Polling);
    longer := Advanced(longer, 0, gone, Testing(c));
    longer := Advanced(longer, 0, gone.(lost := gone.lost[c := gone.lost[c] + 1]), Idle);
    assert Last(longer).shared.lost == h.lost + multiset{c};
  }

  lemma MakesOne(run: seq<Pool>, max: nat) returns (longer: seq<Pool>)
    requires IsRun(run) && Last(run).max == max && Last(run).threads == [Idle, Idle]
    requires Last(run).shared.channel == [] && 0 <= Last(run).shared.size < max
    ensures var h := Last(run).shared;
      && IsRun(longer)
      && Last(longer) == Last(run).(shared := h.(size := h.size + 1, next := h.next + 1, channel := [h.next]))
  {
    hide IsRun;
    var h := Last(run).shared;
    var claimed := h.(size := h.size + 1);
    var created := claimed.(next := h.next + 1);
    longer := StartsCreating(run, 0);
    longer := Advanced(longer, 0, created, Holding(h.next));
    longer := ReturnsOne(longer, h.next);
  }

  lemma ReturnsOne(run: seq<Pool>, c: Conn) returns (longer: seq<Pool>)
    requires IsRun(run) && Last(run).threads == [Holding(c), Idle]
    requires Last(run).shared.channel == [] && 0 < Last(run).shared.size <= Last(run).max
    ensures IsRun(longer)
    ensures Last(longer) == Last(run).(shared := Last(run).shared.(channel := [c]), threads := [Idle, Idle])
  {
    hide IsRun;
    var h := Last(run).shared;
    longer := Advanced(run, 0, h, Returning(c));
    longer := Advanced(longer, 0, h, Enqueueing(c));
    assert h.channel + [c] == [c];
    longer := Advanced(longer, 0, h.(channel := h.channel + [c]), Idle);
  }

  lemma {:induction false} LosesMany(max: nat, lost: nat) returns (run: seq<Pool>)
    requires 0 < max && lost <= max
    ensures IsRun(run) && HasLost(Last(run), max, lost)
  {
    if lost == 0 {
      run := Started(Pool(max, false, Fresh, [Idle, Idle]));
    } else {
      run := LosesMany(max, lost - 1);
      run := LosesOne(run, max, lost - 1);
    }
  }

  /** The pool of such a run is deleted. */
  ghost predicate Condemned(run: seq<Pool>, max: nat, lost: nat) {
    && IsRun(run) && Last(run).condemned && AllIdle(Last(run)) && Last(run).threads == [Idle, Idle]
    && Last(run).max == max && Last(run).shared.channel == [] && Last(run).shared.size == lost
    && |Last(run).shared.lost| == lost
  }

  /** For every bound and every number of losses up to it, a run to a drain whose loop never reaches its own end. */
  lemma EveryLossMakesADrainEndless(max: nat, lost: nat)
    requires 0 < lost <= max
    ensures exists run :: Condemned(run, max, lost) && forall longer :: !Ends(run, longer)
  {
    var before := LosesMany(max, lost);
    var s := Last(before).(condemned := true);
    assert Condemn(Last(before), s);
    RunExtends(before, s);
    var run := before + [s];
    assert Condemned(run, max, lost);
    assert Last(run).shared.lost != multiset{};
    DrainEndsExactlyIfNothingIsLost(run, 0);
  }

  // ----- waiting

  /** Thread `i` waits for a connection to be returned, and there is none and no one to return one. */
  ghost predicate Stranded(s: Pool, i: nat) {
    && i < |s.threads| && s.threads[i] == Waiting && s.shared.channel == []
    && forall j :: 0 <= j < |s.threads| ==> s.threads[j] == Idle || s.threads[j] == Waiting
  }

  /** No create has just failed, and no connection has been lost. */
  ghost predicate Faultless(s: Pool) {
    && !s.condemned && s.shared.lost == multiset{}
    && forall i :: 0 <= i < |s.threads| ==> s.threads[i] != CreateFailed
  }

  ghost predicate NoneStranded(s: Pool) {
    forall i: nat :: !Stranded(s, i)
  }

  /** Only a fault can strand a waiter. */
  lemma StepStrandsNobody(s: Pool, i: nat, s': Pool)
    requires Inv(s) && NoneStranded(s) && Faultless(s) && Faultless(s') && Step(s, i, s')
    ensures NoneStranded(s')
  {
    forall w: nat ensures !Stranded(s', w) {
      StrandedStep(s, i, s', w);
    }
  }

  lemma StrandedStep(s: Pool, i: nat, s': Pool, w: nat)
    requires Inv(s) && NoneStranded(s) && Faultless(s) && Faultless(s') && Step(s, i, s')
    ensures !Stranded(s', w)
  {
    var p := s.threads[i];
    if Stranded(s', w) {
      assert s'.threads[i] == Idle || s'.threads[i] == Waiting;
      if p == Claiming {
        StepInv(s, i, s');
        TotalZero(s'.threads, Held());
        TotalZero(s'.threads, Popped());
        TotalZero(s'.threads, Reserved());
      } else if p == Waiting {
        forall j | 0 <= j < |s.threads| ensures s.threads[j] == Idle || s.threads[j] == Waiting {
          assert j != i ==> s.threads[j] == s'.threads[j];
        }
        assert Stranded(s, i);
      }
    }
  }

  /** In a run without faults no waiter is ever stranded, whatever the bound and the number of threads. */
  lemma {:induction false} NobodyIsStrandedWithoutFaults(run: seq<Pool>, k: nat, i: nat)
    requires IsRun(run) && k < |run| && forall m :: 0 <= m <= k ==> Faultless(run[m])
    ensures !Stranded(run[k], i)
  {
    if k == 0 {
      FirstIsInit(run);
    } else {
      var before := run[k - 1];
      forall w: nat ensures !Stranded(before, w) {
        NobodyIsStrandedWithoutFaults(run, k - 1, w);
      }
      Runs.StepAt(Init, Next, run, k - 1);
      RunInv(run, k - 1);
      NextStrandsNobody(run[k - 1], run[k]);
    }
  }

  lemma NextStrandsNobody(s: Pool, s': Pool)
    requires Inv(s) && NoneStranded(s) && Faultless(s) && Faultless(s') && Next(s, s')
    ensures NoneStranded(s')
  {
    hide Move, Inv, Stranded;
    assert !Condemn(s, s');
    var i: nat :| Step(s, i, s');
    StepStrandsNobody(s, i, s');
  }

  lemma {:induction false} FirstIsInit(run: seq<Pool>)
    requires IsRun(run)
    ensures Init(run[0])
  {
    if |run| > 1 {
      FirstIsInit(run[..|run| - 1]);
    }
  }

  /** Losing every slot strands the next caller, for every bound. */
  lemma LossesStrand(max: nat)
    requires 0 < max
    ensures exists run :: IsRun(run) && Last(run).max == max && !Last(run).condemned
                          && |Last(run).shared.lost| == max && Stranded(Last(run), 1)
  {
    var run := LosesMany(max, max);
    hide IsRun;
    var h := Last(run).shared;
    run := Advanced(run, 1, h, Polling);
    run := Advanced(run, 1, h, Claiming);
    run := Advanced(run, 1, h, Waiting);
    assert Stranded(Last(run), 1);
  }

  // ----- failed creates

  /** The first `done` of `n` threads are at `p`, the others at `q`; one more thread is at `w`. */
  function Crew(n: nat, done: nat, p: Point, q: Point, w: Point): seq<Point> {
    seq(n, k => if k < done then p else q) + [w]
  }

  lemma CrewAdvances(n: nat, done: nat, p: Point, q: Point, w: Point)
    requires done < n
    ensures |Crew(n, done, p, q, w)| == n + 1 && Crew(n, done, p, q, w)[done] == q
    ensures Crew(n, done, p, q, w)[done := p] == Crew(n, done + 1, p, q, w)
  {
  }

  /** A caller of `get` on an empty queue reserves a slot. */
  lemma StartsCreating(run: seq<Pool>, i: nat) returns (longer: seq<Pool>)
    requires IsRun(run) && i < |Last(run).threads| && Last(run).threads[i] == Idle
    requires Last(run).shared.channel == [] && Last(run).shared.size < Last(run).max
    ensures var h := Last(run).shared;
      IsRun(longer) && Last(longer) == Placed(Last(run), i, h.(size := h.size + 1), Creating)
  {
    hide IsRun;
    var h, threads := Last(run).shared, Last(run).threads;
    longer := Advanced(run, i, h, Polling);
    longer := Advanced(longer, i, h, Claiming);
    longer := Advanced(longer, i, h.(size := h.size + 1), Creating);
    assert threads[i := Polling][i := Claiming][i := Creating] == threads[i := Creating];
  }

  /** Its `create` fails and the slot is given back. */
  lemma FailsCreating(run: seq<Pool>, i: nat) returns (longer: seq<Pool>)
    requires IsRun(run) && i < |Last(run).threads| && Last(run).threads[i] == Creating
    ensures var h := Last(run).shared;
      IsRun(longer) && Last(longer) == Placed(Last(run), i, h.(size := h.size - 1), Idle)
  {
    hide IsRun;
    var h, threads := Last(run).shared, Last(run).threads;
    longer := Advanced(run, i, h, CreateFailed);
    longer := Advanced(longer, i, h.(size := h.size - 1), Idle);
    assert threads[i := CreateFailed][i := Idle] == threads[i := Idle];
  }

  /** `n` threads connect at once, in a pool with bound `n`. */
  lemma {:induction false} ManyCreate(n: nat, done: nat) returns (run: seq<Pool>)
    requires 0 < n && done <= n
    ensures IsRun(run) && Last(run) == Pool(n, false, Fresh.(size := done), Crew(n, done, Creating, Idle, Idle))
  {
    if done == 0 {
      run := Started(Pool(n, false, Fresh, Crew(n, 0, Creating, Idle, Idle)));
    } else {
      run := ManyCreate(n, done - 1);
      hide IsRun, Crew;
      CrewAdvances(n, done - 1, Creating, Idle, Idle);
      run := StartsCreating(run, done - 1);
    }
  }

  /** Another caller finds the pool full. */
  lemma CrewWaits(n: nat) returns (run: seq<Pool>)
    requires 0 < n
    ensures IsRun(run) && Last(run) == Pool(n, false, Fresh.(size := n), Crew(n, 0, Idle, Creating, Waiting))
  {
    run := ManyCreate(n, n);
    hide IsRun;
    assert Crew(n, n, Creating, Idle, Idle)[n := Waiting] == Crew(n, 0, Idle, Creating, Waiting);
    var h := Last(run).shared;
    run := Advanced(run, n, h, Polling);
    run := Advanced(run, n, h, Claiming);
    run := Advanced(run, n, h, Waiting);
  }

  /** Then one create after the other fails. */
  lemma {:induction false} ManyFail(n: nat, done: nat) returns (run: seq<Pool>)
    requires 0 < n && done <= n
    ensures IsRun(run) && Last(run) == Pool(n, false, Fresh.(size := n - done), Crew(n, done, Idle, Creating, Waiting))
  {
    if done == 0 {
      run := CrewWaits(n);
    } else {
      run := ManyFail(n, done - 1);
      hide IsRun, Crew;
      CrewAdvances(n, done - 1, Idle, Creating, Waiting);
      run := FailsCreating(run, done - 1);
    }
  }

  /** Failed creates strand a waiter for every bound, with nothing lost and the whole pool free. */
  lemma FailedCreatesStrand(max: nat)
    requires 0 < max
    ensures exists run :: IsRun(run) && Last(run).max == max && Last(run).shared == Fresh && Stranded(Last(run), max)
  {
    var run := ManyFail(max, max);
    assert Stranded(Last(run), max);
  }
}
