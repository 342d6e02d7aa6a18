/**
 `ConnectionPool` in its own form: `get`, `put` and `__del__` as methods over `current_size` and `channel`.

 Between any two atomic actions the other threads may do anything the protocol allows (`Interfere`), and the
 ghost `run` records every step, so whatever the protocol proves about runs holds inside these methods.
 */
module ConnectionPools {
  import opened Options
  import opened PoolProtocol
  import opened Tally

  class ConnectionPool {
    const maxSize: nat
    var currentSize: int
    var channel: seq<Conn>
    var nextConnection: Conn
    // The connections that are not active any more; this changes by itself, while others run.
    var broken: set<Conn>

    // The protocol state this object is in, how it got there, and how many more steps the other
    // threads take (any finite number).
    ghost var state: Pool
    ghost var run: seq<Pool>
    ghost var patience: nat

    ghost predicate Valid()
      reads this
    {
      && IsRun(run) && run[|run| - 1] == state
      && state.max == maxSize && state.shared.size == currentSize && state.shared.channel == channel
      && state.shared.next == nextConnection
    }

    /** Thread `i` is the only one with anything to do, and no connection was ever lost. */
    ghost predicate Alone(i: nat)
      reads this
    {
      && patience == 0 && state.shared.lost == multiset{} && i < |state.threads|
      && forall j :: 0 <= j < |state.threads| && j != i ==> state.threads[j] == Idle
    }

    /** The pool before its first connection, shared by any number of threads. */
    constructor (maxSize: nat, ghost threadCount: nat, ghost patience: nat)
      requires maxSize > 0
      ensures Valid() && this.maxSize == maxSize && this.patience == patience
      ensures AllIdle(state) && |state.threads| == threadCount && currentSize == 0 && channel == [] && broken == {}
    {
      this.maxSize, broken := maxSize, {};
      currentSize, channel, nextConnection := 0, [], 0;
      state := Pool(maxSize, false, Shared(0, [], 0, multiset{}, multiset{}, {}), seq(threadCount, k => Idle));
      run := [state];
      this.patience := patience;
    }

    /** Thread `i` has just changed the shared fields to `h` on its way to `p`. */
    ghost method Record(i: nat, h: Shared, p: Point)
      requires IsRun(run) && run[|run| - 1] == state && state.max == maxSize && i < |state.threads|
      requires Move(maxSize, state.condemned, state.shared, state.threads[i], h, p)
      requires h.size == currentSize && h.channel == channel && h.next == nextConnection
      modifies this`state, this`run
      ensures Valid() && state == Placed(old(state), i, h, p) && run == old(run) + [state]
      ensures old(Alone(i)) && h.lost == old(state).shared.lost ==> Alone(i)
    {
      hide IsRun;
      run := Advanced(run, i, h, p);
      state := Placed(state, i, h, p);
    }

    /** Thread `i` goes on to `p` without changing anything shared. */
    ghost method Goto(i: nat, p: Point)
      requires Valid() && i < |state.threads|
      requires Move(maxSize, state.condemned, state.shared, state.threads[i], state.shared, p)
      modifies this`state, this`run
      ensures Valid() && state == Placed(old(state), i, old(state).shared, p) && run == old(run) + [state]
      ensures old(Alone(i)) ==> Alone(i)
    {
      Record(i, state.shared, p);
    }

    /** The other threads run for a while. Callers know only that they kept to the protocol. */
    method Interfere(ghost i: nat)
      requires Valid() && i < |state.threads|
      modifies this
      ensures Valid() && |state.threads| == |old(state).threads| && state.threads[i] == old(state).threads[i]
      ensures state.condemned == old(state).condemned && old(run) <= run
      ensures (channel == old(channel) && patience == old(patience)) || patience < old(patience)
      ensures old(Alone(i)) ==>
        && Alone(i) && channel == old(channel) && currentSize == old(currentSize) && state == old(state)
        && nextConnection == old(nextConnection) && broken == old(broken)
    {
    }

    /** `channel.get(block=False)` when there is an item. */
    method Pop(ghost i: nat) returns (item: Conn)
      requires Valid() && channel != [] && i < |state.threads|
      requires state.threads[i] == Polling || state.threads[i] == Waiting
      modifies this`channel, this`state, this`run
      ensures Valid() && item == old(channel)[0] && channel == old(channel)[1..]
      ensures run == old(run) + [state] && (old(Alone(i)) ==> Alone(i))
      ensures state == Placed(old(state), i, old(state).shared.(channel := channel),
                              if old(state).threads[i] == Polling then Testing(item) else Holding(item))
    {
      item := channel[0];
      channel := channel[1..];
      ghost var p := if state.threads[i] == Polling then Testing(item) else Holding(item);
      Record(i, state.shared.(channel := channel), p);
    }

    /** `item.is_active()`, which may also raise. */
    method Judge(ghost i: nat, item: Conn, faults: bool) returns (verdict: Verdict)
      requires Valid() && i < |state.threads| && state.threads[i] == Testing(item)
      modifies this`state, this`run
      ensures Valid() && run == old(run) + [state]
      ensures if verdict == Raised then faults else verdict == if item in broken then Inactive else Active
      ensures old(Alone(i)) && verdict != Raised ==> Alone(i)
      ensures var h := old(state).shared;
        match verdict
        case Active => state == Placed(old(state), i, h, Holding(item))
        case Inactive => state == Placed(old(state), i, h.(dead := h.dead + {item}), Retiring(item))
        case Raised => state == Placed(old(state), i, h.(lost := h.lost[item := h.lost[item] + 1]), Idle)
    {
      var raised: bool := *;
      ghost var h := state.shared;
      if faults && raised {
        Record(i, h.(lost := h.lost[item := h.lost[item] + 1]), Idle);
        verdict := Raised;
      } else if item !in broken {
        Record(i, h, Holding(item));
        verdict := Active;
      } else {
        Record(i, h.(dead := h.dead + {item}), Retiring(item));
        verdict := Inactive;
      }
    }

    /** `current_size -= 1` under the lock. */
    method Uncount(ghost i: nat, ghost p: Point)
      requires Valid() && i < |state.threads|
      requires var h := state.shared;
        Move(maxSize, state.condemned, h, state.threads[i], h.(size := h.size - 1), p)
      modifies this`currentSize, this`state, this`run
      ensures Valid() && run == old(run) + [state] && (old(Alone(i)) ==> Alone(i))
      ensures currentSize == old(currentSize) - 1
      ensures state == Placed(old(state), i, old(state).shared.(size := currentSize), p)
    {
      currentSize := currentSize - 1;
      Record(i, state.shared.(size := currentSize), p);
    }

    /** `item.disconnect()`; a failure to disconnect is logged and the item dropped all the same. */
    method Disconnect(ghost i: nat, ghost item: Conn, ghost p: Point)
      requires Valid() && i < |state.threads|
      requires var h := state.shared;
        Move(maxSize, state.condemned, h, state.threads[i], h.(closed := h.closed[item := h.closed[item] + 1]), p)
      modifies this`state, this`run
      ensures Valid() && run == old(run) + [state] && (old(Alone(i)) ==> Alone(i))
      ensures var h := old(state).shared;
        state == Placed(old(state), i, h.(closed := h.closed[item := h.closed[item] + 1]), p)
    {
      Record(i, state.shared.(closed := state.shared.closed[item := state.shared.closed[item] + 1]), p);
    }

    /** The comparison under the lock that reserves a slot when there is one. */
    method Claim(ghost i: nat) returns (isFull: bool)
      requires Valid() && i < |state.threads| && state.threads[i] == Claiming
      modifies this`currentSize, this`state, this`run
      ensures Valid() && run == old(run) + [state] && isFull == (old(currentSize) >= maxSize)
      ensures old(Alone(i)) ==> Alone(i)
      ensures state.threads == old(state).threads[i := if isFull then Waiting else Creating]
      ensures state == old(state).(shared := old(state).shared.(size := currentSize), threads := state.threads)
      ensures currentSize == old(currentSize) + if isFull then 0 else 1
    {
      isFull := currentSize >= maxSize;
      if !isFull {
        currentSize := currentSize + 1;
      }
      Record(i, state.shared.(size := currentSize), if isFull then Waiting else Creating);
    }

    method Create(ghost i: nat, faults: bool) returns (r: Option<Conn>)
      requires Valid() && i < |state.threads| && state.threads[i] == Creating
      modifies this`nextConnection, this`state, this`run
      ensures Valid() && run == old(run) + [state] && (!faults ==> r.Some?)
      ensures if r.Some? then r.value == old(nextConnection) else nextConnection == old(nextConnection)
      ensures old(Alone(i)) ==> Alone(i)
      ensures state == Placed(old(state), i, old(state).shared.(next := nextConnection),
                              if r.Some? then Holding(r.value) else CreateFailed)
    {
      var raised: bool := *;
      if faults && raised {
        Record(i, state.shared, CreateFailed);
        return None;
      }
      r := Some(nextConnection);
      nextConnection := nextConnection + 1;
      Record(i, state.shared.(next := nextConnection), Holding(r.value));
    }

    lemma AloneMeansNothingOut(i: nat)
      requires Valid() && Alone(i) && (state.threads[i] == Idle || state.threads[i] == Claiming)
      ensures currentSize == |channel| && currentSize <= maxSize && maxSize > 0
    {
      RunInv(run, |run| - 1);
      TotalZero(state.threads, Held());
      TotalZero(state.threads, Popped());
      TotalZero(state.threads, Reserved());
    }

    /** The first loop of `get`: an active item from the queue, or the queue is exhausted (thread at `Claiming`). */
    method TakeActive(i: nat, faults: bool) returns (r: Option<Conn>, raised: bool)
      requires Valid() && i < |state.threads| && state.threads[i] == Idle
      modifies this
      ensures Valid() && old(run) <= run && |state.threads| == |old(state).threads|
      ensures state.condemned == old(state).condemned && patience <= old(patience)
      ensures if r.Some? then state.threads[i] == Holding(r.value)
              else state.threads[i] == if raised then Idle else Claiming
      ensures raised ==> faults && r.None?
      // Alone, it goes on to the first connection in the queue that is active, and drops those before it.
      ensures old(Alone(i)) && !faults ==>
        var rest := FirstActive(old(channel), broken);
        && Alone(i) && broken == old(broken) && nextConnection == old(nextConnection)
        && r == (if rest == [] then None else Some(rest[0])) && channel == (if rest == [] then [] else rest[1..])
        && currentSize == old(currentSize) - |old(channel)| + |rest|
    {
      ghost var alone := Alone(i) && !faults;
      hide IsRun, Alone;
      Goto(i, Polling);
      Interfere(i);
      while channel != []
        invariant Valid() && old(run) <= run && |state.threads| == |old(state).threads| && state.threads[i] == Polling
        invariant state.condemned == old(state).condemned && patience <= old(patience)
        invariant alone ==>
          && Alone(i) && broken == old(broken) && nextConnection == old(nextConnection)
          && FirstActive(channel, broken) == FirstActive(old(channel), broken)
          && currentSize - |channel| == old(currentSize) - |old(channel)|
        decreases patience, |channel|
      {
        var item, verdict := Examine(i, faults);
        match verdict {
          case Active => return Some(item), false;
          case Raised => return None, true;
          case Inactive =>
        }
      }
      Goto(i, Claiming);
      r, raised := None, false;
    }

    /** One turn of that loop: the item at the head of the queue is kept, dropped or retired. */
    method Examine(i: nat, faults: bool) returns (item: Conn, verdict: Verdict)
      requires Valid() && i < |state.threads| && state.threads[i] == Polling && channel != []
      modifies this
      ensures Valid() && old(run) <= run && |state.threads| == |old(state).threads|
      ensures state.condemned == old(state).condemned && patience <= old(patience)
      ensures patience < old(patience) || |channel| < |old(channel)|
      ensures verdict == Raised ==> faults
      ensures state.threads[i] ==
        match verdict case Active => Holding(item) case Inactive => Polling case Raised => Idle
      ensures old(Alone(i)) && !faults ==>
        && Alone(i) && broken == old(broken) && nextConnection == old(nextConnection)
        && item == old(channel)[0] && channel == old(channel)[1..]
        && verdict == (if item in broken then Inactive else Active)
        && currentSize == old(currentSize) - if item in broken then 1 else 0
    {
      hide IsRun, Alone;
      item := Pop(i);
      Interfere(i);
      verdict := Judge(i, item, faults);
      if verdict == Inactive {
        Retire(i, item);
      }
    }

    /** An inactive connection is uncounted first and disconnected afterwards. */
    method Retire(i: nat, item: Conn)
      requires Valid() && i < |state.threads| && state.threads[i] == Retiring(item)
      modifies this
      ensures Valid() && old(run) <= run && |state.threads| == |old(state).threads| && state.threads[i] == Polling
      ensures state.condemned == old(state).condemned
      ensures (channel == old(channel) && patience == old(patience)) || patience < old(patience)
      ensures old(Alone(i)) ==>
        && Alone(i) && currentSize == old(currentSize) - 1 && channel == old(channel)
        && broken == old(broken) && nextConnection == old(nextConnection)
    {
      hide IsRun, Alone;
      Interfere(i);
      Uncount(i, Closing(item));
      Interfere(i);
      Disconnect(i, item, Polling);
      Interfere(i);
    }

    method Get(i: nat, faults: bool) returns (r: Option<Conn>)
      requires Valid() && i < |state.threads| && state.threads[i] == Idle
      modifies this
      ensures Valid() && old(run) <= run && |state.threads| == |old(state).threads|
      ensures state.condemned == old(state).condemned && patience <= old(patience)
      ensures state.threads[i] == if r.Some? then Holding(r.value) else Idle
      // Nobody else has the connection handed out.
      ensures r.Some? ==> r.value !in channel && r.value !in state.shared.closed
      ensures r.Some? ==> forall j :: 0 <= j < |state.threads| && j != i ==> Carried(state.threads[j], r.value) == 0
      // Alone, with every create succeeding: the first active connection of the queue, else a new one. The counter
      // falls by those dropped and grows by a new one.
      ensures old(Alone(i)) && !faults ==>
        var rest := FirstActive(old(channel), broken);
        && Alone(i) && broken == old(broken)
        && r == Some(if rest == [] then old(nextConnection) else rest[0])
        && channel == (if rest == [] then [] else rest[1..])
        && currentSize == old(currentSize) - |old(channel)| + if rest == [] then 1 else |rest|
      ensures old(Alone(i)) && !faults ==>
        currentSize <= if old(currentSize) > 0 then old(currentSize) else 1
    {
      ghost var alone := Alone(i) && !faults;
      hide IsRun, Alone;
      var raised;
      r, raised := TakeActive(i, faults);
      if r.None? && !raised {
        if alone {
          AloneMeansNothingOut(i);
        }
        Interfere(i);
        r := CreateOrWait(i, faults);
      }
      if r.Some? {
        ConnectionIsExclusive(run, |run| - 1, i, r.value);
      }
    }

    /** The rest of `get`: a fresh connection if a slot is free, else whatever is returned before the timeout. */
    method CreateOrWait(i: nat, faults: bool) returns (r: Option<Conn>)
      requires Valid() && i < |state.threads| && state.threads[i] == Claiming
      modifies this
      ensures Valid() && old(run) <= run && |state.threads| == |old(state).threads|
      ensures state.condemned == old(state).condemned && patience <= old(patience)
      ensures state.threads[i] == if r.Some? then Holding(r.value) else Idle
      ensures old(Alone(i)) && !faults && old(currentSize) < maxSize ==>
        && Alone(i) && r == Some(old(nextConnection)) && currentSize == old(currentSize) + 1
        && channel == old(channel) && broken == old(broken)
      // A caller at a full pool gets what is in the queue, and nothing only while there is nothing in it.
      ensures old(Alone(i)) && old(currentSize) >= maxSize ==>
        && currentSize == old(currentSize)
        && r == (if old(channel) == [] then None else Some(old(channel)[0]))
        && channel == if old(channel) == [] then [] else old(channel)[1..]
      ensures r.None? && !faults ==> channel == []
    {
      hide IsRun, Alone;
      var isFull := Claim(i);
      Interfere(i);
      if !isFull {
        r := Create(i, faults);
        if r.None? {
          Interfere(i);
          Uncount(i, Idle);
        }
      } else if channel != [] {
        var item := Pop(i);
        r := Some(item);
      } else {
        Goto(i, Idle);
        r := None;
      }
    }

    /** `channel.put(item, block=False)`. */
    method Enqueue(ghost i: nat, item: Conn) returns (full: bool)
      requires Valid() && i < |state.threads| && state.threads[i] == Enqueueing(item)
      modifies this`channel, this`state, this`run
      ensures Valid() && run == old(run) + [state] && full == (|old(channel)| >= maxSize)
      ensures state.threads == old(state).threads[i := if full then Overflowing(item) else Idle]
      ensures state.condemned == old(state).condemned
      ensures channel == if full then old(channel) else old(channel) + [item]
      ensures old(Alone(i)) ==> Alone(i)
    {
      full := |channel| >= maxSize;
      if !full {
        channel := channel + [item];
      }
      Record(i, state.shared.(channel := channel), if full then Overflowing(item) else Idle);
    }

    /** The part of `put` that decides, as written: discard over the bound or when the queue is full. */
    method Offer(i: nat, item: Conn) returns (discarded: bool)
      requires Valid() && i < |state.threads| && state.threads[i] == Returning(item)
      modifies this
      ensures Valid() && old(run) <= run && |state.threads| == |old(state).threads|
      ensures state.condemned == old(state).condemned && patience <= old(patience)
      ensures if discarded then state.threads[i] == Discarding(item) || state.threads[i] == Overflowing(item)
              else state.threads[i] == Idle && item in channel
      ensures old(Alone(i)) ==> Alone(i)
      ensures old(Alone(i)) && !discarded ==> channel == old(channel) + [item] && currentSize == old(currentSize)
    {
      hide IsRun, Alone;
      discarded := currentSize > maxSize;
      if discarded {
        Uncount(i, Discarding(item));
      } else {
        Goto(i, Enqueueing(item));
        Interfere(i);
        discarded := Enqueue(i, item);
      }
    }

    /** `put` never takes either discard branch: the item is back in the queue when it returns. */
    method Put(i: nat, item: Conn) returns (discarded: bool)
      requires Valid() && i < |state.threads| && state.threads[i] == Holding(item)
      modifies this
      ensures Valid() && old(run) <= run && |state.threads| == |old(state).threads|
      ensures state.condemned == old(state).condemned && patience <= old(patience)
      ensures state.threads[i] == Idle && !discarded && item in channel
      ensures old(Alone(i)) ==> Alone(i) && channel == old(channel) + [item] && currentSize == old(currentSize)
    {
      hide IsRun, Alone;
      Goto(i, Returning(item));
      Interfere(i);
      discarded := Offer(i, item);
      if discarded {
        ghost var at := |run| - 1;
        Interfere(i);
        Disconnect(i, item, Idle);
        PutNeverDiscards(run, at, i);
      }
    }

    /**
     `get_mediator`: what was checked out is returned once, however the caller's block between ends. A caller that
     gets nothing sees the exception.
     */
    method GetMediator(i: nat, faults: bool) returns (served: bool)
      requires Valid() && i < |state.threads| && state.threads[i] == Idle
      modifies this
      ensures Valid() && old(run) <= run && |state.threads| == |old(state).threads|
      ensures state.condemned == old(state).condemned && state.threads[i] == Idle
      ensures old(Alone(i)) && !faults ==> served && channel != []
    {
      hide IsRun, Alone;
      var med := Get(i, faults);
      served := med.Some?;
      if served {
        Interfere(i);
        var discarded := Put(i, med.value);
      }
    }

    /** The loop in `__init__`: however many connections are asked for, it leaves at most one. */
    method Prefill(i: nat, minSize: nat)
      requires Valid() && Alone(i) && state.threads[i] == Idle && currentSize <= 1
      modifies this
      ensures Valid() && Alone(i) && state.threads[i] == Idle
      ensures currentSize == |channel| <= 1 && (minSize > 0 ==> |channel| == 1)
    {
      AloneMeansNothingOut(i);
      for n := 0 to minSize
        invariant Valid() && Alone(i) && state.threads[i] == Idle
        invariant currentSize == |channel| <= 1 && (n > 0 ==> |channel| == 1)
      {
        var item := Get(i, false);
        var discarded := Put(i, item.value);
        AloneMeansNothingOut(i);
      }
    }

    /** `__del__`: with nothing checked out it ends, with the counter at zero and every connection closed. */
    method Drain(i: nat)
      requires Valid() && Alone(i) && state.threads[i] == Idle
      modifies this
      ensures Valid() && Alone(i) && state.threads[i] == Idle && currentSize == 0 && channel == []
      ensures forall c: Conn :: c < nextConnection ==> state.shared.closed[c] == 1
    {
      hide IsRun;
      assert Condemn(state, state.(condemned := true));
      RunExtends(run, state.(condemned := true));
      state := state.(condemned := true);
      run := run + [state];
      AloneMeansNothingOut(i);
      while currentSize != 0
        invariant Valid() && Alone(i) && state.threads[i] == Idle && state.condemned && currentSize == |channel|
        decreases currentSize
      {
        DrainOne(i);
        AloneMeansNothingOut(i);
      }
      AloneMeansAllClosed(i);
    }

    /** One turn of that loop, which takes one off the counter even when `get` had to make the connection. */
    method DrainOne(i: nat)
      requires Valid() && Alone(i) && i < |state.threads| && state.threads[i] == Idle
      requires state.condemned && currentSize > 0
      modifies this
      ensures Valid() && Alone(i) && i < |state.threads| && state.threads[i] == Idle && state.condemned
      ensures currentSize < old(currentSize)
    {
      hide IsRun, Alone;
      var item := Get(i, false);
      Goto(i, Purging(item.value));
      Disconnect(i, item.value, Purged);
      Uncount(i, Idle);
    }

    lemma AloneMeansAllClosed(i: nat)
      requires Valid() && Alone(i) && state.threads[i] == Idle && channel == []
      ensures forall c: Conn :: c < nextConnection ==> state.shared.closed[c] == 1
    {
      RunInv(run, |run| - 1);
      forall c: Conn | c < nextConnection ensures state.shared.closed[c] == 1 {
        assert Places(state, c) == 1;
        TotalZero(state.threads, Carries(c));
      }
    }
  }

  /** The queue from its first active connection on. */
  function FirstActive(channel: seq<Conn>, broken: set<Conn>): (rest: seq<Conn>)
    ensures |rest| <= |channel|
  {
    if channel == [] || channel[0] !in broken then channel else FirstActive(channel[1..], broken)
  }

  /** It is the rest of the queue after the connections at its head that are not active. */
  lemma {:induction false} FirstActiveExactly(channel: seq<Conn>, broken: set<Conn>)
    ensures var rest := FirstActive(channel, broken);
      && channel[|channel| - |rest|..] == rest && (rest != [] ==> rest[0] !in broken)
      && forall k :: 0 <= k < |channel| - |rest| ==> channel[k] in broken
  {
    if channel != [] && channel[0] in broken {
      FirstActiveExactly(channel[1..], broken);
    }
  }

  datatype Verdict = Active | Inactive | Raised
}
