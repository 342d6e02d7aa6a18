/**
 `SyncLock` in its own form: the methods of sync_lock.go over the concurrent map and the token channel.

 Between any two atomic actions the other threads may do anything the protocol allows (`Interfere`), and the
 ghost `run` records every step, so whatever the protocol proves about runs holds inside these methods.
 */
module NodeSyncLocks {
  import opened Options
  import opened NodeLockProtocol

  datatype LockError =
    | Granted
    | VolumeAlreadyProcessing(id: string)
    | VolumeNoResources(id: string)
    | LunAlreadyProcessing(lun: int)

  class SyncLock {
    const maxInvocations: nat
    const cleanScsiDevice: bool
    var syncMap: map<Key, nat>
    var tokens: nat

    ghost var state: State
    ghost var run: seq<State>
    // Whether the other threads take steps at all while a method below runs.
    ghost const disturbed: bool

    ghost predicate Valid()
      reads this
    {
      && IsRun(run) && run[|run| - 1] == state
      && state.max == maxInvocations && state.clean == cleanScsiDevice
      && state.locks == Locks(syncMap, tokens)
    }

    constructor (maxInvocations: nat, cleanScsiDevice: bool, ghost threadCount: nat, ghost disturbed: bool)
      ensures Valid() && AllIdle(state) && |state.threads| == threadCount
      ensures this.maxInvocations == maxInvocations && this.cleanScsiDevice == cleanScsiDevice
      ensures this.disturbed == disturbed
    {
      this.disturbed := disturbed;
      this.maxInvocations, this.cleanScsiDevice := maxInvocations, cleanScsiDevice;
      syncMap, tokens := map[], 0;
      state := State(maxInvocations, cleanScsiDevice, Locks(map[], 0), seq(threadCount, k => Idle));
      run := [state];
    }

    /** Thread `i` has just acted on the map or the channel on its way to `p`. */
    ghost method Record(i: nat, p: Point)
      requires IsRun(run) && run[|run| - 1] == state && i < |state.threads|
      requires state.max == maxInvocations && state.clean == cleanScsiDevice
      requires Move(maxInvocations, cleanScsiDevice, i, state.locks, state.threads[i], Locks(syncMap, tokens), p)
      modifies this`state, this`run
      ensures Valid() && state == Placed(old(state), i, Locks(syncMap, tokens), p) && run == old(run) + [state]
    {
      RunExtends(run, i, Locks(syncMap, tokens), p);
      state := Placed(state, i, Locks(syncMap, tokens), p);
      run := run + [state];
    }

    /** The other threads run for a while. Callers know only that they kept to the protocol. */
    method Interfere(ghost i: nat)
      requires Valid() && i < |state.threads|
      modifies this
      ensures Valid() && |state.threads| == |old(state).threads| && state.threads[i] == old(state).threads[i]
      ensures old(run) <= run
      ensures !disturbed ==> syncMap == old(syncMap) && tokens == old(tokens)
    {
    }

    /** Thread `i` goes on to `p` without touching the map or the channel. */
    ghost method Goto(i: nat, p: Point)
      requires Valid() && i < |state.threads|
      requires Move(maxInvocations, cleanScsiDevice, i, state.locks, state.threads[i], state.locks, p)
      modifies this`state, this`run
      ensures Valid() && run == old(run) + [state]
      ensures |state.threads| == |old(state).threads| && state.threads[i] == p
    {
      Record(i, p);
    }

    /** `SyncMap.LoadOrStore`: reports whether the key was there already, and stores it if not. */
    method LoadOrStore(i: nat, key: Key, ghost missed: Point, ghost stored: Point) returns (found: bool)
      requires Valid() && i < |state.threads|
      requires if key in syncMap
               then Move(maxInvocations, cleanScsiDevice, i, state.locks, state.threads[i], state.locks, missed)
               else Move(maxInvocations, cleanScsiDevice, i, state.locks, state.threads[i],
                         Locks(syncMap[key := i], tokens), stored)
      modifies this`syncMap, this`state, this`run
      ensures Valid() && found == (key in old(syncMap)) && run == old(run) + [state]
      ensures syncMap == if found then old(syncMap) else old(syncMap)[key := i]
      ensures |state.threads| == |old(state).threads| && state.threads[i] == if found then missed else stored
    {
      found := key in syncMap;
      if !found {
        syncMap := syncMap[key := i];
      }
      Record(i, if found then missed else stored);
    }

    method Delete(i: nat, key: Key, ghost p: Point)
      requires Valid() && i < |state.threads|
      requires Move(maxInvocations, cleanScsiDevice, i, state.locks, state.threads[i], Without(state.locks, key), p)
      modifies this`syncMap, this`state, this`run
      ensures Valid() && syncMap == old(syncMap) - {key} && run == old(run) + [state]
      ensures |state.threads| == |old(state).threads| && state.threads[i] == p
    {
      syncMap := syncMap - {key};
      Record(i, p);
    }

    /** The select: a token is sent at once if the channel has room, else when it gets room before the timer fires. */
    method TrySend(i: nat, ghost op: Request) returns (sent: bool)
      requires Valid() && i < |state.threads| && state.threads[i] == TokenTry(op)
      modifies this
      ensures Valid() && old(run) <= run && |state.threads| == |old(state).threads|
      ensures state.threads[i] == if sent then Inside(op) else VolUndo(op)
      ensures old(tokens) < maxInvocations ==> sent
      ensures !sent ==> tokens >= maxInvocations
      ensures !disturbed ==> sent == (old(tokens) < maxInvocations) && syncMap == old(syncMap)
      ensures !disturbed ==> tokens == old(tokens) + if sent then 1 else 0
    {
      hide IsRun;
      if tokens >= maxInvocations {
        Interfere(i);
      }
      sent := tokens < maxInvocations;
      if sent {
        tokens := tokens + 1;
      }
      Record(i, if sent then Inside(op) else VolUndo(op));
    }

    /** `<-s.Tokens`, which never finds the channel empty. */
    method Receive(i: nat, ghost op: Request)
      requires Valid() && i < |state.threads| && state.threads[i] == TokenRelease(op)
      modifies this`tokens, this`state, this`run
      ensures Valid() && run == old(run) + [state] && old(tokens) > 0 && tokens == old(tokens) - 1
      ensures |state.threads| == |old(state).threads| && state.threads[i] == VolRelease(op)
    {
      ReleaseNeverBlocks(run, |run| - 1, i);
      tokens := tokens - 1;
      Record(i, VolRelease(op));
    }

    /** What a caller may rely on once an acquire returns, whatever the other threads do. */
    ghost predicate Outcome(i: nat, op: Request, err: LockError)
      reads this
    {
      && i < |state.threads|
      && if err.Granted?
         then
           && state.threads[i] == Inside(op)
           && (forall key :: key in Owns(cleanScsiDevice, Inside(op)) ==> key in syncMap && syncMap[key] == i)
           && forall j :: 0 <= j < |state.threads| && j != i ==> Vol(op.id) !in Owns(cleanScsiDevice, state.threads[j])
         else state.threads[i] == Idle && i !in syncMap.Values
    }

    lemma Settled(i: nat, op: Request, err: LockError)
      requires Valid() && i < |state.threads| && state.threads[i] == if err.Granted? then Inside(op) else Idle
      ensures Outcome(i, op, err)
    {
      RunInv(run, |run| - 1);
      assert Vol(op.id) in Owns(cleanScsiDevice, Inside(op));
    }

    method AddVolumeAndLunLock(i: nat, id: string, lun: int) returns (err: LockError)
      requires Valid() && i < |state.threads| && state.threads[i] == Idle
      modifies this
      ensures Valid() && old(run) <= run && |state.threads| == |old(state).threads|
      ensures Outcome(i, Request(id, Some(lun)), err)
      // Undisturbed, what is free is granted, and the error says what is not.
      ensures !disturbed ==>
        err == if cleanScsiDevice && Lun(lun) in old(syncMap) then LunAlreadyProcessing(lun)
               else if Vol(id) in old(syncMap) then VolumeAlreadyProcessing(id)
               else if old(tokens) >= maxInvocations then VolumeNoResources(id)
               else Granted
      ensures !disturbed && !err.Granted? ==> syncMap == old(syncMap) && tokens == old(tokens)
    {
      hide IsRun, Owns;
      Goto(i, LunTry(id, lun));
      Interfere(i);
      err := AddLunLock(i, id, lun);
      if err.Granted? {
        Interfere(i);
        err := TakeVolume(i, Request(id, Some(lun)));
        if !err.Granted? {
          Interfere(i);
          RemoveLunLock(i, lun, Idle);
        }
      }
      Settled(i, Request(id, Some(lun)), err);
    }

    method AddVolumeLock(i: nat, id: string) returns (err: LockError)
      requires Valid() && i < |state.threads| && state.threads[i] == Idle
      modifies this
      ensures Valid() && old(run) <= run && |state.threads| == |old(state).threads|
      ensures Outcome(i, Request(id, None), err)
      ensures !disturbed ==>
        err == if Vol(id) in old(syncMap) then VolumeAlreadyProcessing(id)
               else if old(tokens) >= maxInvocations then VolumeNoResources(id)
               else Granted
      ensures !disturbed && !err.Granted? ==> syncMap == old(syncMap) && tokens == old(tokens)
    {
      hide IsRun, Owns;
      Goto(i, VolTry(Request(id, None)));
      Interfere(i);
      err := TakeVolume(i, Request(id, None));
      Settled(i, Request(id, None), err);
    }

    /** The body of `AddVolumeLock`, for either caller. */
    method TakeVolume(i: nat, op: Request) returns (err: LockError)
      requires Valid() && i < |state.threads| && state.threads[i] == VolTry(op)
      modifies this
      ensures Valid() && old(run) <= run && |state.threads| == |old(state).threads|
      ensures state.threads[i] == if err.Granted? then Inside(op) else Unwinding(op)
      ensures if Vol(op.id) in old(syncMap) then err == VolumeAlreadyProcessing(op.id)
              else err == Granted || err == VolumeNoResources(op.id)
      ensures !disturbed && Vol(op.id) !in old(syncMap) ==>
        err == if old(tokens) < maxInvocations then Granted else VolumeNoResources(op.id)
      ensures !disturbed ==> tokens == old(tokens) + if err.Granted? then 1 else 0
      ensures !disturbed ==>
        syncMap == if err.Granted? then old(syncMap)[Vol(op.id) := i] else old(syncMap)
    {
      hide IsRun;
      var found := LoadOrStore(i, Vol(op.id), Unwinding(op), TokenTry(op));
      if found {
        return VolumeAlreadyProcessing(op.id);
      }
      Interfere(i);
      var sent := TrySend(i, op);
      if sent {
        return Granted;
      }
      Interfere(i);
      Delete(i, Vol(op.id), Unwinding(op));
      err := VolumeNoResources(op.id);
    }

    method AddLunLock(i: nat, id: string, lun: int) returns (err: LockError)
      requires Valid() && i < |state.threads| && state.threads[i] == LunTry(id, lun)
      modifies this
      ensures Valid() && old(run) <= run && |state.threads| == |old(state).threads|
      ensures state.threads[i] == if err.Granted? then VolTry(Request(id, Some(lun))) else Idle
      ensures err == if cleanScsiDevice && Lun(lun) in old(syncMap) then LunAlreadyProcessing(lun) else Granted
      ensures tokens == old(tokens)
      ensures syncMap == if cleanScsiDevice && err.Granted? then old(syncMap)[Lun(lun) := i] else old(syncMap)
    {
      hide IsRun;
      if !cleanScsiDevice {
        Goto(i, VolTry(Request(id, Some(lun))));
        return Granted;
      }
      var found := LoadOrStore(i, Lun(lun), Idle, VolTry(Request(id, Some(lun))));
      err := if found then LunAlreadyProcessing(lun) else Granted;
    }

    method RemoveLunLock(i: nat, lun: int, ghost p: Point)
      requires Valid() && i < |state.threads|
      requires Move(maxInvocations, cleanScsiDevice, i, state.locks, state.threads[i],
                    WithoutLun(cleanScsiDevice, state.locks, lun), p)
      modifies this`syncMap, this`state, this`run
      ensures Valid() && old(run) <= run && |state.threads| == |old(state).threads| && state.threads[i] == p
      ensures syncMap == if cleanScsiDevice then old(syncMap) - {Lun(lun)} else old(syncMap)
    {
      hide IsRun;
      if !cleanScsiDevice {
        Goto(i, p);
      } else {
        Delete(i, Lun(lun), p);
      }
    }

    method RemoveVolumeAndLunLock(i: nat, id: string, lun: int)
      requires Valid() && i < |state.threads| && state.threads[i] == Inside(Request(id, Some(lun)))
      modifies this
      ensures Valid() && old(run) <= run && |state.threads| == |old(state).threads|
      ensures state.threads[i] == Idle && i !in syncMap.Values
      ensures !disturbed ==> tokens == old(tokens) - 1
      ensures !disturbed ==>
        syncMap == old(syncMap) - (if cleanScsiDevice then {Lun(lun)} else {}) - {Vol(id)}
    {
      hide IsRun, Owns;
      Goto(i, LunRelease(Request(id, Some(lun))));
      Interfere(i);
      RemoveLunLock(i, lun, TokenRelease(Request(id, Some(lun))));
      Interfere(i);
      ReleaseVolume(i, Request(id, Some(lun)));
    }

    method RemoveVolumeLock(i: nat, id: string)
      requires Valid() && i < |state.threads| && state.threads[i] == Inside(Request(id, None))
      modifies this
      ensures Valid() && old(run) <= run && |state.threads| == |old(state).threads|
      ensures state.threads[i] == Idle && i !in syncMap.Values
      ensures !disturbed ==> tokens == old(tokens) - 1 && syncMap == old(syncMap) - {Vol(id)}
    {
      hide IsRun, Owns;
      Goto(i, TokenRelease(Request(id, None)));
      Interfere(i);
      ReleaseVolume(i, Request(id, None));
    }

    /** The body of `RemoveVolumeLock`, for either caller. */
    method ReleaseVolume(i: nat, op: Request)
      requires Valid() && i < |state.threads| && state.threads[i] == TokenRelease(op)
      modifies this
      ensures Valid() && old(run) <= run && |state.threads| == |old(state).threads|
      ensures state.threads[i] == Idle && i !in syncMap.Values
      ensures !disturbed ==> tokens == old(tokens) - 1 && syncMap == old(syncMap) - {Vol(op.id)}
    {
      hide IsRun, Owns;
      Receive(i, op);
      Interfere(i);
      Delete(i, Vol(op.id), Idle);
      Settled(i, op, VolumeNoResources(op.id));
    }
  }
}
