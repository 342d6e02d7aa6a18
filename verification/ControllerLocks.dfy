/** The controller's lock on request ids. */
module ControllerLocks {

  /** The lock key of the calls that name a volume by its id. */
  const VOLUME_ID := "volume_id"

  /** `ids_in_use`: for each lock key, the ids being processed. A key that was never used has none. */
  class IdsInUse {
    var idsInUse: map<string, set<string>>

    constructor ()
      ensures forall key :: At(key) == {}
    {
      idsInUse := map[];
    }

    function At(key: string): set<string>
      reads this
    {
      if key in idsInUse then idsInUse[key] else {}
    }

    /** `__enter__`: false stands for the exception that the id is already processed. No key means no lock. */
    method Enter(lockKey: string, objectId: string) returns (entered: bool)
      modifies this
      ensures entered <==> lockKey == "" || objectId !in old(At(lockKey))
      ensures forall key ::
        At(key) == old(At(key)) + if entered && lockKey != "" && key == lockKey then {objectId} else {}
    {
      if lockKey == "" {
        return true;
      }
      idsInUse := idsInUse[lockKey := At(lockKey)];
      if objectId in idsInUse[lockKey] {
        return false;
      }
      idsInUse := idsInUse[lockKey := idsInUse[lockKey] + {objectId}];
      entered := true;
    }

    /** `__exit__`: releasing an id that is not in use is only logged. */
    method Exit(lockKey: string, objectId: string)
      modifies this
      ensures forall key :: At(key) == old(At(key)) - (if lockKey != "" && key == lockKey then {objectId} else {})
    {
      if lockKey == "" {
        return;
      }
      idsInUse := idsInUse[lockKey := At(lockKey)];
      if objectId in idsInUse[lockKey] {
        idsInUse := idsInUse[lockKey := idsInUse[lockKey] - {objectId}];
      }
    }
  }
}
