/** SANtricity: taking an automatic snapshot in the group chosen, grown or made for it. */
module SnapshotAutomation {
  import opened Options
  import opened SnapshotChooser

  /** What the commands below change on the array; images are recorded by the group they are taken in. */
  class SnapshotClient {
    // Whether commands may fail.
    const faults: bool
    var images: seq<string>
    var newGroups: seq<string>
    var expansions: seq<string>

    constructor (faults: bool)
      ensures this.faults == faults && images == [] && newGroups == [] && expansions == []
    {
      this.faults := faults;
      images, newGroups, expansions := [], [], [];
    }

    method ExpandRepository(repositoryRef: string) returns (ok: bool)
      modifies this`expansions
      ensures !faults ==> ok
      ensures expansions == if ok then old(expansions) + [repositoryRef] else old(expansions)
    {
      ok := *;
      ok := ok || !faults;
      if ok {
        expansions := expansions + [repositoryRef];
      }
    }

    method CreateGroup() returns (ref: Option<string>)
      modifies this`newGroups
      ensures !faults ==> ref.Some?
      ensures newGroups == if ref.Some? then old(newGroups) + [ref.value] else old(newGroups)
    {
      ref := None;
      var accepted: bool, chosen: string := *, *;
      if accepted || !faults {
        ref := Some(chosen);
        newGroups := newGroups + [chosen];
      }
    }

    method CreateImage(groupRef: string) returns (ok: bool)
      modifies this`images
      ensures !faults ==> ok
      ensures images == if ok then old(images) + [groupRef] else old(images)
    {
      ok := *;
      ok := ok || !faults;
      if ok {
        images := images + [groupRef];
      }
    }
  }

  /** The group to grow, when growing is asked for, a candidate is offered and the repository is known. */
  predicate CanGrow(choice: Choice, autoGrow: bool, growthOffered: bool) {
    choice.Grow? && autoGrow && growthOffered && choice.target.repositoryRef != ""
  }

  /**
   `auto_create_snapshot`. `growthOffered` and `groupOffered` are whether the array has a repository candidate to
   offer for growing a group and for making one. Success takes exactly one image, in the best eligible group if
   there is one, else in the best growable group if it can be grown, else in a group made for it.
   */
  method AutoCreateSnapshot(
      client: SnapshotClient, q: Query, autoGrowIfNeeded: bool, growthOffered: bool, groupOffered: bool)
    returns (ok: bool)
    requires DistinctRefs(q)
    modifies client
    ensures !ok ==> client.images == old(client.images)
    ensures ok ==> exists choice :: IsChoice(q, choice) && Outcome(old(client.images), old(client.newGroups),
      old(client.expansions), client.images, client.newGroups, client.expansions,
      choice, CanGrow(choice, autoGrowIfNeeded, growthOffered))
    // When no command fails, it fails only if a new group is needed and the array has nothing to offer for one.
    ensures !client.faults ==>
      exists choice :: IsChoice(q, choice) &&
        (ok <==> choice.Use? || CanGrow(choice, autoGrowIfNeeded, growthOffered) || groupOffered)
    ensures |client.newGroups| <= |old(client.newGroups)| + 1 && |client.expansions| <= |old(client.expansions)| + 1
  {
    var choice := ChooseSnapshotGroupForAuto(q);
    var resolved: Option<string> := None;
    if choice.Use? {
      resolved := Some(choice.ref);
    }
    if resolved.None? && choice.Grow? && autoGrowIfNeeded {
      if growthOffered && choice.target.repositoryRef != "" {
        var grown := client.ExpandRepository(choice.target.repositoryRef);
        if !grown {
          return false;
        }
        resolved := Some(choice.target.groupRef);
      }
    }
    if resolved.None? {
      if !groupOffered {
        return false;
      }
      resolved := client.CreateGroup();
      if resolved.None? {
        return false;
      }
    }
    ok := client.CreateImage(resolved.value);
  }

  /** One image more; a new group only if neither route gave one; an expansion only on the second route. */
  ghost predicate Outcome(
      images: seq<string>, groups: seq<string>, expansions: seq<string>,
      images': seq<string>, groups': seq<string>, expansions': seq<string>, choice: Choice, grown: bool)
  {
    if choice.Use? then
      images' == images + [choice.ref] && groups' == groups && expansions' == expansions
    else if grown && choice.Grow? then
      && images' == images + [choice.target.groupRef] && groups' == groups
      && expansions' == expansions + [choice.target.repositoryRef]
    else
      exists ref :: images' == images + [ref] && groups' == groups + [ref] && expansions' == expansions
  }
}
