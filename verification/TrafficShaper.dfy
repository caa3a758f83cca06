/** The shared part of the traffic shaper, updated in place step by step. */
module TrafficShapers {
  import opened Common
  import opened Shaper

  class TrafficShaper {
    const maxParallel: Option<nat>
    var semaphores: map<string, nat>
    var lockedBy: Option<nat>
    // The calls of `execute` so far, by any clone, and how far each has come.
    var requests: seq<Request>

    ghost function View(): State
      reads this
    {
      State(maxParallel, semaphores, lockedBy, requests)
    }

    ghost predicate Valid()
      reads this
    {
      Inv(View())
    }

    constructor (maxParallel: Option<nat>)
      ensures Valid() && View() == Start(maxParallel)
    {
      this.maxParallel := maxParallel;
      semaphores, lockedBy, requests := map[], None, [];
    }

    /** A call of `execute`, by any clone. */
    method Execute(tag: string) returns (r: nat)
      requires Valid()
      modifies this
      ensures Valid() && View() == Apply(old(View()), Arrive(tag))
      ensures r < |requests| && requests[r] == Request(tag, Fresh)
    {
      StepKeepsInv(View(), Arrive(tag));
      r := |requests|;
      requests := requests + [Request(tag, Fresh)];
    }

    /** Takes the map mutex if it is free and finds or creates the tag's semaphore; without a limit it is not needed. */
    method LockMap(r: nat)
      requires Valid() && r < |requests|
      modifies this
      ensures Valid() && View() == Apply(old(View()), Lock(r))
    {
      StepKeepsInv(View(), Lock(r));
      if !requests[r].stage.Fresh? {
        return;
      }
      var tag := requests[r].tag;
      if maxParallel.None? {
        requests := requests[r := Request(tag, Running)];
      } else if lockedBy.None? {
        lockedBy := Some(r);
        if tag !in semaphores {
          semaphores := semaphores[tag := maxParallel.value];
        }
        requests := requests[r := Request(tag, Waiting)];
      }
    }

    /** Takes a permit, if there is one, and only then gives up the map mutex. */
    method AcquirePermit(r: nat) returns (acquired: bool)
      requires Valid() && r < |requests|
      modifies this
      ensures Valid() && View() == Apply(old(View()), Acquire(r))
      ensures acquired <==> old(lockedBy) == Some(r) && old(semaphores)[old(requests)[r].tag] > 0
      ensures acquired ==> maxParallel.Some? && InFlight(requests, requests[r].tag) <= maxParallel.value
    {
      StepKeepsInv(View(), Acquire(r));
      acquired := false;
      if lockedBy == Some(r) {
        var tag := requests[r].tag;
        if semaphores[tag] > 0 {
          semaphores := semaphores[tag := semaphores[tag] - 1];
          requests := requests[r := Request(tag, Running)];
          lockedBy := None;
          acquired := true;
          assert Conserved(View(), tag);
        }
      }
    }

    /** The request's body is done, or its client could not be built: the permit is dropped. */
    method DropPermit(r: nat)
      requires Valid() && r < |requests|
      modifies this
      ensures Valid() && View() == Apply(old(View()), Complete(r))
    {
      StepKeepsInv(View(), Complete(r));
      if requests[r].stage.Running? {
        var tag := requests[r].tag;
        requests := requests[r := Request(tag, Finished)];
        if tag in semaphores {
          semaphores := semaphores[tag := semaphores[tag] + 1];
        }
      }
    }
  }
}
