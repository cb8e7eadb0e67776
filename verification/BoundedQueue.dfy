/** The blocking bounded queue. */
module BoundedQueue {
  import opened Options
  import opened QueueSteps

  datatype PushResult = Done | MustWait | ThrowsPoisoned

  datatype PopResult<T> = Answer(item: Option<Item<T>>) | MustWaitForItem

  /** The critical sections of `push`, `pop` and `poison`; a call that must wait blocks on its own semaphore. */
  class BoundedQueue<T> {
    var workorderContainer: seq<Item<T>>
    const workorderContainerCap: nat
    var waitingArgVec: seq<nat>
    var pushingArgVec: seq<Item<T>>
    var isPoisoned: bool
    var clock: nat                              // numbers the calls
    var slots: map<nat, Option<Item<T>>>        // `*dst` of the poppers
    var released: set<nat>                      // semaphores released
    ghost var blocked: set<nat>                 // calls that wait, or waited, on their semaphores
    ghost var accepted: map<nat, T>
    ghost var place: map<nat, Place>

    ghost function Abstract(): Queue<T>
      reads this
    {
      Queue(workorderContainer, workorderContainerCap, waitingArgVec, pushingArgVec, isPoisoned, clock, accepted, place, slots, blocked, released)
    }

    constructor (workorderContainerCap: nat)
      ensures Abstract() == Fresh(workorderContainerCap) && Sound(Abstract())
    {
      this.workorderContainerCap := workorderContainerCap;
      workorderContainer, waitingArgVec, pushingArgVec, isPoisoned, clock := [], [], [], false, 0;
      slots, blocked, released, accepted, place := map[], {}, {}, map[], map[];
    }

    method PushSection(arg: T) returns (r: PushResult)
      modifies this
      ensures Abstract() == Pushed(old(Abstract()), arg)
      ensures blocked == old(blocked) + (if r == MustWait then {old(clock)} else {})
      ensures r == ThrowsPoisoned <==> old(isPoisoned)
      ensures r == MustWait <==> !old(isPoisoned) && old(waitingArgVec) == [] && old(|workorderContainer|) == workorderContainerCap
    {
      var id := clock;
      clock := clock + 1;
      if isPoisoned {
        return ThrowsPoisoned;
      }
      accepted := accepted[id := arg];
      if waitingArgVec != [] {
        var dst := waitingArgVec[0];
        waitingArgVec := waitingArgVec[1..];
        slots := slots[dst := Some(Item(id, arg))];
        released := released + {dst};
        place := place[id := Given(dst)];
        return Done;
      }
      if |workorderContainer| == workorderContainerCap {
        pushingArgVec := pushingArgVec + [Item(id, arg)];
        place := place[id := Parked];
        blocked := blocked + {id};
        return MustWait;
      }
      workorderContainer := workorderContainer + [Item(id, arg)];
      place := place[id := Buffered];
      return Done;
    }

    method PopSection() returns (r: PopResult<T>)
      modifies this
      ensures Abstract() == Popped(old(Abstract()))
      ensures blocked == old(blocked) + (if r.MustWaitForItem? then {old(clock)} else {})
      ensures r.Answer? ==> old(clock) in slots && slots[old(clock)] == r.item
      ensures r.MustWaitForItem? <==> !old(isPoisoned) && old(pushingArgVec) == [] && old(workorderContainer) == []
    {
      var id := clock;
      clock := clock + 1;
      if isPoisoned {
        slots := slots[id := None];
        return Answer(None);
      }
      if pushingArgVec != [] {
        var arg := pushingArgVec[0];
        pushingArgVec := pushingArgVec[1..];
        released := released + {arg.id};
        slots := slots[id := Some(arg)];
        place := place[arg.id := Given(id)];
        return Answer(Some(arg));
      }
      if workorderContainer != [] {
        var arg := workorderContainer[0];
        workorderContainer := workorderContainer[1..];
        slots := slots[id := Some(arg)];
        place := place[arg.id := Given(id)];
        return Answer(Some(arg));
      }
      waitingArgVec := waitingArgVec + [id];
      blocked := blocked + {id};
      return MustWaitForItem;
    }

    method WakeWaiting()
      modifies this`slots, this`released
      ensures slots == AnsweredNone(old(slots), waitingArgVec)
      ensures released == old(released) + Members(waitingArgVec)
    {
      ghost var before := slots;
      assert AnsweredNone(before, []) == before;
      for i := 0 to |waitingArgVec|
        invariant slots == AnsweredNone(before, waitingArgVec[..i])
        invariant released == old(released) + Members(waitingArgVec[..i])
      {
        AnsweredOneMore(before, waitingArgVec, i);
        WokenOneMore(waitingArgVec, i);
        slots := slots[waitingArgVec[i] := None];
        released := released + {waitingArgVec[i]};
      }
      assert waitingArgVec[..|waitingArgVec|] == waitingArgVec;
    }

    method WakeParked()
      modifies this`released
      ensures released == old(released) + Ids(pushingArgVec)
    {
      for i := 0 to |pushingArgVec|
        invariant released == old(released) + Ids(pushingArgVec[..i])
      {
        IdsOneMore(pushingArgVec, i);
        released := released + {pushingArgVec[i].id};
      }
      assert pushingArgVec[..|pushingArgVec|] == pushingArgVec;
    }

    method PoisonSection()
      modifies this
      ensures Abstract() == Poisoned(old(Abstract()))
    {
      WakeWaiting();
      WakeParked();
      isPoisoned := true;
      clock := clock + 1;
    }
  }
}
