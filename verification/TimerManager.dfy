/**
 The timer map, the second client of the id allocator.  A timer is what the manager sets in it; its
 task and its coroutine are outside the model, except that a finished coroutine asks for removal.
 */
module Timers {
  import opened Wrappers
  import opened Collections
  import opened Identifiers

  /** `managed` is false once CleanUpManager was called. */
  datatype Timer = Timer(delay: int, rate: int, managed: bool, cancelled: bool)

  class TimerManager {
    const allocator: IdentAllocator
    var timers: map<int, Timer>

    /** Exactly the ids in the map are outstanding. */
    ghost predicate Valid()
      reads this, allocator
    {
      allocator.View().Ok() && timers.Keys == allocator.View().Outstanding()
    }

    constructor ()
      ensures Valid() && fresh(allocator) && timers == map[]
    {
      timers := map[];
      allocator := new IdentAllocator();
      new;
      assert Upto(0) == {};
      assert allocator.View().Outstanding() == {};
    }

    /** Never refuses: the id is new, so the branch for a repeated id is not taken. */
    method CreateTimer(delay: int, rate: int) returns (id: int)
      requires Valid()
      modifies this, allocator
      ensures Valid() && id > 0 && id !in old(timers) && timers == old(timers)[id := Timer(delay, rate, true, false)]
      ensures allocator.usage == |timers| == |old(timers)| + 1
    {
      ghost var before := allocator.View();
      id := allocator.Allocate();
      AllocationIsNew(before, id, allocator.View());
      if id in timers {
        assert false;
      }
      timers := timers[id := Timer(-1, -1, true, false)];
      timers := timers[id := timers[id].(delay := delay, rate := rate)];
      assert timers.Keys == old(timers.Keys) + {id};
    }

    function FindTimer(id: int): Option<int>
      reads this
    {
      if id in timers then Some(id) else None
    }

    method CancelTimer(id: int)
      requires Valid()
      modifies this
      ensures Valid()
      ensures timers == if id in old(timers)
                then old(timers)[id := old(timers)[id].(cancelled := true)] else old(timers)
    {
      OutstandingIsPositive(allocator.View());
      if FindTimer(id).Some? && id > 0 {
        timers := timers[id := timers[id].(cancelled := true)];
        assert timers.Keys == old(timers.Keys);
      }
    }

    /** Cancels and disowns every timer; none leaves the map. */
    method CancelAll()
      requires Valid()
      modifies this
      ensures Valid() && timers.Keys == old(timers.Keys)
      ensures forall id | id in timers :: timers[id] == old(timers)[id].(managed := false, cancelled := true)
    {
      var ahead := timers.Keys;
      while ahead != {}
        invariant timers.Keys == old(timers.Keys) && ahead <= timers.Keys
        invariant forall id | id in timers ::
                    timers[id] == if id in ahead
                      then old(timers)[id] else old(timers)[id].(managed := false, cancelled := true)
        decreases |ahead|
      {
        var id := Pick(ahead);
        ahead := ahead - {id};
        timers := timers[id := timers[id].(managed := false)];
        timers := timers[id := timers[id].(cancelled := true)];
      }
    }

    method RemoveTimer(id: int)
      requires Valid()
      modifies this, allocator
      ensures Valid() && timers == old(timers) - {id}
      ensures id !in old(timers) ==> allocator.View() == old(allocator.View())
    {
      if id in timers {
        RecycleKeepsIff(allocator.View(), id);
        timers := timers - {id};
        allocator.Recycle(id);
        assert timers.Keys == old(timers.Keys) - {id};
      }
    }

    /** The coroutine of a timer ends: a disowned timer keeps its entry and its id for good. */
    method Finish(id: int)
      requires Valid() && id in timers
      modifies this, allocator
      ensures Valid() && timers == if old(timers)[id].managed then old(timers) - {id} else old(timers)
    {
      if timers[id].managed {
        RemoveTimer(id);
      }
    }
  }

  lemma OutstandingIsPositive(a: Ids)
    requires a.Ok()
    ensures forall id | id in a.Outstanding() :: id > 0
  {
  }
}
