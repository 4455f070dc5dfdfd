/** The table as the shim keeps it: one fixed array, searched and updated in place under the mutex. */
module QueueCounters {
  import opened QueueTable

  class QueueCounters {
    const slots: array<Slot>

    ghost predicate Valid()
      reads this
    {
      slots.Length == MAX_TRACKED_QUEUES
    }

    ghost function Contents(): (s: Table)
      requires Valid()
      reads this, slots
    {
      slots[..]
    }

    constructor ()
      ensures Valid() && fresh(slots) && Contents() == Cleared()
    {
      slots := new Slot[MAX_TRACKED_QUEUES](_ => Slot(NO_QUEUE, 0));
    }

    /** Finds or claims the queue's slot, counts the dispatch and returns the slot's new count. */
    method CountDispatch(queue: Queue) returns (dispatches: nat)
      requires Valid()
      modifies slots
      ensures Contents() == Tick(old(Contents()), queue)
      ensures dispatches == CountAfter(old(Contents()), queue)
    {
      var empty, selected := slots.Length, slots.Length;
      var i := 0;
      while i < slots.Length
        invariant 0 <= i <= slots.Length
        invariant selected == slots.Length
        invariant forall j | 0 <= j < i :: slots[j].queue != queue
        invariant empty == slots.Length ==> forall j | 0 <= j < i :: slots[j].queue != NO_QUEUE
        invariant empty != slots.Length ==>
                    0 <= empty < i && slots[empty].queue == NO_QUEUE
                    && forall j | 0 <= j < empty :: slots[j].queue != NO_QUEUE
      {
        if slots[i].queue == queue {
          selected := i;
          break;
        }
        if empty == slots.Length && slots[i].queue == NO_QUEUE {
          empty := i;
        }
        i := i + 1;
      }
      ghost var before := Contents();
      assert selected == Find(before, queue);
      if selected == slots.Length {
        assert empty == Find(before, NO_QUEUE);
        selected := if empty != slots.Length then empty else 0;
        slots[selected] := Slot(queue, 0);
      }
      dispatches := slots[selected].dispatches + 1;
      slots[selected] := Slot(queue, dispatches);
      assert selected == Selected(before, queue);
    }

    /** The loop of a reset. */
    method Clear()
      requires Valid()
      modifies slots
      ensures Contents() == Cleared()
    {
      for i := 0 to slots.Length
        invariant forall j | 0 <= j < i :: slots[j] == Slot(NO_QUEUE, 0)
      {
        slots[i] := Slot(NO_QUEUE, 0);
      }
    }
  }
}
