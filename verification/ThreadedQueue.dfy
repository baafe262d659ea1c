// The queue shared by threads (src/threaded_queue.hh), under its mutex: two
// classes of elements, each first in first out, and a count read without the
// mutex.
module Queues {
  import opened Index

  class ThreadedQueue<T> {
    var priority: seq<T>
    var queue: seq<T>
    var totalCount: int
    ghost var pushedPriority: seq<T>   // all elements pushed, by class
    ghost var pushedQueue: seq<T>
    ghost var poppedPriority: seq<T>   // all elements taken, by class
    ghost var poppedQueue: seq<T>

    // Nothing is lost, duplicated or reordered within a class.
    ghost predicate Valid()
      reads this
    {
      && pushedPriority == poppedPriority + priority
      && pushedQueue == poppedQueue + queue
      && totalCount == |priority| + |queue|
    }

    constructor ()
      ensures Valid() && priority == [] && queue == [] && pushedPriority == [] && pushedQueue == []
    {
      priority, queue, totalCount := [], [], 0;
      pushedPriority, pushedQueue, poppedPriority, poppedQueue := [], [], [], [];
    }

    predicate IsEmpty()
      reads this
    {
      totalCount == 0
    }

    lemma EmptyIsEmpty()
      requires Valid()
      ensures IsEmpty() <==> priority == [] && queue == []
    {
    }

    method PushBack(t: T, urgent: bool)
      requires Valid()
      modifies this
      ensures Valid() && poppedPriority == old(poppedPriority) && poppedQueue == old(poppedQueue)
      ensures pushedPriority == if urgent then old(pushedPriority) + [t] else old(pushedPriority)
      ensures pushedQueue == if urgent then old(pushedQueue) else old(pushedQueue) + [t]
    {
      if urgent {
        priority, pushedPriority := priority + [t], pushedPriority + [t];
        assert pushedPriority == poppedPriority + priority;
      } else {
        queue, pushedQueue := queue + [t], pushedQueue + [t];
        assert pushedQueue == poppedQueue + queue;
      }
      totalCount := totalCount + 1;
    }

    // Urgent elements first.
    method TryPopFront() returns (r: Option<T>)
      requires Valid()
      modifies this
      ensures Valid() && pushedPriority == old(pushedPriority) && pushedQueue == old(pushedQueue)
      ensures r.None? <==> old(priority) == [] && old(queue) == []
      ensures r.None? ==> poppedPriority == old(poppedPriority) && poppedQueue == old(poppedQueue)
      ensures r.Some? && old(priority) != [] ==> poppedPriority == old(poppedPriority) + [r.value] && poppedQueue == old(poppedQueue)
      ensures r.Some? && old(priority) == [] ==> poppedPriority == old(poppedPriority) && poppedQueue == old(poppedQueue) + [r.value]
    {
      if priority != [] {
        r := Some(priority[0]);
        assert priority == [priority[0]] + priority[1..];
        poppedPriority, priority := poppedPriority + [priority[0]], priority[1..];
        totalCount := totalCount - 1;
      } else if queue != [] {
        r := Some(queue[0]);
        assert queue == [queue[0]] + queue[1..];
        poppedQueue, queue := poppedQueue + [queue[0]], queue[1..];
        totalCount := totalCount - 1;
      } else {
        r := None;
      }
    }

    // Everything at once, urgent elements first.
    method DequeueAll() returns (result: seq<T>)
      requires Valid()
      modifies this
      ensures Valid() && IsEmpty() && pushedPriority == old(pushedPriority) && pushedQueue == old(pushedQueue)
      ensures poppedPriority == pushedPriority && poppedQueue == pushedQueue
      ensures exists a, b :: result == a + b && poppedPriority == old(poppedPriority) + a && poppedQueue == old(poppedQueue) + b
    {
      totalCount := 0;
      result := [];
      ghost var a, b := priority, queue;
      while priority != []
        invariant result + priority == a && queue == b
        invariant totalCount == 0 && pushedPriority == old(pushedPriority) && pushedQueue == old(pushedQueue)
        invariant poppedPriority == old(poppedPriority) && poppedQueue == old(poppedQueue)
        decreases |priority|
      {
        assert priority == [priority[0]] + priority[1..];
        result := result + [priority[0]];
        priority := priority[1..];
      }
      while queue != []
        invariant result + queue == a + b && priority == []
        invariant totalCount == 0 && pushedPriority == old(pushedPriority) && pushedQueue == old(pushedQueue)
        invariant poppedPriority == old(poppedPriority) && poppedQueue == old(poppedQueue)
        decreases |queue|
      {
        assert queue == [queue[0]] + queue[1..];
        result := result + [queue[0]];
        queue := queue[1..];
      }
      assert result == a + b;
      poppedPriority, poppedQueue := pushedPriority, pushedQueue;
    }
  }
}
