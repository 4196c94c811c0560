/** WorkQueue of the storage server (storageserver/WorkQueue.cpp): three
    FIFO queues of work items, one per priority, served highest priority
    first. The lock, the worker pool and the work and empty events are not
    modelled; the items are values of a type parameter. */
module WorkQueues {
  import opened Wrappers
  import opened Exceptions

  /** Priority::Low = 0, Normal = 1, High = Max = 2. */
  const Low: nat := 0
  const Normal: nat := 1
  const High: nat := 2
  const MaxPriority: nat := High

  /** getLength accumulates in a uint32_t. */
  const Uint32Modulus: nat := 0x1_0000_0000

  /** The highest level at or below p whose queue is not empty, or -1 when
      all of them are empty. */
  function Highest<T>(levels: seq<seq<T>>, p: int): (r: int)
    requires -1 <= p < |levels|
    ensures -1 <= r <= p
    ensures r >= 0 ==> levels[r] != [] && forall q :: r < q <= p ==> levels[q] == []
    ensures r < 0 ==> forall q :: 0 <= q <= p ==> levels[q] == []
    decreases p + 1
  {
    if p < 0 then -1
    else if levels[p] != [] then p
    else Highest(levels, p - 1)
  }

  /** The number of items on the levels from p upwards. */
  function SizeFrom<T>(levels: seq<seq<T>>, p: nat): nat
    requires p <= |levels|
    decreases |levels| - p
  {
    if p == |levels| then 0 else |levels[p]| + SizeFrom(levels, p + 1)
  }

  /** The number of items on all levels. */
  function Size<T>(levels: seq<seq<T>>): nat
  {
    SizeFrom(levels, 0)
  }

  /** dequeueWork on queue levels: the front of the highest non-empty
      level and the levels without it, or None when all are empty. */
  function Dequeued<T>(levels: seq<seq<T>>): (r: Option<(T, seq<seq<T>>)>)
    requires |levels| == MaxPriority + 1
  {
    var h := Highest(levels, MaxPriority);
    if h < 0 then None else Some((levels[h][0], levels[h := levels[h][1..]]))
  }

  /** enqueueWork on queue levels: the item joins the back of its level. */
  function Enqueued<T>(levels: seq<seq<T>>, priority: nat, item: T): (r: seq<seq<T>>)
    requires priority < |levels|
    ensures |r| == |levels| && r[priority] == levels[priority] + [item]
    ensures forall p :: 0 <= p < |levels| && p != priority ==> r[p] == levels[p]
  {
    levels[priority := levels[priority] + [item]]
  }

  /** Replacing one level changes the size by the difference of the two. */
  lemma {:induction false} SizeFromUpdate<T>(levels: seq<seq<T>>, p: nat, k: nat, q: seq<T>)
    requires p <= |levels| && k < |levels|
    ensures SizeFrom(levels[k := q], p) ==
            SizeFrom(levels, p) + (if p <= k then |q| - |levels[k]| else 0)
    decreases |levels| - p
  {
    if p < |levels| {
      SizeFromUpdate(levels, p + 1, k, q);
    }
  }

  /** No item on any level from p upwards exactly when the size is 0. */
  lemma {:induction false} SizeFromZero<T>(levels: seq<seq<T>>, p: nat)
    requires p <= |levels|
    ensures SizeFrom(levels, p) == 0 <==> forall q :: p <= q < |levels| ==> levels[q] == []
    decreases |levels| - p
  {
    if p < |levels| {
      SizeFromZero(levels, p + 1);
    }
  }

  /** getLength grows by one with each enqueueWork. */
  lemma EnqueueGrows<T>(levels: seq<seq<T>>, priority: nat, item: T)
    requires priority < |levels|
    ensures Size(Enqueued(levels, priority, item)) == Size(levels) + 1
  {
    SizeFromUpdate(levels, 0, priority, levels[priority] + [item]);
  }

  /** dequeueWork returns null exactly when every level is empty, and
      otherwise getLength shrinks by one. */
  lemma DequeueShrinks<T>(levels: seq<seq<T>>)
    requires |levels| == MaxPriority + 1
    ensures Dequeued(levels).None? <==> Size(levels) == 0
    ensures Dequeued(levels).Some? ==> Size(Dequeued(levels).value.1) == Size(levels) - 1
  {
    SizeFromZero(levels, 0);
    var h := Highest(levels, MaxPriority);
    if h >= 0 {
      SizeFromUpdate(levels, 0, h, levels[h][1..]);
    }
  }

  /** Priority and FIFO order: after enqueueWork, dequeueWork returns the
      new item if its level is above every non-empty level, and otherwise
      the same item it would have returned before. */
  lemma EnqueueThenDequeue<T>(levels: seq<seq<T>>, priority: nat, item: T)
    requires |levels| == MaxPriority + 1 && priority <= MaxPriority
    ensures var before := Dequeued(levels);
            var after := Dequeued(Enqueued(levels, priority, item));
            after.Some? &&
            (priority > Highest(levels, MaxPriority) ==> after.value.0 == item) &&
            (priority <= Highest(levels, MaxPriority) ==> before.Some? && after.value.0 == before.value.0)
  {
    var h := Highest(levels, MaxPriority);
    var h' := Highest(Enqueued(levels, priority, item), MaxPriority);
    assert h' == if priority > h then priority else h;
  }

  class WorkQueue<T> {
    /** _queue[p] for p = Low, Normal, High: the front is at index 0. */
    var levels: seq<seq<T>>
    var blocked: bool

    ghost predicate Valid()
      reads this
    {
      |levels| == MaxPriority + 1
    }

    /** A new queue: every level empty, not blocked. */
    constructor ()
      ensures Valid() && levels == [[], [], []] && !blocked
    {
      levels := [[], [], []];
      blocked := false;
    }

    /** enqueueWork: throws when the queue is blocked or the priority is
        above Max; otherwise the item joins the back of its level. */
    method EnqueueWork(item: T, priority: nat) returns (r: Result<(), Exception>)
      requires Valid()
      modifies this
      ensures Valid() && blocked == old(blocked)
      ensures old(blocked) ==> r == Err(InvalidOperation) && levels == old(levels)
      ensures !old(blocked) && priority > MaxPriority ==> r == Err(ArgumentOutOfBounds) && levels == old(levels)
      ensures !old(blocked) && priority <= MaxPriority ==> r == Ok(()) && levels == Enqueued(old(levels), priority, item)
    {
      if blocked {
        return Err(InvalidOperation);
      }
      if priority > MaxPriority {
        return Err(ArgumentOutOfBounds);
      }
      levels := levels[priority := levels[priority] + [item]];
      r := Ok(());
    }

    /** dequeueWork: scans from Max down to Low and pops the front of the
        first non-empty level; null when all are empty. */
    method DequeueWork() returns (r: Option<T>)
      requires Valid()
      modifies this
      ensures Valid() && blocked == old(blocked)
      ensures Dequeued(old(levels)).None? ==> r == None && levels == old(levels)
      ensures Dequeued(old(levels)).Some? ==>
                r == Some(Dequeued(old(levels)).value.0) && levels == Dequeued(old(levels)).value.1
    {
      var p: int := MaxPriority;
      while p >= 0
        invariant -1 <= p <= MaxPriority && levels == old(levels)
        invariant Highest(levels, MaxPriority) == Highest(levels, p)
      {
        if levels[p] != [] {
          r := Some(levels[p][0]);
          levels := levels[p := levels[p][1..]];
          return;
        }
        p := p - 1;
      }
      r := None;
    }

    /** clear: every level becomes empty. */
    method Clear()
      requires Valid()
      modifies this
      ensures Valid() && levels == [[], [], []] && blocked == old(blocked)
    {
      levels := [[], [], []];
    }

    /** block: later enqueueWork calls throw. */
    method Block()
      requires Valid()
      modifies this
      ensures Valid() && blocked && levels == old(levels)
    {
      blocked := true;
    }

    /** isEmpty: no level holds an item. */
    method IsEmpty() returns (r: bool)
      requires Valid()
      ensures r <==> forall p :: 0 <= p <= MaxPriority ==> levels[p] == []
      ensures r <==> Size(levels) == 0
    {
      SizeFromZero(levels, 0);
      var p: int := MaxPriority;
      while p >= 0
        invariant -1 <= p <= MaxPriority
        invariant forall q :: p < q <= MaxPriority ==> levels[q] == []
      {
        if levels[p] != [] {
          return false;
        }
        p := p - 1;
      }
      return true;
    }

    /** getLength: the sizes of the three levels summed in a uint32_t. */
    method GetLength() returns (n: nat)
      requires Valid()
      ensures n == Size(levels) % Uint32Modulus
      ensures Size(levels) < Uint32Modulus ==> n == Size(levels)
    {
      n := 0;
      var p: int := MaxPriority;
      while p >= 0
        invariant -1 <= p <= MaxPriority
        invariant n == SizeFrom(levels, p + 1) % Uint32Modulus
      {
        n := (n + |levels[p]| % Uint32Modulus) % Uint32Modulus;
        p := p - 1;
      }
    }
  }
}
