/** IdAllocator of include/simubase/IdAllocator.h: hands out consecutive ids
    of an unsigned integer type whose largest value is MaxValue. */
module IdAllocation {
  import opened Wrappers
  import opened Exceptions

  class IdAllocator {
    /** std::numeric_limits<T>::max() of the id type. */
    const maxValue: nat
    var nextId: nat

    ghost predicate Valid() reads this { nextId <= maxValue }

    /** A fresh allocator hands out 0 first. */
    constructor (maxValue: nat)
      ensures Valid() && this.maxValue == maxValue && nextId == 0
    {
      this.maxValue := maxValue;
      nextId := 0;
    }

    /** getNextId: the next id, which is one more than the previous one;
        throws when the counter reached the largest value of the type. */
    method GetNextId() returns (r: Result<nat, Exception>)
      requires Valid()
      modifies this
      ensures Valid()
      ensures old(nextId) == maxValue ==> r == Err(InvalidOperation) && nextId == old(nextId)
      ensures old(nextId) < maxValue ==> r == Ok(old(nextId)) && nextId == old(nextId) + 1
    {
      if nextId == maxValue {
        return Err(InvalidOperation);
      }
      r := Ok(nextId);
      nextId := nextId + 1;
    }

    /** stealId: the id after the stolen one is handed out next (++id wraps
        around at the largest value of the unsigned type). */
    method StealId(id: nat)
      requires Valid() && id <= maxValue
      modifies this
      ensures Valid()
      ensures nextId == if id == maxValue then 0 else id + 1
    {
      nextId := if id == maxValue then 0 else id + 1;
    }

    /** retireId does nothing. */
    method RetireId(id: nat)
      requires Valid()
      ensures nextId == old(nextId)
    {
    }
  }
}
