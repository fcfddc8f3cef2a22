/** `BoundedSet` (integrated_final/ip_utils.py), updated in place; each
    method is proved to move its `SetStates.SetState` as the functions there
    say. */
module BoundedSets {
  import opened Bounds
  import opened SetStates

  class BoundedSet<T(==)> {
    /** `_data` */
    var items: set<T>
    /** `_overflow_count` */
    var overflow: nat
    /** `_maxsize` */
    const maxsize: int

    function State(): SetState<T>
      reads this
    {
      SetState(items, overflow)
    }

    ghost predicate Valid()
      reads this
    {
      |items| <= Capacity(maxsize)
    }

    /** `BoundedSet(maxsize)`: empty, nothing turned away. */
    constructor (maxsize: int)
      ensures Valid() && this.maxsize == maxsize
      ensures items == {} && overflow == 0
    {
      this.maxsize := maxsize;
      items := {};
      overflow := 0;
    }

    /** `add(item)` */
    method Add(item: T)
      requires Valid()
      modifies this
      ensures Valid()
      ensures State() == SetStates.Add(old(State()), item, maxsize)
    {
      if item in items {
        return;
      }
      if |items| < maxsize {
        items := items + {item};
      } else {
        overflow := overflow + 1;
      }
    }

    /** `len(s)`: the items stored, not those turned away. */
    function Len(): (n: nat)
      reads this
      requires Valid()
      ensures n == |State().items| && n <= Capacity(maxsize)
    {
      |items|
    }

    /** `total_seen` */
    function TotalSeen(): (n: nat)
      reads this
      ensures n == SetStates.TotalSeen(State()) >= |State().items|
    {
      |items| + overflow
    }

    /** `item in s`: only stored items are members. */
    function Contains(item: T): (b: bool)
      reads this
      ensures b <==> item in State().items
    {
      item in items
    }
  }
}
