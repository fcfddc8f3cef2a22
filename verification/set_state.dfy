/** The value behind `BoundedSet` (integrated_final/ip_utils.py): a set that
    stops growing at `maxsize` items and from then on only counts the new
    items it turns away. */
module SetStates {
  import opened Bounds

  /** The stored items and `_overflow_count`. */
  datatype SetState<T> = SetState(items: set<T>, overflow: nat)

  const Empty: SetState<string> := SetState({}, 0)

  /** `add(item)` on the value: a stored item changes nothing; a new item
      is stored exactly when there is room, and otherwise counted as overflow;
      either way `total_seen` grows by one; a set within capacity stays so. */
  function Add<T>(s: SetState<T>, item: T, maxsize: int): (r: SetState<T>)
    ensures item in s.items ==> r == s
    ensures item !in s.items ==> (item in r.items <==> |s.items| < maxsize)
    ensures item !in s.items && |s.items| >= maxsize ==> r == SetState(s.items, s.overflow + 1)
    ensures r.items - {item} == s.items - {item}
    ensures TotalSeen(r) == TotalSeen(s) + (if item in s.items then 0 else 1)
    ensures |s.items| <= Capacity(maxsize) ==> |r.items| <= Capacity(maxsize)
  {
    if item in s.items then s
    else if |s.items| < maxsize then SetState(s.items + {item}, s.overflow)
    else SetState(s.items, s.overflow + 1)
  }

  /** `total_seen` */
  function TotalSeen<T>(s: SetState<T>): nat {
    |s.items| + s.overflow
  }

  /** Adding the items of `xs` one after another. */
  function AddAll<T>(s: SetState<T>, xs: seq<T>, maxsize: int): SetState<T>
    decreases |xs|
  {
    if xs == [] then s else Add(AddAll(s, xs[..|xs| - 1], maxsize), xs[|xs| - 1], maxsize)
  }

  function Elements<T>(xs: seq<T>): set<T> {
    set x | x in xs
  }

  /** Starting empty, the set stores only items it was given, `total_seen`
      is never below the number of distinct items given, and it is exactly
      that number, with every one of them stored, while nothing overflowed. */
  lemma {:induction false} TotalSeenCountsDistinct<T>(xs: seq<T>, maxsize: int)
    ensures var r := AddAll(SetState({}, 0), xs, maxsize);
      && r.items <= Elements(xs)
      && |Elements(xs)| <= TotalSeen(r)
      && (r.overflow == 0 ==> r.items == Elements(xs) && TotalSeen(r) == |Elements(xs)|)
    decreases |xs|
  {
    if xs == [] {
      assert Elements(xs) == {};
    } else {
      var p, x := xs[..|xs| - 1], xs[|xs| - 1];
      TotalSeenCountsDistinct(p, maxsize);
      assert xs == p + [x];
      assert Elements(xs) == Elements(p) + {x};
      AddCountsDistinct(AddAll(SetState({}, 0), p, maxsize), x, Elements(p), maxsize);
    }
  }

  /** One more item keeps what `TotalSeenCountsDistinct` says of the items
      `given` so far. */
  lemma AddCountsDistinct<T>(s: SetState<T>, x: T, given: set<T>, maxsize: int)
    requires s.items <= given && |given| <= TotalSeen(s)
    requires s.overflow == 0 ==> s.items == given
    ensures var r := Add(s, x, maxsize);
      && r.items <= given + {x}
      && |given + {x}| <= TotalSeen(r)
      && (r.overflow == 0 ==> r.items == given + {x})
  {
    if x !in given {
      assert |given + {x}| == |given| + 1;
    } else {
      assert given + {x} == given;
    }
  }

  /** An item turned away is counted again each time it comes back: with no
      room at all, adding the same address twice makes `total_seen` 2,
      although the docstring calls it the number of unique items seen. */
  lemma RepeatedOverflowCountsTwice(item: string)
    ensures TotalSeen(AddAll(Empty, [item, item], 0)) == 2
    ensures |Elements([item, item])| == 1
  {
    assert [item, item][..1] == [item];
    assert [item][..0] == [];
    assert AddAll(Empty, [item], 0) == SetState({}, 1);
    assert Elements([item, item]) == {item};
  }
}
