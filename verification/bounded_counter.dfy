/** `BoundedCounter` (integrated_final/ip_utils.py): a dict of counts that is
    updated in place and, once it holds more than `maxsize` keys, deletes the
    least frequent tenth of them. Its value is a `Tallies.Tally`; the methods
    below are proved to move that value exactly as the functions of `Tallies`
    say, and the properties are proved there. */
module Counters {
  import opened Bounds
  import opened Tallies

  class BoundedCounter<K(==,!new)> {
    /** `_data`: its keys in insertion order, and the count of each. */
    var order: seq<K>
    var count: map<K, int>
    /** `_maxsize` */
    const maxsize: int

    /** `_data` as a value. */
    function Model(): Tally<K>
      reads this
    {
      Tally(order, count)
    }

    /** The dict is well formed and no larger than its capacity. */
    ghost predicate Valid()
      reads this
    {
      WellFormed(Model()) && |order| <= Capacity(maxsize)
    }

    /** `BoundedCounter(maxsize)`: an empty dict. */
    constructor (maxsize: int)
      ensures Valid() && this.maxsize == maxsize
      ensures order == [] && count == map[]
    {
      this.maxsize := maxsize;
      order := [];
      count := map[];
    }

    /** `increment(key)`: stores the old count plus one, evicts if over
        capacity and returns the stored count. */
    method Increment(key: K) returns (c: int)
      requires Valid()
      modifies this
      ensures Valid()
      ensures (Model(), c) == Tallies.Increment(old(Model()), key, maxsize)
    {
      c := Get(key, 0) + 1;
      if key !in count {
        order := order + [key];
      }
      count := count[key := c];
      assert Model() == Store(old(Model()), key, c);
      MaybeEvict();
      IncrementSpec(old(Model()), key, maxsize);
    }

    /** `counter[key] = value` */
    method SetItem(key: K, value: int)
      requires Valid()
      modifies this
      ensures Valid()
      ensures Model() == Tallies.SetItem(old(Model()), key, value, maxsize)
    {
      if key !in count {
        order := order + [key];
      }
      count := count[key := value];
      assert Model() == Store(old(Model()), key, value);
      MaybeEvict();
      StoreThenEvict(old(Model()), key, value, maxsize);
    }

    /** `_maybe_evict`: when over `maxsize`, delete the first
        `max(1, maxsize // 10)` keys of the stable ascending sort by count. */
    method MaybeEvict()
      requires WellFormed(Model())
      modifies this
      ensures WellFormed(Model())
      ensures Model() == Tallies.MaybeEvict(old(Model()), maxsize)
    {
      if |order| > maxsize {
        var e := Max(1, maxsize / 10);
        if e > |order| {
          e := |order|;
        }
        DeleteLeastN(e);
      }
    }

    /** `for k in sorted_keys[:e]: del self._data[k]`, which deletes the least
        frequent key `e` times over. */
    method DeleteLeastN(e: nat)
      requires WellFormed(Model()) && e <= |order|
      modifies this
      ensures WellFormed(Model())
      ensures Model() == EvictN(old(Model()), e)
    {
      var i := 0;
      while i < e
        invariant 0 <= i <= e && WellFormed(Model()) && |order| == |old(order)| - i
        invariant EvictN(Model(), e - i) == EvictN(old(Model()), e)
      {
        ghost var before := Model();
        DeleteLeast();
        assert EvictN(before, e - i) == EvictN(Model(), e - i - 1);
        i := i + 1;
      }
    }

    /** `del self._data[k]` for the key a stable ascending sort by count
        puts first. */
    method DeleteLeast()
      requires WellFormed(Model()) && |order| > 0
      modifies this
      ensures Model() == EvictLeast(old(Model()))
    {
      var m := LeastIndex();
      count := count - {order[m]};
      order := order[..m] + order[m + 1..];
      assert Model() == RemoveAt(old(Model()), m);
    }

    /** The position of the first key with the smallest count: the key a
        stable ascending sort by count puts first. */
    method LeastIndex() returns (m: nat)
      requires WellFormed(Model()) && |order| > 0
      ensures m < |order| && m == FirstMin(Counts(Model()))
      ensures forall j :: 0 <= j < |order| ==> count[order[m]] <= count[order[j]]
    {
      ghost var cs := Counts(Model());
      m := 0;
      var j := 1;
      while j < |order|
        invariant 1 <= j <= |order|
        invariant m == FirstMin(cs[..j])
      {
        assert cs[..j + 1][..j] == cs[..j];
        assert cs[..j + 1][j] == cs[j] == count[order[j]];
        assert cs[..j + 1][m] == cs[m] == count[order[m]];
        if count[order[j]] < count[order[m]] {
          m := j;
        }
        j := j + 1;
      }
      assert cs[..j] == cs;
    }

    /** `counter[key]`: the stored count, 0 for an absent key, which is not
        inserted. */
    function GetItem(key: K): (c: int)
      reads this
      ensures key in count ==> c == count[key]
      ensures key !in count ==> c == 0
    {
      Get(key, 0)
    }

    /** `get(key, default)` */
    function Get(key: K, default: int): (c: int)
      reads this
      ensures key in count ==> c == count[key]
      ensures key !in count ==> c == default
    {
      Tallies.Get(Model(), key, default)
    }

    /** `key in counter` */
    function Contains(key: K): (b: bool)
      reads this
      ensures b <==> key in Model().count
    {
      key in count
    }

    /** `len(counter)` */
    function Len(): (n: nat)
      reads this
      requires Valid()
      ensures n == |Model().count| && n <= Capacity(maxsize)
    {
      KeyCount(Model());
      |order|
    }

    /** `top(n)`: the entries with the largest counts, ties in insertion
        order, cut like `lst[:n]`. The dict Python builds from this list
        keeps its order, since no key appears twice. */
    function Top(n: int): (r: seq<(K, int)>)
      reads this
      requires Valid()
      ensures |r| == SliceLength(n, |order|)
      ensures forall i :: 0 <= i < |r| ==> r[i].0 in count && r[i].1 == count[r[i].0]
      ensures Distinct(Keys(r)) && SortedByCountDesc(r)
      ensures TiesInOrder(order, r) && NoneLargerLeftOut(Model(), r)
      ensures TiesLeftOutLater(Model(), r)
    {
      TopSpec(Model(), n);
      Tallies.Top(Model(), n)
    }
  }
}
