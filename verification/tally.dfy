/** The value behind `BoundedCounter` (integrated_final/ip_utils.py): a Python
    dict from keys to counts. A dict remembers the order in which its keys were
    first inserted, and Python's `sorted` is stable, so that order decides ties
    both when the least-frequent keys are evicted and when `top(n)` lists the
    most frequent ones; the model therefore keeps it. */
module Tallies {
  import opened Bounds

  /** The dict: its keys in insertion order and the count of each. */
  datatype Tally<K> = Tally(order: seq<K>, count: map<K, int>)

  predicate Distinct<T(==)>(s: seq<T>) {
    forall i, j :: 0 <= i < j < |s| ==> s[i] != s[j]
  }

  /** The order lists every key of the dict exactly once. */
  ghost predicate WellFormed<K(!new)>(t: Tally<K>) {
    && Distinct(t.order)
    && (forall k :: k in t.order ==> k in t.count)
    && (forall k {:trigger Listed(t, k)} :: k in t.count ==> Listed(t, k))
  }

  /** `k` has a place in the insertion order. Spelled as a predicate of its
      own so that the fact that every key of the dict has one is used only
      where a proof asks for it. */
  ghost predicate Listed<K>(t: Tally<K>, k: K) {
    k in t.order
  }

  /** `a` was inserted before `b`. */
  ghost predicate Before<T>(s: seq<T>, a: T, b: T) {
    exists i, j :: 0 <= i < j < |s| && s[i] == a && s[j] == b
  }

  /** Where a key of the dict sits in the insertion order. */
  lemma PlaceOf<K(!new)>(t: Tally<K>, k: K) returns (j: nat)
    requires WellFormed(t) && k in t.count
    ensures j < |t.order| && t.order[j] == k
  {
    assert Listed(t, k);
    j :| j < |t.order| && t.order[j] == k;
  }

  /** Every pair of keys in `r` comes in the order it has in `s`. */
  ghost predicate KeepsOrder<T(!new)>(r: seq<T>, s: seq<T>) {
    forall a, b :: Before(r, a, b) ==> Before(s, a, b)
  }

  /** Every key of `r` is a key of `t` with the same count. */
  ghost predicate Survivors<K(!new)>(r: Tally<K>, t: Tally<K>) {
    forall k :: k in r.count ==> k in t.count && r.count[k] == t.count[k]
  }

  /** `d.get(key, default)` */
  function Get<K(==,!new)>(t: Tally<K>, key: K, default: int): int {
    if key in t.count then t.count[key] else default
  }

  /** The counts in insertion order. */
  function Counts<K(==,!new)>(t: Tally<K>): (cs: seq<int>)
    requires WellFormed(t)
    ensures |cs| == |t.order|
    ensures forall i :: 0 <= i < |cs| ==> cs[i] == t.count[t.order[i]]
  {
    seq(|t.order|, i requires 0 <= i < |t.order| => t.count[t.order[i]])
  }

  /** The first position holding the smallest count. */
  function FirstMin(cs: seq<int>): (i: nat)
    requires |cs| > 0
    ensures i < |cs|
    ensures forall j :: 0 <= j < |cs| ==> cs[i] <= cs[j]
    ensures forall j :: 0 <= j < i ==> cs[j] > cs[i]
  {
    if |cs| == 1 then 0
    else
      var m := FirstMin(cs[..|cs| - 1]);
      if cs[|cs| - 1] < cs[m] then |cs| - 1 else m
  }

  /** `s` without its item at `i`. */
  function Without<T>(s: seq<T>, i: nat): (r: seq<T>)
    requires i < |s|
    ensures |r| == |s| - 1
    ensures forall j :: 0 <= j < |r| ==> r[j] == s[if j < i then j else j + 1]
  {
    s[..i] + s[i + 1..]
  }

  /** Taking an item out keeps the others in their order. */
  lemma WithoutKeepsOrder<T(!new)>(s: seq<T>, i: nat)
    requires i < |s|
    ensures KeepsOrder(Without(s, i), s)
  {
    var r := Without(s, i);
    forall a, b | Before(r, a, b) ensures Before(s, a, b) {
      var p, q :| 0 <= p < q < |r| && r[p] == a && r[q] == b;
      var p', q' := if p < i then p else p + 1, if q < i then q else q + 1;
      assert s[p'] == a && s[q'] == b;
    }
  }

  /** Every item left is one of `s`, and in a sequence without repeats
      the item taken out is not among them and the rest has no repeats. */
  lemma WithoutItems<T>(s: seq<T>, i: nat)
    requires i < |s|
    ensures forall x :: x in Without(s, i) ==> x in s
    ensures forall x :: x in s && x != s[i] ==> x in Without(s, i)
    ensures Distinct(s) ==> Distinct(Without(s, i)) && s[i] !in Without(s, i)
  {
    var r := Without(s, i);
    forall x | x in s && x != s[i] ensures x in r {
      var j :| 0 <= j < |s| && s[j] == x;
      assert r[if j < i then j else j - 1] == x;
    }
  }

  /** `del d[d.order[i]]`: the other keys keep their counts and their order. */
  function RemoveAt<K(==,!new)>(t: Tally<K>, i: nat): (r: Tally<K>)
    requires WellFormed(t) && i < |t.order|
    ensures WellFormed(r) && |r.order| == |t.order| - 1
    ensures r.count == t.count - {t.order[i]}
    ensures r.order == Without(t.order, i)
  {
    var r := Tally(Without(t.order, i), t.count - {t.order[i]});
    WithoutItems(t.order, i);
    forall k | k in r.count ensures Listed(r, k) {
      assert Listed(t, k);
    }
    r
  }

  /** A sequence without repeats has as many distinct elements as places. */
  lemma {:induction false} DistinctCardinality<T>(s: seq<T>)
    requires Distinct(s)
    ensures |set x | x in s| == |s|
  {
    if s != [] {
      var p := s[..|s| - 1];
      assert Distinct(p);
      DistinctCardinality(p);
      assert (set x | x in s) == (set x | x in p) + {s[|s| - 1]};
      assert s[|s| - 1] !in p;
    }
  }

  /** `len(d)`: the dict has as many keys as its insertion order. */
  lemma KeyCount<K(!new)>(t: Tally<K>)
    requires WellFormed(t)
    ensures |t.count| == |t.order|
  {
    forall k | k in t.count ensures k in t.order {
      assert Listed(t, k);
    }
    assert t.count.Keys == set k | k in t.order;
    DistinctCardinality(t.order);
  }

  /** `d[key] = value`: an existing key keeps its place, a new one goes last. */
  function Store<K(==,!new)>(t: Tally<K>, key: K, value: int): (r: Tally<K>)
    requires WellFormed(t)
    ensures WellFormed(r) && r.count == t.count[key := value]
    ensures |r.order| == |t.order| + (if key in t.count then 0 else 1)
  {
    var r := Tally(if key in t.count then t.order else t.order + [key], t.count[key := value]);
    forall k | k in r.count ensures Listed(r, k) {
      if k in t.count {
        assert Listed(t, k);
      }
    }
    r
  }

  /** Delete the key that a stable ascending sort by count would put first. */
  function EvictLeast<K(==,!new)>(t: Tally<K>): (r: Tally<K>)
    requires WellFormed(t) && |t.order| > 0
    ensures WellFormed(r) && |r.order| == |t.order| - 1
    ensures r.count == t.count - {t.order[FirstMin(Counts(t))]}
    ensures Survivors(r, t) && KeepsOrder(r.order, t.order)
  {
    WithoutKeepsOrder(t.order, FirstMin(Counts(t)));
    RemoveAt(t, FirstMin(Counts(t)))
  }

  /** Delete the first `n` keys of the stable ascending sort by count, one at a
      time; every other key keeps its count. */
  function EvictN<K(==,!new)>(t: Tally<K>, n: nat): (r: Tally<K>)
    requires WellFormed(t) && n <= |t.order|
    ensures WellFormed(r) && |r.order| == |t.order| - n
    ensures Survivors(r, t) && KeepsOrder(r.order, t.order)
    decreases n
  {
    if n == 0 then t else EvictN(EvictLeast(t), n - 1)
  }

  /** `x` comes before `y` in the stable ascending sort by count: its count
      is smaller, or equal and it was inserted earlier. */
  ghost predicate SortsBefore<K(!new)>(t: Tally<K>, x: K, y: K)
    requires x in t.count && y in t.count
  {
    t.count[x] < t.count[y] || (t.count[x] == t.count[y] && Before(t.order, x, y))
  }

  /** Every key of `t` missing from `r` comes before every key of `r` in the
      stable ascending sort by count. */
  ghost predicate EvictedFirst<K(!new)>(t: Tally<K>, r: Tally<K>) {
    forall x, y {:trigger SortsBefore(t, x, y), r.count[y]} ::
      x in t.count && x !in r.count && y in t.count && y in r.count ==> SortsBefore(t, x, y)
  }

  /** The key `EvictLeast` removes comes before every key it keeps. */
  lemma LeastComesFirst<K(!new)>(t: Tally<K>)
    requires WellFormed(t) && |t.order| > 0
    ensures EvictedFirst(t, EvictLeast(t))
  {
    var cs := Counts(t);
    var m := FirstMin(cs);
    forall x, y | x in t.count && x !in EvictLeast(t).count && y in t.count && y in EvictLeast(t).count
      ensures SortsBefore(t, x, y)
    {
      var j := PlaceOf(t, y);
      assert x == t.order[m] && j != m;
      if cs[m] == cs[j] {
        assert !(j < m);
      }
    }
  }

  /** The keys `EvictN` removes come before every key it keeps. */
  lemma {:induction false} EvictedComeFirst<K(!new)>(t: Tally<K>, n: nat)
    requires WellFormed(t) && n <= |t.order|
    ensures EvictedFirst(t, EvictN(t, n))
    decreases n
  {
    if n > 0 {
      var u := EvictLeast(t);
      var r := EvictN(u, n - 1);
      assert EvictN(t, n) == r;
      LeastComesFirst(t);
      EvictedComeFirst(u, n - 1);
      EvictedFirstTransitive(t, u, r);
    }
  }

  /** Two rounds of eviction, each taking keys that come first, take keys
      that come first. */
  lemma EvictedFirstTransitive<K(!new)>(t: Tally<K>, u: Tally<K>, r: Tally<K>)
    requires EvictedFirst(t, u) && EvictedFirst(u, r)
    requires Survivors(u, t) && Survivors(r, u) && KeepsOrder(u.order, t.order)
    ensures EvictedFirst(t, r)
  {
    forall x, y | x in t.count && x !in r.count && y in t.count && y in r.count
      ensures SortsBefore(t, x, y)
    {
      assert y in u.count && r.count[y] == u.count[y];
      if x in u.count {
        assert SortsBefore(u, x, y);
      } else {
        assert u.count[y] == t.count[y];
        assert SortsBefore(t, x, y);
      }
    }
  }

  /** `max(1, maxsize // 10)` keys are to go, but `sorted_keys[:k]` has at most
      as many keys as the dict. Dafny's `/` floors like Python's `//` for a
      positive divisor. */
  function EvictCount(maxsize: int, size: nat): (e: nat)
    ensures e <= size
  {
    Min(Max(1, maxsize / 10), size)
  }

  /** `_maybe_evict` */
  function MaybeEvict<K(==,!new)>(t: Tally<K>, maxsize: int): (r: Tally<K>)
    requires WellFormed(t)
    ensures WellFormed(r)
  {
    if |t.order| > maxsize then EvictN(t, EvictCount(maxsize, |t.order|)) else t
  }

  /** What `_maybe_evict` promises: nothing happens unless the dict is over
      `maxsize`; otherwise exactly `max(1, maxsize // 10)` keys go (all of them
      if there are fewer), each before every kept key in the stable ascending
      sort by count, and the kept keys keep their counts and their order. A
      dict at most one key over capacity ends within capacity. */
  lemma MaybeEvictSpec<K(!new)>(t: Tally<K>, maxsize: int)
    requires WellFormed(t)
    ensures var r := MaybeEvict(t, maxsize);
      && (|t.order| <= maxsize ==> r == t)
      && (|t.order| > maxsize ==> |t.order| - |r.order| == Min(Max(1, maxsize / 10), |t.order|))
      && Survivors(r, t)
      && EvictedFirst(t, r)
      && KeepsOrder(r.order, t.order)
      && (|t.order| <= Capacity(maxsize) + 1 ==> |r.order| <= Capacity(maxsize))
  {
    if |t.order| > maxsize {
      EvictedComeFirst(t, EvictCount(maxsize, |t.order|));
    }
  }

  /** `increment(key)`: store the old count (0 when absent) plus one, evict if
      over capacity, and return the stored count. */
  function Increment<K(==,!new)>(t: Tally<K>, key: K, maxsize: int): (r: (Tally<K>, int))
    requires WellFormed(t)
    ensures WellFormed(r.0)
  {
    var c := Get(t, key, 0) + 1;
    (MaybeEvict(Store(t, key, c), maxsize), c)
  }

  /** `counter[key] = value` */
  function SetItem<K(==,!new)>(t: Tally<K>, key: K, value: int, maxsize: int): (r: Tally<K>)
    requires WellFormed(t)
    ensures WellFormed(r)
  {
    MaybeEvict(Store(t, key, value), maxsize)
  }

  /** What `increment` and `__setitem__` promise: the key holds its new value
      unless the eviction that follows removed it, every other key that is left
      keeps its count, and a counter within capacity stays within capacity. */
  lemma StoreThenEvict<K(!new)>(t: Tally<K>, key: K, value: int, maxsize: int)
    requires WellFormed(t)
    ensures var r := SetItem(t, key, value, maxsize);
      && (key in r.count ==> r.count[key] == value)
      && (forall k :: k in r.count && k != key ==> k in t.count && r.count[k] == t.count[k])
      && (|t.order| <= Capacity(maxsize) ==> |r.order| <= Capacity(maxsize))
      && (|t.order| < maxsize || (key in t.count && |t.order| <= maxsize) ==>
            r.count == t.count[key := value])
  {
    MaybeEvictSpec(Store(t, key, value), maxsize);
  }

  /** `increment(key)` returns the old count plus one, and that is what the key
      holds afterwards unless it was evicted straight away. */
  lemma IncrementSpec<K(!new)>(t: Tally<K>, key: K, maxsize: int)
    requires WellFormed(t)
    ensures var (r, c) := Increment(t, key, maxsize);
      && c == (if key in t.count then t.count[key] else 0) + 1
      && (key in r.count ==> r.count[key] == c)
      && (forall k :: k in r.count && k != key ==> k in t.count && r.count[k] == t.count[k])
      && (|t.order| <= Capacity(maxsize) ==> |r.order| <= Capacity(maxsize))
  {
    StoreThenEvict(t, key, Get(t, key, 0) + 1, maxsize);
  }

  /** `d.items()`: the keys in insertion order, each with its count. */
  function Items<K(==,!new)>(t: Tally<K>): (r: seq<(K, int)>)
    requires WellFormed(t)
    ensures Keys(r) == t.order
    ensures forall i :: 0 <= i < |r| ==> r[i] == (t.order[i], t.count[t.order[i]])
  {
    seq(|t.order|, i requires 0 <= i < |t.order| => (t.order[i], t.count[t.order[i]]))
  }

  /** The first position holding the largest count. */
  function MaxAt<K>(xs: seq<(K, int)>): (i: nat)
    requires |xs| > 0
    ensures i < |xs|
  {
    if |xs| == 1 then 0
    else
      var m := MaxAt(xs[..|xs| - 1]);
      if xs[|xs| - 1].1 > xs[m].1 then |xs| - 1 else m
  }

  /** `MaxAt` picks an item whose count no item exceeds, and every item
      before it counts less. */
  lemma {:induction false} MaxAtSpec<K>(xs: seq<(K, int)>)
    requires |xs| > 0
    ensures forall x :: x in xs ==> x.1 <= xs[MaxAt(xs)].1
    ensures forall j :: 0 <= j < MaxAt(xs) ==> xs[j].1 < xs[MaxAt(xs)].1
  {
    if |xs| > 1 {
      var p := xs[..|xs| - 1];
      MaxAtSpec(p);
      assert xs == p + [xs[|xs| - 1]];
    }
  }

  /** `sorted(items, key=count, reverse=True)[:n]` for `n >= 0`: repeatedly
      the first item with the largest count. */
  function TopItems<K>(xs: seq<(K, int)>, n: nat): (r: seq<(K, int)>)
    ensures |r| == Min(n, |xs|)
    ensures forall x :: x in r ==> x in xs
    decreases |xs|
  {
    if n == 0 || |xs| == 0 then []
    else
      var m := MaxAt(xs);
      WithoutItems(xs, m);
      [xs[m]] + TopItems(Without(xs, m), n - 1)
  }

  /** How many items `lst[:n]` keeps of a list of `size`, a negative `n`
      counting from the end. */
  function SliceLength(n: int, size: nat): (m: nat)
    ensures m <= size
  {
    if n >= 0 then Min(n, size) else Max(0, size + n)
  }

  /** `top(n)` */
  function Top<K(==,!new)>(t: Tally<K>, n: int): seq<(K, int)>
    requires WellFormed(t)
  {
    TopItems(Items(t), SliceLength(n, |t.order|))
  }

  ghost predicate SortedByCountDesc<K>(r: seq<(K, int)>) {
    forall i, j :: 0 <= i < j < |r| ==> r[i].1 >= r[j].1
  }

  function Keys<K>(r: seq<(K, int)>): seq<K> {
    seq(|r|, i requires 0 <= i < |r| => r[i].0)
  }

  /** Entries with equal counts come in the order `order` gives their keys. */
  ghost predicate TiesInOrder<K>(order: seq<K>, r: seq<(K, int)>) {
    forall i, j :: 0 <= i < j < |r| && r[i].1 == r[j].1 ==> Before(order, r[i].0, r[j].0)
  }

  /** No item of `xs` whose key `r` leaves out counts more than an entry of
      `r`. */
  ghost predicate NoneLargerOmitted<K>(xs: seq<(K, int)>, r: seq<(K, int)>) {
    forall x, i :: x in xs && x.0 !in Keys(r) && 0 <= i < |r| ==> x.1 <= r[i].1
  }

  lemma KeysCons<K>(x: (K, int), rest: seq<(K, int)>)
    ensures Keys([x] + rest) == [x.0] + Keys(rest)
  {
  }

  /** Taking an item out takes its key out of the keys. */
  lemma KeysWithout<K>(xs: seq<(K, int)>, m: nat)
    requires m < |xs|
    ensures Keys(Without(xs, m)) == Without(Keys(xs), m)
  {
  }

  /** The items of `top(n)` come in descending order of count. */
  lemma {:induction false} TopItemsSorted<K>(xs: seq<(K, int)>, n: nat)
    ensures SortedByCountDesc(TopItems(xs, n))
    decreases |xs|
  {
    if n > 0 && |xs| > 0 {
      var m := MaxAt(xs);
      var rest := TopItems(Without(xs, m), n - 1);
      TopItemsSorted(Without(xs, m), n - 1);
      MaxAtSpec(xs);
      WithoutItems(xs, m);
      SortedCons(xs[m], rest);
    }
  }

  /** An item counting at least as much as every item of a sorted list can
      go in front of it. */
  lemma SortedCons<K>(x: (K, int), rest: seq<(K, int)>)
    requires SortedByCountDesc(rest)
    requires forall y :: y in rest ==> y.1 <= x.1
    ensures SortedByCountDesc([x] + rest)
  {
    var r := [x] + rest;
    forall i, j | 0 <= i < j < |r| ensures r[i].1 >= r[j].1 {
      assert r[j] == rest[j - 1] && r[j] in rest;
      if i > 0 {
        assert r[i] == rest[i - 1];
      }
    }
  }

  /** In items with distinct keys, `top(n)` lists no key twice. */
  lemma {:induction false} TopItemsDistinct<K>(xs: seq<(K, int)>, n: nat)
    requires Distinct(Keys(xs))
    ensures Distinct(Keys(TopItems(xs, n)))
    decreases |xs|
  {
    if n > 0 && |xs| > 0 {
      var m := MaxAt(xs);
      var rest := TopItems(Without(xs, m), n - 1);
      KeysWithout(xs, m);
      WithoutItems(Keys(xs), m);
      TopItemsDistinct(Without(xs, m), n - 1);
      KeysCons(xs[m], rest);
      forall i | 0 <= i < |rest| ensures Keys(rest)[i] != xs[m].0 {
        var y := rest[i];
        assert y in Without(xs, m);
        var j :| 0 <= j < |xs| - 1 && Without(xs, m)[j] == y;
        assert Keys(Without(xs, m))[j] == y.0;
      }
    }
  }

  /** In items with distinct keys, entries of `top(n)` with equal counts come
      in the order of the items: the sort is stable. */
  lemma {:induction false} TopItemsStable<K(!new)>(xs: seq<(K, int)>, n: nat)
    requires Distinct(Keys(xs))
    ensures TiesInOrder(Keys(xs), TopItems(xs, n))
    decreases |xs|
  {
    if n > 0 && |xs| > 0 {
      var m := MaxAt(xs);
      var w := Without(xs, m);
      var rest := TopItems(w, n - 1);
      KeysWithout(xs, m);
      WithoutItems(Keys(xs), m);
      TopItemsStable(w, n - 1);
      WithoutKeepsOrder(Keys(xs), m);
      MaxAtSpec(xs);
      var r := [xs[m]] + rest;
      forall i, j | 0 <= i < j < |r| && r[i].1 == r[j].1 ensures Before(Keys(xs), r[i].0, r[j].0) {
        assert r[j] == rest[j - 1] && r[j] in w;
        if i == 0 {
          var q :| 0 <= q < |w| && w[q] == r[j];
          var q' := if q < m then q else q + 1;
          assert xs[q'] == r[j] && Keys(xs)[q'] == r[j].0 && Keys(xs)[m] == xs[m].0;
        } else {
          assert r[i] == rest[i - 1];
          assert Before(Keys(w), r[i].0, r[j].0);
        }
      }
    }
  }

  /** No item whose key `top(n)` leaves out counts more than an entry it
      lists. */
  lemma {:induction false} TopItemsDominate<K>(xs: seq<(K, int)>, n: nat)
    ensures NoneLargerOmitted(xs, TopItems(xs, n))
    decreases |xs|
  {
    if n > 0 && |xs| > 0 {
      var m := MaxAt(xs);
      var rest := TopItems(Without(xs, m), n - 1);
      TopItemsDominate(Without(xs, m), n - 1);
      MaxAtSpec(xs);
      WithoutItems(xs, m);
      KeysCons(xs[m], rest);
      var r := [xs[m]] + rest;
      forall x, i | x in xs && x.0 !in Keys(r) && 0 <= i < |r| ensures x.1 <= r[i].1 {
        if i > 0 {
          assert r[i] == rest[i - 1];
          assert x in Without(xs, m) && x.0 !in Keys(rest);
        }
      }
    }
  }

  /** An item of `xs` that `r` leaves out, though it counts as much as an
      entry of `r`, comes after that entry's key. */
  ghost predicate TiesOmittedLater<K>(xs: seq<(K, int)>, r: seq<(K, int)>) {
    forall j, i :: 0 <= j < |xs| && xs[j].0 !in Keys(r) && 0 <= i < |r| && xs[j].1 == r[i].1 ==>
      Before(Keys(xs), r[i].0, xs[j].0)
  }

  /** Where `top(n)` cuts through items of equal count, it keeps the earlier
      ones. */
  lemma {:induction false} TopItemsTiesLater<K(!new)>(xs: seq<(K, int)>, n: nat)
    ensures TiesOmittedLater(xs, TopItems(xs, n))
    decreases |xs|
  {
    if n > 0 && |xs| > 0 {
      var m := MaxAt(xs);
      var w := Without(xs, m);
      var rest := TopItems(w, n - 1);
      TopItemsTiesLater(w, n - 1);
      KeysCons(xs[m], rest);
      var r := [xs[m]] + rest;
      forall j, i | 0 <= j < |xs| && xs[j].0 !in Keys(r) && 0 <= i < |r| && xs[j].1 == r[i].1
        ensures Before(Keys(xs), r[i].0, xs[j].0)
      {
        assert Keys(r)[0] == xs[m].0;
        if i == 0 {
          TieAfterMax(xs, j);
        } else {
          assert r[i] == rest[i - 1];
          assert Keys(r)[1..] == Keys(rest);
          var j' := if j < m then j else j - 1;
          assert w[j'] == xs[j];
          TieBeforeInRest(xs, m, rest[i - 1].0, j);
        }
      }
    }
  }

  /** An item with the largest count ties only with items after it. */
  lemma TieAfterMax<K>(xs: seq<(K, int)>, j: nat)
    requires j < |xs| && xs[j].0 != xs[MaxAt(xs)].0 && xs[j].1 == xs[MaxAt(xs)].1
    ensures Before(Keys(xs), xs[MaxAt(xs)].0, xs[j].0)
  {
    var m := MaxAt(xs);
    MaxAtSpec(xs);
    assert j != m;
    assert m < j;
    var ks := Keys(xs);
    assert |ks| == |xs| && ks[m] == xs[m].0 && ks[j] == xs[j].0;
  }

  /** Order among the items left after taking one out is order in `xs`. */
  lemma TieBeforeInRest<K(!new)>(xs: seq<(K, int)>, m: nat, a: K, j: nat)
    requires m < |xs| && j < |xs| && j != m
    requires Before(Keys(Without(xs, m)), a, Without(xs, m)[if j < m then j else j - 1].0)
    ensures Before(Keys(xs), a, xs[j].0)
  {
    KeysWithout(xs, m);
    WithoutKeepsOrder(Keys(xs), m);
  }

  /** A key of the dict that `r` leaves out, though its count equals that of
      an entry of `r`, was inserted after that entry's key. */
  ghost predicate TiesLeftOutLater<K(!new)>(t: Tally<K>, r: seq<(K, int)>) {
    forall k, i :: k in t.count && k !in Keys(r) && 0 <= i < |r| && t.count[k] == r[i].1 ==>
      Before(t.order, r[i].0, k)
  }

  /** No key of the dict that `r` leaves out has a larger count than an
      entry of `r`. */
  ghost predicate NoneLargerLeftOut<K(!new)>(t: Tally<K>, r: seq<(K, int)>) {
    forall k, i :: k in t.count && k !in Keys(r) && 0 <= i < |r| ==> t.count[k] <= r[i].1
  }

  /** What `top(n)` returns, which pins it down completely: the `min(n, len)`
      entries with the largest counts, each with its stored count, no key
      twice, in descending order of count, equal counts in insertion order, no
      key left out having a larger count than one listed, and a key left out
      with the same count as one listed inserted after it. */
  lemma TopSpec<K(!new)>(t: Tally<K>, n: int)
    requires WellFormed(t)
    ensures var r := Top(t, n);
      && |r| == SliceLength(n, |t.order|)
      && (forall i :: 0 <= i < |r| ==> r[i].0 in t.count && r[i].1 == t.count[r[i].0])
      && Distinct(Keys(r))
      && SortedByCountDesc(r)
      && TiesInOrder(t.order, r)
      && NoneLargerLeftOut(t, r)
      && TiesLeftOutLater(t, r)
  {
    var xs, m := Items(t), SliceLength(n, |t.order|);
    var r := TopItems(xs, m);
    TopItemsSorted(xs, m);
    TopItemsDistinct(xs, m);
    TopItemsStable(xs, m);
    TopItemsDominate(xs, m);
    TopItemsTiesLater(xs, m);
    forall i | 0 <= i < |r| ensures r[i].0 in t.count && r[i].1 == t.count[r[i].0] {
      assert r[i] in xs;
    }
    forall k, i | k in t.count && k !in Keys(r) && 0 <= i < |r| ensures t.count[k] <= r[i].1 {
      var j := PlaceOf(t, k);
      assert xs[j] == (k, t.count[k]);
    }
    forall k, i | k in t.count && k !in Keys(r) && 0 <= i < |r| && t.count[k] == r[i].1
      ensures Before(t.order, r[i].0, k)
    {
      var j := PlaceOf(t, k);
      assert xs[j] == (k, t.count[k]);
    }
  }
}
