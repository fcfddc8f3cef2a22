/** `collections.deque(maxlen=n)` as the monitor uses it: appends at the
    right, dropping the oldest item at the left once full. */
module Deques {
  import opened Bounds

  /** `list(q)[-n:]`: the newest `n` items, all of them when there are
      fewer. */
  function Newest<T>(s: seq<T>, n: nat): (r: seq<T>)
    ensures |r| == Min(n, |s|)
    ensures forall i :: 0 <= i < |r| ==> r[i] == s[|s| - |r| + i]
  {
    if |s| <= n then s else s[|s| - n..]
  }

  /** `q.append(x)` on a deque of `maxlen` items at most. */
  function Append<T>(q: seq<T>, x: T, maxlen: nat): (r: seq<T>)
    requires |q| <= maxlen
    ensures |r| == Min(|q| + 1, maxlen) <= maxlen
    ensures maxlen > 0 ==> r[|r| - 1] == x
    ensures |q| < maxlen ==> r == q + [x]
  {
    if maxlen == 0 then []
    else if |q| < maxlen then q + [x]
    else q[1..] + [x]
  }

  /** An append keeps exactly the newest `maxlen` of all items appended. */
  lemma AppendKeepsNewest<T>(q: seq<T>, x: T, maxlen: nat)
    requires |q| <= maxlen
    ensures Append(q, x, maxlen) == Newest(q + [x], maxlen)
  {
    if 0 < maxlen == |q| {
      assert (q + [x])[|q| + 1 - maxlen..] == q[1..] + [x];
    }
  }

  /** `for x in xs: q.append(x)` */
  function AppendAll<T>(q: seq<T>, xs: seq<T>, maxlen: nat): (r: seq<T>)
    requires |q| <= maxlen
    ensures |r| <= maxlen
    decreases |xs|
  {
    if xs == [] then q else AppendAll(Append(q, xs[0], maxlen), xs[1..], maxlen)
  }

  /** However many items are appended, the deque holds the newest `maxlen`
      of everything it was given, oldest first. */
  lemma {:induction false} AppendAllKeepsNewest<T>(q: seq<T>, xs: seq<T>, maxlen: nat)
    requires |q| <= maxlen
    ensures AppendAll(q, xs, maxlen) == Newest(q + xs, maxlen)
    decreases |xs|
  {
    if xs == [] {
      assert q + xs == q;
    } else {
      AppendKeepsNewest(q, xs[0], maxlen);
      AppendAllKeepsNewest(Append(q, xs[0], maxlen), xs[1..], maxlen);
      NewestAppendAll(q + [xs[0]], xs[1..], maxlen);
      SplitFirst(q, xs);
    }
  }

  lemma SplitFirst<T>(q: seq<T>, xs: seq<T>)
    requires xs != []
    ensures q + [xs[0]] + xs[1..] == q + xs
  {
    assert [xs[0]] + xs[1..] == xs;
  }

  /** Cutting to the newest `n` items first changes nothing about the newest
      `n` of a longer sequence. */
  lemma NewestAppendAll<T>(s: seq<T>, xs: seq<T>, n: nat)
    ensures Newest(Newest(s, n) + xs, n) == Newest(s + xs, n)
  {
    if |s| > n {
      var k := |s| - n;
      assert Newest(s, n) == s[k..];
      assert (s + xs)[k..] == s[k..] + xs;
      NewestOfSuffix(s + xs, k, n);
    }
  }

  /** Items appended to a deque cut to its newest `n` make the same newest
      `n` as when appended to everything it was given. */
  lemma NewestExtend<T>(t: seq<T>, a: seq<T>, b: seq<T>, n: nat)
    ensures Newest(Newest(t + a, n) + b, n) == Newest(t + (a + b), n)
  {
    var w := t + a;
    assert w + b == t + (a + b) by {
      assert forall i :: 0 <= i < |w + b| ==> (w + b)[i] == (t + (a + b))[i];
    }
    NewestAppendAll(w, b, n);
  }

  /** Dropping items older than the newest `n` does not change them. */
  lemma NewestOfSuffix<T>(w: seq<T>, k: nat, n: nat)
    requires k + n <= |w|
    ensures Newest(w[k..], n) == Newest(w, n)
  {
    if |w| - k > n {
      assert w[k..][|w| - k - n..] == w[|w| - n..];
    }
  }
}
