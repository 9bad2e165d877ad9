/**
 * The bounded deque pattern several components share: when the deque
 * already holds `max` entries, the oldest is popped before the new one is
 * pushed. With `max` 0 the pop still leaves room for the push, so the
 * deque holds at most one entry; `Cap` names that effective bound.
 */
module BoundedQueue {
  function Cap(max: nat): nat
  {
    if max == 0 then 1 else max
  }

  /** The last `n` entries of `s`, oldest first. */
  function Last<T>(s: seq<T>, n: nat): (r: seq<T>)
    ensures |r| == if |s| <= n then |s| else n
    ensures r == s[|s| - |r|..]
  {
    if |s| <= n then s else s[|s| - n..]
  }

  /** Pop the oldest entry when at capacity, then push `x`. */
  function PushBounded<T>(q: seq<T>, x: T, max: nat): (r: seq<T>)
    ensures r != [] && r[|r| - 1] == x
    ensures |q| <= Cap(max) ==> |r| <= Cap(max)
  {
    (if |q| >= max && q != [] then q[1..] else q) + [x]
  }

  /** From a deque within its bound, a push keeps exactly the newest `Cap(max)` entries. */
  lemma PushKeepsNewest<T>(q: seq<T>, x: T, max: nat)
    requires |q| <= Cap(max)
    ensures PushBounded(q, x, max) == Last(q + [x], Cap(max))
  {
    if |q| >= max && q != [] {
      assert q[1..] + [x] == (q + [x])[1..];
    }
  }

  /** Pushing each of `xs` in turn. */
  function PushAll<T>(q: seq<T>, xs: seq<T>, max: nat): seq<T>
    decreases |xs|
  {
    if xs == [] then q else PushAll(PushBounded(q, xs[0], max), xs[1..], max)
  }

  /** Keeping the newest `n` twice is keeping them once. */
  lemma LastAppend<T>(s: seq<T>, t: seq<T>, n: nat)
    ensures Last(Last(s, n) + t, n) == Last(s + t, n)
  {
    if |s| > n {
      var b := s + t;
      var k := |s| - n;
      assert Last(s, n) + t == b[k..];
      assert b[k..][|b| - k - n..] == b[|b| - n..];
    }
  }

  /**
   * However many entries are pushed, the deque holds the newest
   * `Cap(max)` entries of everything pushed, in arrival order.
   */
  lemma {:induction false} PushAllKeepsNewest<T>(q: seq<T>, xs: seq<T>, max: nat)
    requires |q| <= Cap(max)
    ensures PushAll(q, xs, max) == Last(q + xs, Cap(max))
    decreases |xs|
  {
    if xs == [] {
      assert q + xs == q;
    } else {
      var q' := PushBounded(q, xs[0], max);
      PushKeepsNewest(q, xs[0], max);
      PushAllKeepsNewest(q', xs[1..], max);
      LastAppend(q + [xs[0]], xs[1..], Cap(max));
      assert q + [xs[0]] + xs[1..] == q + xs;
    }
  }
}
