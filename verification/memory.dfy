/** The learner's bounded memory of past trials (`LimitedMemory`): an ordered
    window holding at most `capacity` items, where each push beyond capacity
    evicts the oldest item. */
module Memory {

  datatype Memory<T> = Memory(capacity: nat, past: seq<T>)

  predicate Valid<T>(m: Memory<T>) {
    |m.past| <= m.capacity
  }

  function Empty<T>(capacity: nat): (m: Memory<T>)
    ensures Valid(m) && m.capacity == capacity && |m.past| == 0
  {
    Memory(capacity, [])
  }

  /** `reset()`: forgets everything, keeps the capacity. */
  function Reset<T>(m: Memory<T>): (m': Memory<T>)
    ensures Valid(m') && m'.capacity == m.capacity && |m'.past| == 0
  {
    Empty(m.capacity)
  }

  /** `push(x)`: the window becomes the most recent `capacity` items of `past + [x]`. */
  function Push<T>(m: Memory<T>, x: T): (m': Memory<T>)
    requires Valid(m)
    ensures Valid(m') && m'.capacity == m.capacity
    ensures |m'.past| == if |m.past| < m.capacity then |m.past| + 1 else m.capacity
    ensures m'.past == (m.past + [x])[|m.past| + 1 - |m'.past|..]
    ensures m.capacity > 0 ==> m'.past[|m'.past| - 1] == x
    ensures forall y :: y in m'.past ==> y in m.past || y == x
  {
    if |m.past| < m.capacity then Memory(m.capacity, m.past + [x])
    else if m.capacity == 0 then m
    else Memory(m.capacity, m.past[1..] + [x])
  }

  /** `last()`: the most recent item. */
  function Last<T>(m: Memory<T>): T
    requires |m.past| > 0
  {
    m.past[|m.past| - 1]
  }

  /** `complete()`: the window is full. */
  predicate Complete<T>(m: Memory<T>) {
    |m.past| == m.capacity
  }

  /** Pushing a whole sequence of items, first to last. */
  function PushAll<T>(m: Memory<T>, xs: seq<T>): (m': Memory<T>)
    requires Valid(m)
    ensures Valid(m') && m'.capacity == m.capacity
    decreases |xs|
  {
    if |xs| == 0 then m else Push(PushAll(m, xs[..|xs| - 1]), xs[|xs| - 1])
  }

  /** The last `min(c, |xs|)` items of `xs`, oldest first. */
  function Window<T>(xs: seq<T>, c: nat): (w: seq<T>)
    ensures |w| == if |xs| < c then |xs| else c
    ensures forall i :: 0 <= i < |w| ==> w[i] == xs[|xs| - |w| + i]
  {
    xs[|xs| - (if |xs| < c then |xs| else c)..]
  }

  /** FIFO window: after pushing `xs` into an empty memory of capacity `c`,
      the memory holds exactly the last `min(c, |xs|)` items of `xs`, oldest first. */
  lemma {:induction false} PushAllKeepsMostRecent<T>(c: nat, xs: seq<T>)
    ensures PushAll(Empty(c), xs).past == Window(xs, c)
  {
    if |xs| > 0 {
      PushAllKeepsMostRecent(c, xs[..|xs| - 1]);
      PushWindow(c, xs, PushAll(Empty<T>(c), xs[..|xs| - 1]));
    }
  }

  /** One push moves the window of the most recent items one step along. */
  lemma PushWindow<T>(c: nat, xs: seq<T>, before: Memory<T>)
    requires |xs| > 0 && Valid(before) && before.capacity == c
    requires before.past == Window(xs[..|xs| - 1], c)
    ensures Push(before, xs[|xs| - 1]).past == Window(xs, c)
  {
    if |xs| - 1 < c {
      PushWindowGrows(c, xs, before);
    } else if c > 0 {
      PushWindowSlides(c, xs, before);
    }
  }

  lemma PushWindowGrows<T>(c: nat, xs: seq<T>, before: Memory<T>)
    requires |xs| > 0 && Valid(before) && before.capacity == c && |xs| - 1 < c
    requires before.past == Window(xs[..|xs| - 1], c)
    ensures Push(before, xs[|xs| - 1]).past == xs
  {
    var n := |xs|;
    forall i | 0 <= i < n - 1 ensures before.past[i] == xs[i] {
      assert before.past[i] == xs[..n - 1][i];
    }
    assert before.past + [xs[n - 1]] == xs;
  }

  lemma PushWindowSlides<T>(c: nat, xs: seq<T>, before: Memory<T>)
    requires |xs| > 0 && Valid(before) && before.capacity == c && |xs| - 1 >= c > 0
    requires before.past == Window(xs[..|xs| - 1], c)
    ensures Push(before, xs[|xs| - 1]).past == Window(xs, c)
  {
    var n := |xs|;
    var w := Window(xs, c);
    var after := before.past[1..] + [xs[n - 1]];
    forall i | 0 <= i < c - 1 ensures after[i] == w[i] {
      assert after[i] == before.past[i + 1] == xs[..n - 1][n - 1 - c + i + 1];
    }
    assert after == w;
  }
}
