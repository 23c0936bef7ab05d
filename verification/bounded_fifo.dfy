/** The abstract behaviour the ring buffer implements: a FIFO queue of points that holds
    at most `capacity` elements and rejects, rather than blocks, when full or empty. */
module BoundedFifo {
  import opened Options
  import opened Points

  datatype Fifo = Fifo(capacity: nat, items: seq<Point>)

  /** A queue operation that changes the contents: a push of a point or a pop. */
  datatype Op = Put(p: Point) | Take

  predicate Valid(f: Fifo) {
    |f.items| <= f.capacity
  }

  predicate IsFull(f: Fifo) {
    |f.items| == f.capacity
  }

  predicate IsEmpty(f: Fifo) {
    |f.items| == 0
  }

  function Empty(capacity: nat): (f: Fifo)
    ensures Valid(f) && IsEmpty(f) && f.capacity == capacity
  {
    Fifo(capacity, [])
  }

  /** Appends `p` at the tail unless the queue is full; reports whether it did. */
  function Enqueue(f: Fifo, p: Point): (r: (Fifo, bool))
    requires Valid(f)
    ensures Valid(r.0) && r.0.capacity == f.capacity
    ensures r.1 <==> !IsFull(f)
    ensures r.1 ==> r.0.items == f.items + [p]
    ensures !r.1 ==> r.0 == f
  {
    if IsFull(f) then (f, false) else (Fifo(f.capacity, f.items + [p]), true)
  }

  /** Removes and returns the head unless the queue is empty. */
  function Dequeue(f: Fifo): (r: (Fifo, Option<Point>))
    requires Valid(f)
    ensures Valid(r.0) && r.0.capacity == f.capacity
    ensures r.1.Some? <==> !IsEmpty(f)
    ensures r.1.Some? ==> r.1.value == f.items[0] && r.0.items == f.items[1..]
    ensures r.1.None? ==> r.0 == f
  {
    if IsEmpty(f) then (f, None) else (Fifo(f.capacity, f.items[1..]), Some(f.items[0]))
  }

  /** One operation; the second component lists what a successful pop delivered. */
  function Apply(f: Fifo, op: Op): (r: (Fifo, seq<Point>))
    requires Valid(f)
    ensures Valid(r.0) && r.0.capacity == f.capacity && |r.1| <= 1
  {
    match op
    case Put(p) => (Enqueue(f, p).0, [])
    case Take =>
      var (f1, head) := Dequeue(f);
      (f1, if head.Some? then [head.value] else [])
  }

  /** Operations applied in order, with everything the pops delivered, in delivery order. */
  function Run(f: Fifo, ops: seq<Op>): (r: (Fifo, seq<Point>))
    requires Valid(f)
    ensures Valid(r.0) && r.0.capacity == f.capacity
    decreases |ops|
  {
    if |ops| == 0 then (f, [])
    else
      var (f1, out1) := Apply(f, ops[0]);
      var (f2, outs) := Run(f1, ops[1..]);
      (f2, out1 + outs)
  }

  /** A push of each point of `ps`, in order. */
  function Puts(ps: seq<Point>): (ops: seq<Op>)
    ensures |ops| == |ps|
    ensures forall i :: 0 <= i < |ps| ==> ops[i] == Put(ps[i])
  {
    seq(|ps|, i requires 0 <= i < |ps| => Put(ps[i]))
  }

  /** `n` pops. */
  function Takes(n: nat): (ops: seq<Op>)
    ensures |ops| == n
    ensures forall i :: 0 <= i < n ==> ops[i] == Take
  {
    seq(n, _ => Take)
  }

  /** Running two batches one after the other is running their concatenation. */
  lemma {:induction false} RunConcat(f: Fifo, a: seq<Op>, b: seq<Op>)
    requires Valid(f)
    ensures Run(f, a + b).0 == Run(Run(f, a).0, b).0
    ensures Run(f, a + b).1 == Run(f, a).1 + Run(Run(f, a).0, b).1
    decreases |a|
  {
    if |a| > 0 {
      var f1 := Apply(f, a[0]).0;
      assert (a + b)[1..] == a[1..] + b;
      RunConcat(f1, a[1..], b);
    } else {
      assert a + b == b;
    }
  }

  /** Pushes that fit all succeed: they append their points in order and deliver nothing. */
  lemma {:induction false} PutsAppend(f: Fifo, ps: seq<Point>)
    requires Valid(f) && |f.items| + |ps| <= f.capacity
    ensures Run(f, Puts(ps)).0.items == f.items + ps
    ensures Run(f, Puts(ps)).1 == []
    decreases |ps|
  {
    if |ps| > 0 {
      var f1 := Enqueue(f, ps[0]).0;
      assert Puts(ps)[1..] == Puts(ps[1..]);
      PutsAppend(f1, ps[1..]);
      assert f1.items + ps[1..] == f.items + ps;
    }
  }

  /** Pushes, whether they succeed or not, never disturb the points already queued: those
      stay at the front, in order. */
  lemma {:induction false} PutsKeepQueued(f: Fifo, ps: seq<Point>)
    requires Valid(f)
    ensures |f.items| <= |Run(f, Puts(ps)).0.items|
    ensures Run(f, Puts(ps)).0.items[..|f.items|] == f.items
    decreases |ps|
  {
    if |ps| > 0 {
      var f1 := Enqueue(f, ps[0]).0;
      assert Puts(ps)[1..] == Puts(ps[1..]);
      PutsKeepQueued(f1, ps[1..]);
      assert f1.items[..|f.items|] == f.items;
    }
  }

  /** `k` pops from a queue holding at least `k` points deliver its first `k` points, head first. */
  lemma {:induction false} TakesPrefix(f: Fifo, k: nat)
    requires Valid(f) && k <= |f.items|
    ensures Run(f, Takes(k)).1 == f.items[..k]
    ensures Run(f, Takes(k)).0.items == f.items[k..]
    decreases k
  {
    if k > 0 {
      var f1 := Dequeue(f).0;
      assert Takes(k)[1..] == Takes(k - 1);
      TakesPrefix(f1, k - 1);
      assert f.items[..k] == [f.items[0]] + f1.items[..k - 1];
      assert f1.items[k - 1..] == f.items[k..];
    }
  }

  /** FIFO order: pushing `ps` into an empty queue that can hold them, then popping as many
      times, delivers exactly `ps` and leaves the queue empty. */
  lemma FifoOrder(capacity: nat, ps: seq<Point>)
    requires |ps| <= capacity
    ensures Run(Empty(capacity), Puts(ps) + Takes(|ps|)).1 == ps
    ensures IsEmpty(Run(Empty(capacity), Puts(ps) + Takes(|ps|)).0)
  {
    var f := Empty(capacity);
    RunConcat(f, Puts(ps), Takes(|ps|));
    PutsAppend(f, ps);
    TakesPrefix(Run(f, Puts(ps)).0, |ps|);
  }
}
