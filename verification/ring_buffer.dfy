/** The circular buffer inside a SafeQueue, as a value: the `data` array of `size` slots,
    the write index `wp` and the read index `rp` (src/lib/safeQueue.c:25-32). The queue's
    usable capacity is `size - 1`: one slot always stays empty so that `wp == rp` can mean
    "empty" and `Next(wp) == rp` "full" without a separate counter. Each operation here is
    what one locked critical section of safeQueue.c does to the struct. */
module RingBuffer {
  import opened Options
  import opened Points
  import BoundedFifo

  datatype Ring = Ring(data: seq<Point>, wp: nat, rp: nat)

  /** The struct invariant: a usable slot plus the sacrificed one, and both indices in range. */
  predicate Valid(q: Ring) {
    2 <= |q.data| && q.wp < |q.data| && q.rp < |q.data|
  }

  /** The number of points the queue can hold: one less than its slot count. */
  function Capacity(q: Ring): (n: nat)
    requires Valid(q)
    ensures n >= 1
  {
    |q.data| - 1
  }

  /** The points in the queue, head first: the slots from `rp` up to (not including) `wp`,
      wrapping past the end of the array when `wp` is behind `rp`. */
  function Contents(q: Ring): (items: seq<Point>)
    requires Valid(q)
    ensures |items| < |q.data|
  {
    if q.rp <= q.wp then q.data[q.rp..q.wp] else q.data[q.rp..] + q.data[..q.wp]
  }

  /** The queue this ring stands for. */
  function Abs(q: Ring): (f: BoundedFifo.Fifo)
    requires Valid(q)
    ensures BoundedFifo.Valid(f)
  {
    BoundedFifo.Fifo(Capacity(q), Contents(q))
  }

  /** Index advance with wrap-around, as both push and pop write it: add one and subtract
      `size` once the result reaches `size`. */
  function Next(i: nat, size: nat): (r: nat)
    requires i < size
    ensures r < size
    ensures r == (i + 1) % size
  {
    if i + 1 >= size then i + 1 - size else i + 1
  }

  /** The occupancy computed from the two indices, with the branch the source takes on
      `wp < rp` so that unsigned subtraction cannot go below zero. */
  function Count(q: Ring): (n: nat)
    requires Valid(q)
    ensures n == (q.wp - q.rp) % |q.data|
    ensures n == |Contents(q)|
    ensures n <= Capacity(q)
  {
    if q.wp < q.rp then |q.data| + q.wp - q.rp else q.wp - q.rp
  }

  /** The room left: capacity minus occupancy. */
  function FreeCount(q: Ring): (n: nat)
    requires Valid(q)
    ensures n + |Contents(q)| == Capacity(q)
  {
    Capacity(q) - Count(q)
  }

  /** The empty test the source uses in pop and wait. */
  lemma EmptyIffIndicesMeet(q: Ring)
    requires Valid(q)
    ensures q.wp == q.rp <==> |Contents(q)| == 0
  {
  }

  /** The full test the source uses in push. */
  lemma FullIffNextMeetsRead(q: Ring)
    requires Valid(q)
    ensures Next(q.wp, |q.data|) == q.rp <==> |Contents(q)| == Capacity(q)
  {
  }

  /** An empty ring of `size + 1` slots holding `junk` (the slots' unspecified initial
      content); both indices start at 0. */
  function Init(size: nat, junk: Point): (q: Ring)
    requires size >= 1
    ensures Valid(q) && |q.data| == size + 1 && Capacity(q) == size
    ensures q.wp == 0 && q.rp == 0 && Contents(q) == []
  {
    Ring(seq(size + 1, _ => junk), 0, 0)
  }

  /** The push critical section: compute the next write index; if it meets `rp` the queue is
      full and nothing changes; otherwise store `p` at `wp` and advance `wp`. */
  function Push(q: Ring, p: Point): (r: (Ring, bool))
    requires Valid(q)
    ensures Valid(r.0) && |r.0.data| == |q.data|
    ensures r.1 <==> |Contents(q)| < Capacity(q)
    ensures !r.1 ==> r.0 == q
    ensures r.1 ==> Contents(r.0) == Contents(q) + [p]
    ensures r.1 ==> r.0.rp == q.rp && r.0.wp == (q.wp + 1) % |q.data|
    ensures r.1 ==> r.0.data[q.wp] == p
    ensures forall i :: 0 <= i < |q.data| && i != q.wp ==> r.0.data[i] == q.data[i]
  {
    var nextWp := Next(q.wp, |q.data|);
    if nextWp == q.rp then (q, false)
    else
      (Ring(q.data[q.wp := p], nextWp, q.rp), true)
  }

  /** The pop critical section: if `rp == wp` the queue is empty and nothing changes;
      otherwise take the slot at `rp` and advance `rp`. */
  function Pop(q: Ring): (r: (Ring, Option<Point>))
    requires Valid(q)
    ensures Valid(r.0) && |r.0.data| == |q.data|
    ensures r.1.Some? <==> |Contents(q)| > 0
    ensures r.1.None? ==> r.0 == q
    ensures r.1.Some? ==> r.1.value == Contents(q)[0] && Contents(r.0) == Contents(q)[1..]
    ensures r.1.Some? ==> r.0.data == q.data && r.0.wp == q.wp && r.0.rp == (q.rp + 1) % |q.data|
  {
    if q.rp == q.wp then (q, None)
    else
      (Ring(q.data, q.wp, Next(q.rp, |q.data|)), Some(q.data[q.rp]))
  }

  /** Push refines the abstract enqueue: same success flag, same resulting queue. */
  lemma PushRefines(q: Ring, p: Point)
    requires Valid(q)
    ensures Abs(Push(q, p).0) == BoundedFifo.Enqueue(Abs(q), p).0
    ensures Push(q, p).1 == BoundedFifo.Enqueue(Abs(q), p).1
  {
  }

  /** Pop refines the abstract dequeue: same delivered point, same resulting queue. */
  lemma PopRefines(q: Ring)
    requires Valid(q)
    ensures Abs(Pop(q).0) == BoundedFifo.Dequeue(Abs(q)).0
    ensures Pop(q).1 == BoundedFifo.Dequeue(Abs(q)).1
  {
  }

  /** One content-changing operation on the ring. */
  function Apply(q: Ring, op: BoundedFifo.Op): (r: (Ring, seq<Point>))
    requires Valid(q)
    ensures Valid(r.0) && |r.0.data| == |q.data|
  {
    match op
    case Put(p) => (Push(q, p).0, [])
    case Take =>
      var (q1, head) := Pop(q);
      (q1, if head.Some? then [head.value] else [])
  }

  /** Operations applied in order, with the points the successful pops delivered. */
  function Run(q: Ring, ops: seq<BoundedFifo.Op>): (r: (Ring, seq<Point>))
    requires Valid(q)
    ensures Valid(r.0) && |r.0.data| == |q.data|
    ensures |Contents(r.0)| + FreeCount(r.0) == Capacity(q)
    decreases |ops|
  {
    if |ops| == 0 then (q, [])
    else
      var (q1, out1) := Apply(q, ops[0]);
      var (q2, outs) := Run(q1, ops[1..]);
      (q2, out1 + outs)
  }

  /** Any sequence of pushes and pops on the ring behaves as on the abstract bounded FIFO:
      same resulting queue, same points delivered in the same order. */
  lemma {:induction false} RunRefines(q: Ring, ops: seq<BoundedFifo.Op>)
    requires Valid(q)
    ensures Abs(Run(q, ops).0) == BoundedFifo.Run(Abs(q), ops).0
    ensures Run(q, ops).1 == BoundedFifo.Run(Abs(q), ops).1
    decreases |ops|
  {
    if |ops| > 0 {
      match ops[0] {
        case Put(p) => PushRefines(q, p);
        case Take => PopRefines(q);
      }
      RunRefines(Apply(q, ops[0]).0, ops[1..]);
    }
  }
}
