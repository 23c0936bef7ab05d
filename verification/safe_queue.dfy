/** The public SafeQueue interface of src/lib/safeQueue.c. A `SafeQueue *` is a `Handle`:
    `None` is the NULL pointer, which every operation accepts and answers with 0 or no
    effect. Statuses are the C ints: 1 for success, 0 for failure. Every operation is one
    atomic step, as it runs wholly under the queue's mutex. */
module SafeQueue {
  import opened Options
  import opened Points
  import opened TimeArith
  import BoundedFifo
  import RingBuffer

  type Handle = Option<RingBuffer.Ring>

  /** A handle the program can hold: NULL, or a queue whose invariant holds. */
  predicate ValidHandle(h: Handle) {
    h.Some? ==> RingBuffer.Valid(h.value)
  }

  /** The points in the queue, head first; NULL holds none. */
  function Items(h: Handle): seq<Point>
    requires ValidHandle(h)
  {
    if h.None? then [] else RingBuffer.Contents(h.value)
  }

  /** `SafeQueueCreate(size)`: NULL for size 0 or when an allocation fails (`mallocOk` is
      false); otherwise an empty queue of `size + 1` slots, both indices 0. `junk` is the
      content of the freshly allocated, uninitialised slots. */
  function Create(size: nat, mallocOk: bool, junk: Point): (h: Handle)
    ensures ValidHandle(h)
    ensures h.Some? <==> size != 0 && mallocOk
    ensures h.Some? ==> |h.value.data| == size + 1 && h.value.wp == 0 && h.value.rp == 0
    ensures h.Some? ==> Items(h) == [] && GetSize(h) == size
  {
    if size == 0 then None
    else if !mallocOk then None
    else Some(RingBuffer.Init(size, junk))
  }

  /** `SafeQueueGetSize`: the usable capacity, one less than the slot count. */
  function GetSize(h: Handle): (n: nat)
    requires ValidHandle(h)
    ensures h.None? ==> n == 0
    ensures h.Some? ==> n + 1 == |h.value.data| && n >= 1
  {
    if h.None? then 0 else |h.value.data| - 1
  }

  /** `SafeQueueGetCount`: the number of points in the queue. */
  function GetCount(h: Handle): (n: nat)
    requires ValidHandle(h)
    ensures n == |Items(h)|
    ensures n <= GetSize(h)
  {
    if h.None? then 0 else RingBuffer.Count(h.value)
  }

  /** `SafeQueueGetFreeCount`: the room left, capacity minus count. */
  function GetFreeCount(h: Handle): (n: nat)
    requires ValidHandle(h)
    ensures h.None? ==> n == 0
    ensures h.Some? ==> n + |Items(h)| == GetSize(h)
  {
    if h.None? then 0 else GetSize(h) - GetCount(h)
  }

  /** `SafeQueuePush(sque, x, y)`: appends the point when there is room and returns 1;
      returns 0 and changes nothing when the queue is full or NULL. */
  function Push(h: Handle, x: Coord, y: Coord): (r: (Handle, int))
    requires ValidHandle(h)
    ensures ValidHandle(r.0) && r.0.Some? == h.Some? && GetSize(r.0) == GetSize(h)
    ensures r.1 == 1 <==> h.Some? && |Items(h)| < GetSize(h)
    ensures r.1 == 0 || r.1 == 1
    ensures r.1 == 0 ==> r.0 == h
    ensures r.1 == 1 ==> Items(r.0) == Items(h) + [Point(x, y)]
    ensures r.1 == 1 ==> r.0.value.rp == h.value.rp
  {
    if h.None? then (h, 0)
    else
      var (q, ok) := RingBuffer.Push(h.value, Point(x, y));
      if ok then (Some(q), 1) else (h, 0)
  }

  /** What `SafeQueuePop` leaves behind: the queue, the status and the two output
      variables. An output is `None` when the caller passed NULL for it. */
  datatype PopResult = PopResult(queue: Handle, status: int, outX: Option<Coord>, outY: Option<Coord>)

  /** `SafeQueuePop(sque, x, y)`: when the queue holds a point, removes its head, copies the
      head's coordinates through the non-NULL outputs and returns 1; otherwise returns 0
      and touches neither the queue nor the outputs. A NULL output still consumes. */
  function Pop(h: Handle, outX: Option<Coord>, outY: Option<Coord>): (r: PopResult)
    requires ValidHandle(h)
    ensures ValidHandle(r.queue) && r.queue.Some? == h.Some? && GetSize(r.queue) == GetSize(h)
    ensures r.status == 1 <==> |Items(h)| > 0
    ensures r.status == 0 || r.status == 1
    ensures r.status == 0 ==> r.queue == h && r.outX == outX && r.outY == outY
    ensures r.status == 1 ==> Items(r.queue) == Items(h)[1..]
    ensures r.status == 1 ==> r.outX == (if outX.Some? then Some(Items(h)[0].x) else None)
    ensures r.status == 1 ==> r.outY == (if outY.Some? then Some(Items(h)[0].y) else None)
  {
    if h.None? then PopResult(h, 0, outX, outY)
    else
      var (q, head) := RingBuffer.Pop(h.value);
      match head
      case None => PopResult(h, 0, outX, outY)
      case Some(p) =>
        PopResult(Some(q), 1,
                  if outX.Some? then Some(p.x) else None,
                  if outY.Some? then Some(p.y) else None)
  }

  /** What `SafeQueueWait` computes: the absolute deadline it waits against (none for a
      NULL queue, which returns before reading the clock) and its status. */
  datatype WaitResult = WaitResult(deadline: Option<Timespec>, status: int)

  /** `SafeQueueWait(sque, msec)`, with the blocking left out: `now` is the wall-clock time
      read at entry and `h` the queue as it is when the wait loop exits, whether by data,
      by timeout or at once. The status reports whether the queue is non-empty then. */
  function Wait(h: Handle, msec: int, now: Timespec): (r: WaitResult)
    requires ValidHandle(h)
    ensures r.status == 1 <==> |Items(h)| > 0
    ensures r.status == 0 || r.status == 1
    ensures r.deadline.Some? <==> h.Some?
    ensures r.deadline.Some? ==> TotalNanos(r.deadline.value) == TotalNanos(now) + msec * NanosPerMilli
    ensures r.deadline.Some? && msec >= 0 && Normalized(now) ==> Normalized(r.deadline.value)
  {
    if h.None? then WaitResult(None, 0)
    else
      var deadline := Deadline(now, msec);
      RingBuffer.EmptyIffIndicesMeet(h.value);
      WaitResult(Some(deadline), if h.value.wp != h.value.rp then 1 else 0)
  }

  /** A push or a pop applied to a handle, its status discarded. */
  function Apply(h: Handle, op: BoundedFifo.Op): (r: Handle)
    requires ValidHandle(h)
    ensures ValidHandle(r) && r.Some? == h.Some?
  {
    match op
    case Put(p) => Push(h, p.x, p.y).0
    case Take => Pop(h, None, None).queue
  }

  /** Any sequence of pushes and pops, in order. */
  function Run(h: Handle, ops: seq<BoundedFifo.Op>): (r: Handle)
    requires ValidHandle(h)
    ensures ValidHandle(r)
    decreases |ops|
  {
    if |ops| == 0 then h else Run(Apply(h, ops[0]), ops[1..])
  }

  /** Capacity accounting: no push or pop changes the size, and after any sequence of them
      count plus free count is the size; a NULL queue stays NULL. */
  lemma {:induction false} RunKeepsAccounting(h: Handle, ops: seq<BoundedFifo.Op>)
    requires ValidHandle(h)
    ensures Run(h, ops).Some? == h.Some?
    ensures GetSize(Run(h, ops)) == GetSize(h)
    ensures h.Some? ==> GetCount(Run(h, ops)) + GetFreeCount(Run(h, ops)) == GetSize(h)
    decreases |ops|
  {
    if |ops| > 0 {
      RunKeepsAccounting(Apply(h, ops[0]), ops[1..]);
    }
  }

  /** Creating with size 0 fails; creating with size N >= 1 gives an empty queue of size N. */
  lemma CreateGivesEmptyQueue(size: nat, junk: Point)
    ensures Create(0, true, junk).None?
    ensures size >= 1 ==> Create(size, true, junk).Some?
    ensures size >= 1 ==> GetSize(Create(size, true, junk)) == size
    ensures size >= 1 ==> GetCount(Create(size, true, junk)) == 0
    ensures size >= 1 ==> GetFreeCount(Create(size, true, junk)) == size
  {
  }

  /** Empty rejection: a pop on a freshly created queue fails and the count stays 0. */
  lemma PopFreshFails(size: nat, junk: Point, outX: Option<Coord>, outY: Option<Coord>)
    requires size >= 1
    ensures Pop(Create(size, true, junk), outX, outY).status == 0
    ensures GetCount(Pop(Create(size, true, junk), outX, outY).queue) == 0
  {
  }

  /** Round trip: on an empty queue, a pop right after a successful push returns the pushed
      coordinates bit for bit and leaves the queue empty again. */
  lemma PushThenPop(h: Handle, x: Coord, y: Coord, outX: Coord, outY: Coord)
    requires ValidHandle(h) && h.Some? && GetCount(h) == 0
    ensures Push(h, x, y).1 == 1
    ensures Pop(Push(h, x, y).0, Some(outX), Some(outY)) ==
            PopResult(Pop(Push(h, x, y).0, Some(outX), Some(outY)).queue, 1, Some(x), Some(y))
    ensures GetCount(Pop(Push(h, x, y).0, Some(outX), Some(outY)).queue) == 0
  {
  }

  /** Full rejection: after N successful pushes into a fresh queue of size N, the count is N
      and one more push fails and changes nothing. */
  lemma {:induction false} FullRejectsPush(ps: seq<Point>, junk: Point, x: Coord, y: Coord)
    requires |ps| >= 1
    ensures var full := Run(Create(|ps|, true, junk), BoundedFifo.Puts(ps));
            GetCount(full) == |ps| && Items(full) == ps &&
            Push(full, x, y) == (full, 0)
  {
    var h := Create(|ps|, true, junk);
    RunRefines(h, BoundedFifo.Puts(ps));
    RunKeepsAccounting(h, BoundedFifo.Puts(ps));
    BoundedFifo.PutsAppend(RingBuffer.Abs(h.value), ps);
  }

  /** FIFO order: pushing points into a fresh queue that can hold them and then popping as
      many times delivers them in the order pushed. */
  lemma {:induction false} FifoOrder(size: nat, junk: Point, ps: seq<Point>)
    requires 1 <= size && |ps| <= size
    ensures RingBuffer.Run(Create(size, true, junk).value, BoundedFifo.Puts(ps) + BoundedFifo.Takes(|ps|)).1 == ps
  {
    var q := Create(size, true, junk).value;
    RingBuffer.RunRefines(q, BoundedFifo.Puts(ps) + BoundedFifo.Takes(|ps|));
    assert RingBuffer.Abs(q) == BoundedFifo.Empty(size);
    BoundedFifo.FifoOrder(size, ps);
  }

  /** The handle-level run is the ring-level run, whose contents follow the abstract FIFO. */
  lemma {:induction false} RunRefines(h: Handle, ops: seq<BoundedFifo.Op>)
    requires ValidHandle(h) && h.Some?
    ensures Run(h, ops).Some?
    ensures Items(Run(h, ops)) == BoundedFifo.Run(RingBuffer.Abs(h.value), ops).0.items
    decreases |ops|
  {
    RunKeepsAccounting(h, ops);
    RingBuffer.RunRefines(h.value, ops);
    RunMatchesRing(h, ops);
  }

  /** The handle-level run ends where the ring-level run ends. */
  lemma {:induction false} RunMatchesRing(h: Handle, ops: seq<BoundedFifo.Op>)
    requires ValidHandle(h) && h.Some?
    ensures Run(h, ops) == Some(RingBuffer.Run(h.value, ops).0)
    decreases |ops|
  {
    if |ops| > 0 {
      var h1 := Apply(h, ops[0]);
      assert h1 == Some(RingBuffer.Apply(h.value, ops[0]).0);
      RunMatchesRing(h1, ops[1..]);
    }
  }
}
