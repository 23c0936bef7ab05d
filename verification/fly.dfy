/** The fly's use of its destination queue in src/main.c: the producer side
    `FlySetDestination` and the consumer side `FlyWaitForSetDestination`. */
module Fly {
  import opened Options
  import opened Points
  import opened TimeArith
  import opened SafeQueue
  import BoundedFifo
  import RingBuffer

  /** `FlySetDestination`: offers the destination to the fly's queue; 0 when it is full. */
  function SetDestination(h: Handle, x: Coord, y: Coord): (r: (Handle, int))
    requires ValidHandle(h)
    ensures ValidHandle(r.0)
    ensures r.1 == 1 <==> h.Some? && |Items(h)| < GetSize(h)
    ensures r.1 == 1 ==> Items(r.0) == Items(h) + [Point(x, y)]
    ensures r.1 != 1 ==> r.0 == h && r.1 == 0
  {
    Push(h, x, y)
  }

  /** `FlyWaitForSetDestination`: wait for a destination, then pop it. `atWait` is the
      queue as the wait ends and `atPop` the queue as the pop takes the lock; between the
      two another consumer may have run. Returns 1 only when the wait reported data and
      the pop then got it; `destX`/`destY` are the caller's variables. */
  function WaitForSetDestination(atWait: Handle, atPop: Handle, msec: int, now: Timespec,
                                 destX: Option<Coord>, destY: Option<Coord>): (r: PopResult)
    requires ValidHandle(atWait) && ValidHandle(atPop)
    ensures ValidHandle(r.queue)
    ensures r.status == 1 <==> |Items(atWait)| > 0 && |Items(atPop)| > 0
    ensures r.status != 1 ==> r.status == 0 && r.queue == atPop && r.outX == destX && r.outY == destY
    ensures r.status == 1 ==> Items(r.queue) == Items(atPop)[1..]
    ensures r.status == 1 && destX.Some? ==> r.outX == Some(Items(atPop)[0].x)
    ensures r.status == 1 && destY.Some? ==> r.outY == Some(Items(atPop)[0].y)
  {
    if Wait(atWait, msec, now).status == 0 then PopResult(atPop, 0, destX, destY)
    else
      var popped := Pop(atPop, destX, destY);
      if popped.status == 0 then PopResult(popped.queue, 0, destX, destY)
      else PopResult(popped.queue, 1, popped.outX, popped.outY)
  }

  /** The program has one consumer, the mover thread, while the main thread keeps pushing
      destinations. With only pushes `ps` between the wait and the pop, the fly gets a
      destination exactly when its queue held one as the wait ended, and it gets the oldest. */
  lemma {:induction false} SingleConsumerGetsHead(h: Handle, ps: seq<Point>, msec: int, now: Timespec,
                                                  x0: Coord, y0: Coord)
    requires ValidHandle(h)
    ensures var r := WaitForSetDestination(h, Run(h, BoundedFifo.Puts(ps)), msec, now, Some(x0), Some(y0));
            (r.status == 1 <==> |Items(h)| > 0) &&
            (r.status == 1 ==> r.outX == Some(Items(h)[0].x) && r.outY == Some(Items(h)[0].y))
  {
    var atPop := Run(h, BoundedFifo.Puts(ps));
    RunKeepsAccounting(h, BoundedFifo.Puts(ps));
    if h.Some? {
      RunRefines(h, BoundedFifo.Puts(ps));
      BoundedFifo.PutsKeepQueued(RingBuffer.Abs(h.value), ps);
      if |Items(h)| > 0 {
        assert Items(atPop)[0] == Items(atPop)[..|Items(h)|][0];
      }
    }
  }
}
