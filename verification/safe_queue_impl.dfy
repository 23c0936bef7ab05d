/** The queue as the C code lays it out: one heap object holding an array of `size` slots
    and the two indices, updated in place. The ghost `contents` is the queue the object
    stands for; `Valid()` ties it to the window of the array from `rp` to `wp`. Each method
    is proved to perform exactly the transition of the matching `RingBuffer` function, so
    everything proved there carries over. NULL handles are modelled in module SafeQueue. */
module SafeQueueImpl {
  import opened Options
  import opened Points
  import RingBuffer

  class Queue {
    var data: array<Point>
    var size: nat
    var wp: nat
    var rp: nat
    ghost var contents: seq<Point>

    /** The struct's fields as a value. */
    ghost function Snapshot(): RingBuffer.Ring
      reads this, data
    {
      RingBuffer.Ring(data[..], wp, rp)
    }

    ghost predicate Valid()
      reads this, data
    {
      && data.Length == size
      && 2 <= size && wp < size && rp < size
      && contents == RingBuffer.Contents(Snapshot())
    }

    /** The successful path of `SafeQueueCreate(n)`: `n + 1` slots, both indices 0. */
    constructor (n: nat, junk: Point)
      requires n >= 1
      ensures Valid() && fresh(data)
      ensures size == n + 1 && wp == 0 && rp == 0 && contents == []
    {
      data := new Point[n + 1](_ => junk);
      size := n + 1;
      wp := 0;
      rp := 0;
      contents := [];
      new;
      assert data[..][0..0] == [];
    }

    /** `SafeQueueGetSize`: the usable capacity. */
    method GetSize() returns (n: nat)
      requires Valid()
      ensures n == RingBuffer.Capacity(Snapshot()) && n + 1 == data.Length
    {
      n := size - 1;
    }

    /** `SafeQueueGetCount`: the occupancy, from the two indices. */
    method GetCount() returns (n: nat)
      requires Valid()
      ensures n == |contents| && n < size
    {
      if wp < rp {
        n := size + wp - rp;
      } else {
        n := wp - rp;
      }
      assert n == RingBuffer.Count(Snapshot());
    }

    /** `SafeQueueGetFreeCount`: capacity minus occupancy. */
    method GetFreeCount() returns (n: nat)
      requires Valid()
      ensures n + |contents| == size - 1
    {
      var count := GetCount();
      n := size - 1 - count;
    }

    /** `SafeQueuePush`: 1 and the point appended, or 0 and nothing changed when full. */
    method Push(x: Coord, y: Coord) returns (status: int)
      requires Valid()
      modifies this, data
      ensures Valid() && data == old(data) && size == old(size)
      ensures Snapshot() == RingBuffer.Push(old(Snapshot()), Point(x, y)).0
      ensures status == 1 <==> RingBuffer.Push(old(Snapshot()), Point(x, y)).1
      ensures status == 1 ==> contents == old(contents) + [Point(x, y)]
      ensures status != 1 ==> status == 0 && contents == old(contents)
    {
      ghost var before := Snapshot();
      var nextWp := wp + 1;
      if nextWp >= size {
        nextWp := nextWp - size;
      }
      if nextWp == rp {
        return 0;
      }
      data[wp] := Point(x, y);
      wp := nextWp;
      contents := contents + [Point(x, y)];
      assert Snapshot().data == before.data[before.wp := Point(x, y)];
      status := 1;
    }

    /** `SafeQueuePop`: 1 with the head removed and copied to the outputs the caller
        supplied (`None` for a NULL pointer), or 0 with nothing changed when empty. */
    method Pop(outX: Option<Coord>, outY: Option<Coord>)
      returns (status: int, x: Option<Coord>, y: Option<Coord>)
      requires Valid()
      modifies this
      ensures Valid() && data == old(data) && size == old(size)
      ensures Snapshot() == RingBuffer.Pop(old(Snapshot())).0
      ensures status == 1 <==> old(contents) != []
      ensures status == 1 ==> contents == old(contents)[1..]
      ensures status == 1 ==> x == (if outX.Some? then Some(old(contents)[0].x) else None)
      ensures status == 1 ==> y == (if outY.Some? then Some(old(contents)[0].y) else None)
      ensures status != 1 ==> status == 0 && contents == old(contents) && x == outX && y == outY
    {
      x, y := outX, outY;
      if rp == wp {
        return 0, x, y;
      }
      if outX.Some? {
        x := Some(data[rp].x);
      }
      if outY.Some? {
        y := Some(data[rp].y);
      }
      rp := rp + 1;
      if rp >= size {
        rp := rp - size;
      }
      contents := contents[1..];
      status := 1;
    }

    /** The final check of `SafeQueueWait`: whether the queue holds a point. */
    method HasData() returns (status: int)
      requires Valid()
      ensures status == 1 <==> contents != []
      ensures status != 1 ==> status == 0
    {
      status := if wp != rp then 1 else 0;
    }
  }

  /** `SafeQueueCreate`: NULL for size 0 or a failed allocation, else a fresh empty queue. */
  method Create(n: nat, mallocOk: bool, junk: Point) returns (q: Queue?)
    ensures q == null <==> n == 0 || !mallocOk
    ensures q != null ==> fresh(q) && fresh(q.data) && q.Valid() && q.contents == [] && q.size == n + 1
  {
    if n == 0 || !mallocOk {
      return null;
    }
    q := new Queue(n, junk);
  }
}
