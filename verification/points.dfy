/** The queue's payload: a 2-D point of two doubles, copied by value. */
module Points {

  /** A coordinate is kept as the 64-bit pattern of its IEEE-754 double: the queue only
      copies coordinates, so bit-identical copies are all there is to say about them. */
  type Coord = bv64

  datatype Point = Point(x: Coord, y: Coord)
}
