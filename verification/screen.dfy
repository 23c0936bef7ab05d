/** The frame `drawScreen` writes (src/main.c:196-226): HEIGHT lines of WIDTH cells, each
    cell the mark of a fly standing there or else part of the border or blank. */
module Screen {
  import opened Options

  const Width: int := 78
  const Height: int := 23

  /** What the drawing reads of a fly: its mark and the cell it occupies, i.e. its
      coordinates already truncated to int as `FlyIsAt` does. */
  datatype FlyView = FlyView(mark: char, cellX: int, cellY: int)

  /** `FlyIsAt(fly, x, y)`. */
  predicate IsAt(f: FlyView, x: int, y: int) {
    f.cellX == x && f.cellY == y
  }

  /** The search loop over `flyList` from index `from`: the first fly at (x, y), if any. */
  function FirstFlyAtFrom(flies: seq<FlyView>, x: int, y: int, from: nat): (r: Option<nat>)
    requires from <= |flies|
    ensures r.Some? ==> from <= r.value < |flies| && IsAt(flies[r.value], x, y)
    ensures r.Some? ==> forall j :: from <= j < r.value ==> !IsAt(flies[j], x, y)
    ensures r.None? ==> forall j :: from <= j < |flies| ==> !IsAt(flies[j], x, y)
    decreases |flies| - from
  {
    if from == |flies| then None
    else if IsAt(flies[from], x, y) then Some(from)
    else FirstFlyAtFrom(flies, x, y, from + 1)
  }

  /** Fly `i` is at (x, y) and no fly before it in the list is. */
  predicate IsFirstAt(flies: seq<FlyView>, x: int, y: int, i: int) {
    && 0 <= i < |flies|
    && IsAt(flies[i], x, y)
    && forall j :: 0 <= j < i ==> !IsAt(flies[j], x, y)
  }

  /** What a cell shows when no fly mark is drawn there: the top and bottom rows win over
      the side columns, and the inside is blank. */
  function BorderChar(x: int, y: int): (c: char) {
    if y == 0 || y == Height - 1 then '-'
    else if x == 0 || x == Width - 1 then '|'
    else ' '
  }

  /** The character `drawScreen` puts at column x of row y. The fly loop stops at the first
      fly there and takes its mark; a NUL mark (or no fly) falls through to the border rule. */
  function CellChar(flies: seq<FlyView>, x: int, y: int): (c: char)
    ensures forall i :: IsFirstAt(flies, x, y, i) && flies[i].mark != 0 as char ==> c == flies[i].mark
    ensures forall i :: IsFirstAt(flies, x, y, i) && flies[i].mark == 0 as char ==> c == BorderChar(x, y)
    ensures (forall j :: 0 <= j < |flies| ==> !IsAt(flies[j], x, y)) ==> c == BorderChar(x, y)
    ensures c != 0 as char
    ensures c == BorderChar(x, y) || exists i :: 0 <= i < |flies| && IsAt(flies[i], x, y) && c == flies[i].mark
  {
    var ch := match FirstFlyAtFrom(flies, x, y, 0)
              case Some(i) => flies[i].mark
              case None => 0 as char;
    if ch != 0 as char then ch else BorderChar(x, y)
  }

  /** A fly at the cell, with no fly before it in the list at the same cell, shows its
      mark there, whatever border the cell lies on. */
  lemma FirstFlyWins(flies: seq<FlyView>, x: int, y: int, i: nat)
    requires i < |flies| && IsAt(flies[i], x, y) && flies[i].mark != 0 as char
    requires forall j :: 0 <= j < i ==> !IsAt(flies[j], x, y)
    ensures CellChar(flies, x, y) == flies[i].mark
  {
  }

  /** A first fly whose mark is NUL hides every later fly at the same cell: the loop has
      already stopped, and the cell shows what it would show with no fly at all. */
  lemma NulMarkShowsBorder(flies: seq<FlyView>, x: int, y: int, i: nat)
    requires i < |flies| && IsAt(flies[i], x, y) && flies[i].mark == 0 as char
    requires forall j :: 0 <= j < i ==> !IsAt(flies[j], x, y)
    ensures CellChar(flies, x, y) == CellChar([], x, y) == BorderChar(x, y)
  {
  }

  /** A cell no fly occupies in the top or bottom row is '-', corners included. */
  lemma EmptyEdgeRowIsDash(flies: seq<FlyView>, x: int, y: int)
    requires forall j :: 0 <= j < |flies| ==> !IsAt(flies[j], x, y)
    requires y == 0 || y == Height - 1
    ensures CellChar(flies, x, y) == '-'
  {
  }

  /** Any other cell no fly occupies is '|' in the first and last column and ' ' inside. */
  lemma EmptyInnerRowIsBarOrBlank(flies: seq<FlyView>, x: int, y: int)
    requires forall j :: 0 <= j < |flies| ==> !IsAt(flies[j], x, y)
    requires y != 0 && y != Height - 1
    ensures CellChar(flies, x, y) == (if x == 0 || x == Width - 1 then '|' else ' ')
  {
  }

  /** One output line: the cells of row y from left to right, then a newline. */
  predicate IsRow(flies: seq<FlyView>, y: int, line: string) {
    && |line| == Width + 1
    && line[Width] == '\n'
    && forall x :: 0 <= x < Width ==> line[x] == CellChar(flies, x, y)
  }

  /** The drawing loops: for each row, every cell from left to right, then a newline. The
      lines, concatenated, are what `drawScreen` writes with `putchar`. */
  method DrawScreen(flies: seq<FlyView>) returns (lines: seq<string>)
    ensures |lines| == Height
    ensures forall y :: 0 <= y < Height ==> IsRow(flies, y, lines[y])
  {
    lines := [];
    var y := 0;
    while y < Height
      invariant 0 <= y <= Height && |lines| == y
      invariant forall r :: 0 <= r < y ==> IsRow(flies, r, lines[r])
    {
      var line := "";
      var x := 0;
      while x < Width
        invariant 0 <= x <= Width && |line| == x
        invariant forall c :: 0 <= c < x ==> line[c] == CellChar(flies, c, y)
      {
        line := line + [CellChar(flies, x, y)];
        x := x + 1;
      }
      line := line + "\n";
      lines := lines + [line];
      y := y + 1;
    }
  }
}
