/** Grid coordinates, the direction constants and the small records of
    schemascii's utils module. A Python `complex` point `x + y*1j` is a
    `Point(x, y)`; y grows downwards, so `1j` points to the bottom. */
module Geometry {
  import opened Base

  datatype Point = Point(x: int, y: int)
  {
    function Add(d: Point): Point { Point(x + d.x, y + d.y) }
    function Neg(): Point { Point(-x, -y) }
  }

  const Origin: Point := Point(0, 0)

  /** `LEFT_RIGHT`, `UP_DOWN`, `ORTHAGONAL` and `DIAGONAL`. */
  const LeftRight: seq<Point> := [Point(-1, 0), Point(1, 0)]
  const UpDown: seq<Point> := [Point(0, -1), Point(0, 1)]
  const Orthogonal: seq<Point> := LeftRight + UpDown
  const Diagonal: seq<Point> := [Point(-1, 1), Point(1, 1), Point(-1, -1), Point(1, -1)]
  /** The eight neighbours, orthogonal ones first (`ORTHAGONAL + DIAGONAL`). */
  const Moore: seq<Point> := Orthogonal + Diagonal

  /** The step that leads from p to q. */
  function Diff(p: Point, q: Point): (d: Point)
    ensures p.Add(d) == q
  {
    Point(q.x - p.x, q.y - p.y)
  }

  /** q is one unit step from p. */
  predicate Adjacent(p: Point, q: Point)
  {
    Diff(p, q) in Orthogonal
  }

  /** Cell (x, y) comes before cell (cx, cy) in row-major order. */
  predicate Before(x: int, y: int, cx: int, cy: int)
  {
    y < cy || (y == cy && x < cx)
  }

  /** The four sides of a component; the enum values are the phase angles. */
  datatype Side = Right | Top | Left | Bottom

  /** The unit step pointing out of a side. */
  function SideVector(s: Side): (d: Point)
    ensures d in Orthogonal
  {
    match s
    case Right => Point(1, 0)
    case Top => Point(0, -1)
    case Left => Point(-1, 0)
    case Bottom => Point(0, 1)
  }

  /** `Side.from_phase` on the four unit steps: the side whose phase is
      closest to that of the step. */
  function SideFromPhase(d: Point): (s: Side)
    requires d in Orthogonal
    ensures SideVector(s) == d
  {
    if d == Point(1, 0) then Right
    else if d == Point(-1, 0) then Left
    else if d == Point(0, 1) then Bottom
    else Top
  }

  /** Every side is recovered from its unit step. */
  lemma SideFromPhaseOfVector(s: Side)
    ensures SideFromPhase(SideVector(s)) == s
  {
    var d := SideVector(s);
    var t := SideFromPhase(d);
    assert SideVector(t) == SideVector(s);
  }

  /** `Cbox`: a component bounding box with the designator's letter and number. */
  datatype Cbox = Cbox(p1: Point, p2: Point, typ: string, id: int)

  /** `BOMData`: the BOM text attached to a designator. */
  datatype BOMData = BOMData(typ: string, id: int, data: string)

  /** `Flag`: a non-wire character next to a component. */
  datatype Flag = Flag(pt: Point, ch: char, side: Side)

  /** `Terminal`: where a wire meets a component; `flag` is None for a bare wire end. */
  datatype Terminal = Terminal(pt: Point, flag: Option<char>, side: Side)
}
