// Grid geometry shared by both warehouse resolutions: points, the rotation
// mapping from a direction code to a unit vector, the cell in front of the
// agent and the classification of that cell.

module Geometry {
  import opened Common

  /** A grid coordinate (x, y); x grows to the right, y grows downwards. */
  datatype Point = Point(x: int, y: int)

  /** The sentinel position of "no pack on the floor". */
  const NoPack: Point := Point(-1, -1)

  /** An unsigned 8-bit field (direction, carrying flag, pack flag). */
  type Byte = x: int | 0 <= x < 256

  /** What the agent faces. */
  datatype CellType = OutOfBounds | Free | Pack | Rack | Feed

  function Add(p: Point, v: Point): Point {
    Point(p.x + v.x, p.y + v.y)
  }

  predicate InGrid(p: Point, w: int, h: int) {
    0 <= p.x < w && 0 <= p.y < h
  }

  /** The mapping that Info::set_rotation_mapping installs:
      0 = right, 1 = down, 2 = left, 3 = up. */
  function DefaultRotation(): (m: map<int, Point>)
    ensures m.Keys == {0, 1, 2, 3}
  {
    map[0 := Point(1, 0), 1 := Point(0, 1), 2 := Point(-1, 0), 3 := Point(0, -1)]
  }

  /** front_pos: the cell one step ahead in direction `dir`, or None when it
      leaves the w x h grid.  A direction without a rotation entry makes the
      source panic, hence the precondition. */
  function FrontPos(pos: Point, dir: int, rotation: map<int, Point>, w: nat, h: nat): (r: Option<Point>)
    requires dir in rotation
    ensures r.Some? <==> InGrid(Add(pos, rotation[dir]), w, h)
    ensures r.Some? ==> r.value == Add(pos, rotation[dir])
  {
    var p := Add(pos, rotation[dir]);
    if p.x >= 0 && p.y >= 0 && p.x < w && p.y < h then Some(p) else None
  }

  /** fwd_cell: classify the facing cell; racks take priority over a pack on
      the floor, a pack over a feed point, and anything else in the grid is free. */
  function FwdCell(p: Option<Point>, packAvailable: int, packPoint: Point,
                   racks: seq<Point>, feeds: seq<Point>): (c: CellType)
    ensures c == OutOfBounds <==> p.None?
    ensures c == Rack <==> p.Some? && p.value in racks
    ensures c == Pack <==> p.Some? && p.value !in racks && packAvailable == 1 && packPoint == p.value
    ensures c == Feed <==> p.Some? && p.value !in racks && !(packAvailable == 1 && packPoint == p.value)
                           && p.value in feeds
    ensures c == Free <==> p.Some? && p.value !in racks && !(packAvailable == 1 && packPoint == p.value)
                           && p.value !in feeds
  {
    match p
    case None => OutOfBounds
    case Some(point) =>
      if point in racks then Rack
      else if packAvailable == 1 && packPoint == point then Pack
      else if point in feeds then Feed
      else Free
  }

  /** With the default mapping, turning right (d -> (d + 1) % 4) turns the unit
      vector a quarter clockwise on a y-down grid, and every vector has length one. */
  lemma DefaultRotationTurns(d: int)
    requires 0 <= d < 4
    ensures var v := DefaultRotation()[d];
            DefaultRotation()[(d + 1) % 4] == Point(-v.y, v.x)
            && (v.x == 0 <==> v.y != 0) && -1 <= v.x <= 1 && -1 <= v.y <= 1
  {
  }

  /** Stepping forward and then forward again facing the opposite direction
      returns to the starting cell: the facing cell of an in-grid cell is a
      neighbour that sees it back. */
  lemma FrontPosReversible(pos: Point, d: int, w: nat, h: nat)
    requires 0 <= d < 4 && InGrid(pos, w, h)
    requires FrontPos(pos, d, DefaultRotation(), w, h).Some?
    ensures FrontPos(FrontPos(pos, d, DefaultRotation(), w, h).value, (d + 2) % 4, DefaultRotation(), w, h)
            == Some(pos)
    ensures FrontPos(pos, d, DefaultRotation(), w, h).value != pos
  {
    var rot := DefaultRotation();
    assert rot[(d + 2) % 4] == Point(-rot[d].x, -rot[d].y);
  }
}
