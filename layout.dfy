// The shared warehouse context ("Info"): rack, corridor and feed positions,
// grid size, rotation mapping and the two selectors of the replenishment being planned.
// Its setup operations append to the rack and corridor lists in place.

module Layout {
  import opened Common
  import opened Geometry

  // ---------------------------------------------------------------------
  // Default rack layout: column pairs x = 3c + 2 and x = 3c + 3 for every
  // c < (width - 2) / 3, on rows 1 .. height - 2.
  // ---------------------------------------------------------------------

  /** The two racks pushed for column pair `c` on row `y`, in push order. */
  function RackPair(c: nat, y: int): seq<Point> {
    [Point(c * 3 + 2, y), Point(c * 3 + 3, y)]
  }

  /** Racks of column pair `c` on rows 1 .. yEnd - 1, row by row. */
  function RackRows(c: nat, yEnd: int): seq<Point>
    decreases yEnd
  {
    if yEnd <= 1 then [] else RackRows(c, yEnd - 1) + RackPair(c, yEnd - 1)
  }

  /** Racks of column pairs 0 .. cells - 1 on rows 1 .. height - 2. */
  function RackColumns(cells: nat, height: nat): seq<Point> {
    if cells == 0 then [] else RackColumns(cells - 1, height) + RackRows(cells - 1, height - 1)
  }

  /** The racks set_racks(None) appends for a warehouse of the given size. */
  function DefaultRacks(width: nat, height: nat): seq<Point>
    requires width >= 2
  {
    RackColumns((width - 2) / 3, height)
  }

  /** Whether p lies in one of the first `cells` rack column pairs. */
  predicate InRackBlock(p: Point, cells: nat, height: nat) {
    1 <= p.y < height - 1 && 2 <= p.x < cells * 3 + 2 && (p.x - 2) % 3 != 2
  }

  lemma {:induction false} RackRowsMembership(c: nat, yEnd: int, p: Point)
    ensures p in RackRows(c, yEnd) <==> 1 <= p.y < yEnd && (p.x == c * 3 + 2 || p.x == c * 3 + 3)
    ensures |RackRows(c, yEnd)| == if yEnd <= 1 then 0 else 2 * (yEnd - 1)
    decreases yEnd
  {
    if yEnd > 1 {
      RackRowsMembership(c, yEnd - 1, p);
    }
  }

  /** Column pair c covers exactly the x with (x - 2) / 3 == c and
      (x - 2) % 3 != 2. */
  lemma ColumnPairDecode(x: int, c: nat)
    ensures x == c * 3 + 2 || x == c * 3 + 3 <==> c * 3 + 2 <= x < c * 3 + 5 && (x - 2) % 3 != 2
  {
    if c * 3 + 2 <= x < c * 3 + 5 {
      assert (x - 2) % 3 == x - 2 - 3 * c;
    }
  }

  /** A cell is a default rack exactly when it is in a column pair and on an
      inner row. */
  lemma {:induction false} RackColumnsMembership(cells: nat, height: nat, p: Point)
    ensures p in RackColumns(cells, height) <==> InRackBlock(p, cells, height)
  {
    if cells > 0 {
      var c := cells - 1;
      RackColumnsMembership(c, height, p);
      RackRowsMembership(c, height - 1, p);
      ColumnPairDecode(p.x, c);
      assert InRackBlock(p, cells, height) <==>
             InRackBlock(p, c, height) || (1 <= p.y < height - 1 && (p.x == c * 3 + 2 || p.x == c * 3 + 3));
    }
  }

  /** The number of racks one column pair holds. */
  function PairRacks(height: nat): nat {
    if height < 2 then 0 else 2 * (height - 2)
  }

  lemma {:induction false} RackColumnsLength(cells: nat, height: nat)
    ensures |RackColumns(cells, height)| == cells * PairRacks(height)
  {
    if cells > 0 {
      RackColumnsLength(cells - 1, height);
      RackRowsMembership(cells - 1, height - 1, Point(0, 0));
      MulPred(cells, PairRacks(height));
    }
  }

  /** There are two default racks per column pair and inner row. */
  lemma RackColumnsCount(cells: nat, height: nat)
    ensures |RackColumns(cells, height)| == if height < 2 then 0 else 2 * cells * (height - 2)
  {
    RackColumnsLength(cells, height);
    if height >= 2 {
      assert cells * (2 * (height - 2)) == 2 * cells * (height - 2);
    }
  }

  // ---------------------------------------------------------------------
  // Grid cells and the corridor filter.
  // ---------------------------------------------------------------------

  /** Cells (x, 0) .. (x, yEnd - 1). */
  function ColumnCells(x: int, yEnd: nat): seq<Point> {
    if yEnd == 0 then [] else ColumnCells(x, yEnd - 1) + [Point(x, yEnd - 1)]
  }

  /** All cells with x < xEnd and y < height, x-major (the order of the
      cartesian product 0..width x 0..height). */
  function GridCells(xEnd: nat, height: nat): seq<Point> {
    if xEnd == 0 then [] else GridCells(xEnd - 1, height) + ColumnCells(xEnd - 1, height)
  }

  /** The filter set_corridors applies, as written: a cell is dropped only
      when it is a rack AND a feed point. */
  predicate KeptAsWritten(p: Point, racks: seq<Point>, feeds: seq<Point>) {
    !(p in racks && p in feeds)
  }

  /** The filter the corridor list evidently intends: neither rack nor feed. */
  predicate IsCorridor(p: Point, racks: seq<Point>, feeds: seq<Point>) {
    p !in racks && p !in feeds
  }

  /** The cells of `cells` that pass the as-written filter, in order. */
  function CorridorsAsWritten(cells: seq<Point>, racks: seq<Point>, feeds: seq<Point>): seq<Point>
  {
    if cells == [] then []
    else
      var last := cells[|cells| - 1];
      CorridorsAsWritten(cells[..|cells| - 1], racks, feeds) + (if KeptAsWritten(last, racks, feeds) then [last] else [])
  }

  /** The cells of `cells` that are neither racks nor feed points, in order. */
  function IntendedCorridors(cells: seq<Point>, racks: seq<Point>, feeds: seq<Point>): seq<Point>
  {
    if cells == [] then []
    else
      var last := cells[|cells| - 1];
      IntendedCorridors(cells[..|cells| - 1], racks, feeds) + (if IsCorridor(last, racks, feeds) then [last] else [])
  }

  lemma {:induction false} ColumnCellsShape(x: int, yEnd: nat)
    ensures forall p :: p in ColumnCells(x, yEnd) <==> p.x == x && 0 <= p.y < yEnd
    ensures |ColumnCells(x, yEnd)| == yEnd
    ensures forall i :: 0 <= i < yEnd ==> ColumnCells(x, yEnd)[i] == Point(x, i)
  {
    if yEnd > 0 {
      ColumnCellsShape(x, yEnd - 1);
    }
  }

  lemma {:induction false} ColumnCellMembership(x: int, yEnd: nat, p: Point)
    ensures p in ColumnCells(x, yEnd) <==> p.x == x && 0 <= p.y < yEnd
  {
    if yEnd > 0 {
      ColumnCellMembership(x, yEnd - 1, p);
      if p == Point(x, yEnd - 1) {
        assert p in ColumnCells(x, yEnd);
      }
    }
  }

  /** The grid enumeration lists every cell of the grid, once, at index
      x * height + y. */
  lemma {:induction false} GridCellsInGrid(xEnd: nat, height: nat, p: Point)
    ensures p in GridCells(xEnd, height) ==> InGrid(p, xEnd, height)
  {
    if xEnd > 0 {
      GridCellsInGrid(xEnd - 1, height, p);
      ColumnCellMembership(xEnd - 1, height, p);
    }
  }

  lemma {:induction false} GridCellsCover(xEnd: nat, height: nat, p: Point)
    ensures InGrid(p, xEnd, height) ==> p in GridCells(xEnd, height)
  {
    if xEnd > 0 && InGrid(p, xEnd, height) {
      var a, b := GridCells(xEnd - 1, height), ColumnCells(xEnd - 1, height);
      if p.x < xEnd - 1 {
        GridCellsCover(xEnd - 1, height, p);
        assert p in a;
      } else {
        ColumnCellMembership(xEnd - 1, height, p);
        assert p in b;
      }
      assert GridCells(xEnd, height) == a + b;
    }
  }

  lemma GridCellsMembership(xEnd: nat, height: nat, p: Point)
    ensures p in GridCells(xEnd, height) <==> InGrid(p, xEnd, height)
  {
    GridCellsInGrid(xEnd, height, p);
    GridCellsCover(xEnd, height, p);
  }

  lemma {:induction false} GridCellsCount(xEnd: nat, height: nat)
    ensures |GridCells(xEnd, height)| == xEnd * height
    ensures Distinct(GridCells(xEnd, height))
  {
    if xEnd > 0 {
      var a, b := GridCells(xEnd - 1, height), ColumnCells(xEnd - 1, height);
      assert Distinct(a) && |a| == (xEnd - 1) * height by {
        GridCellsCount(xEnd - 1, height);
      }
      ColumnCellsShape(xEnd - 1, height);
      assert Distinct(b);
      forall q | q in a
        ensures q !in b
      {
        GridCellsMembership(xEnd - 1, height, q);
      }
      DistinctConcat(a, b);
      MulPred(xEnd, height);
    }
  }

  lemma GridCellsShape(xEnd: nat, height: nat)
    ensures forall p :: p in GridCells(xEnd, height) <==> InGrid(p, xEnd, height)
    ensures |GridCells(xEnd, height)| == xEnd * height
    ensures Distinct(GridCells(xEnd, height))
  {
    forall p
      ensures p in GridCells(xEnd, height) <==> InGrid(p, xEnd, height)
    {
      GridCellsMembership(xEnd, height, p);
    }
    GridCellsCount(xEnd, height);
  }

  /** As written, the filter keeps every cell of `cells` that is not also a feed
      point, racks included. */
  lemma {:induction false} CorridorsAsWrittenMembership(cells: seq<Point>, racks: seq<Point>, feeds: seq<Point>, p: Point)
    ensures p in CorridorsAsWritten(cells, racks, feeds) <==> p in cells && KeptAsWritten(p, racks, feeds)
  {
    if cells != [] {
      var init := cells[..|cells| - 1];
      CorridorsAsWrittenMembership(init, racks, feeds, p);
      assert cells == init + [cells[|cells| - 1]];
    }
  }

  /** The intended corridors are exactly the listed cells that are neither
      racks nor feeds; filtering keeps the cells distinct. */
  lemma {:induction false} IntendedCorridorsMembership(cells: seq<Point>, racks: seq<Point>, feeds: seq<Point>)
    ensures forall p :: p in IntendedCorridors(cells, racks, feeds) <==> p in cells && IsCorridor(p, racks, feeds)
    ensures Distinct(cells) ==> Distinct(IntendedCorridors(cells, racks, feeds))
  {
    if cells != [] {
      var init := cells[..|cells| - 1];
      var last := cells[|cells| - 1];
      IntendedCorridorsMembership(init, racks, feeds);
      assert cells == init + [last];
      if Distinct(cells) {
        assert Distinct(init);
        assert last !in init;
      }
    }
  }

  /** The as-written filter distributes over concatenation. */
  lemma {:induction false} CorridorsAsWrittenConcat(a: seq<Point>, b: seq<Point>, racks: seq<Point>, feeds: seq<Point>)
    ensures CorridorsAsWritten(a + b, racks, feeds) == CorridorsAsWritten(a, racks, feeds) + CorridorsAsWritten(b, racks, feeds)
  {
    if b == [] {
      assert a + b == a;
    } else {
      var init, last := b[..|b| - 1], b[|b| - 1];
      CorridorsAsWrittenConcat(a, init, racks, feeds);
      assert (a + b)[..|a + b| - 1] == a + init;
    }
  }

  /** Likewise, the as-written corridor list of distinct cells is distinct. */
  lemma {:induction false} CorridorsAsWrittenDistinct(cells: seq<Point>, racks: seq<Point>, feeds: seq<Point>)
    requires Distinct(cells)
    ensures Distinct(CorridorsAsWritten(cells, racks, feeds))
  {
    if cells != [] {
      var init := cells[..|cells| - 1];
      var last := cells[|cells| - 1];
      assert cells == init + [last];
      assert Distinct(init);
      CorridorsAsWrittenDistinct(init, racks, feeds);
      if last in CorridorsAsWritten(init, racks, feeds) {
        CorridorsAsWrittenMembership(init, racks, feeds, last);
        assert false;
      }
    }
  }

  /** The discrepancy: in every default layout (width >= 5, height >= 3)
      whose feed points do not include (2, 1), the as-written filter makes the
      rack cell (2, 1) a corridor.  The 12 x 12 warehouse with feed point (0, 5)
      is one such layout. */
  lemma RackCellIsCorridorAsWritten(width: nat, height: nat, feeds: seq<Point>)
    requires width >= 5 && height >= 3 && Point(2, 1) !in feeds
    ensures Point(2, 1) in DefaultRacks(width, height)
    ensures Point(2, 1) in CorridorsAsWritten(GridCells(width, height), DefaultRacks(width, height), feeds)
  {
    RackColumnsMembership((width - 2) / 3, height, Point(2, 1));
    GridCellsShape(width, height);
    CorridorsAsWrittenMembership(GridCells(width, height), DefaultRacks(width, height), feeds, Point(2, 1));
  }

  /** With the intended filter, the corridors of a grid are exactly its cells
      that are neither racks nor feeds, each listed once. */
  lemma IntendedCorridorsOfGrid(width: nat, height: nat, racks: seq<Point>, feeds: seq<Point>)
    ensures forall p :: p in IntendedCorridors(GridCells(width, height), racks, feeds)
                        <==> InGrid(p, width, height) && IsCorridor(p, racks, feeds)
    ensures Distinct(IntendedCorridors(GridCells(width, height), racks, feeds))
  {
    GridCellsShape(width, height);
    IntendedCorridorsMembership(GridCells(width, height), racks, feeds);
  }

  // ---------------------------------------------------------------------
  // The context object.
  // ---------------------------------------------------------------------

  class Info {
    var racks: seq<Point>
    var lookupRack: nat
    var feedOption: nat
    var corridors: seq<Point>
    const feeds: seq<Point>
    const width: nat
    const height: nat
    var rotation: map<int, Point>

    /** Info::make: both selectors start at 0. */
    constructor Make(racks0: seq<Point>, corridors0: seq<Point>, rotation0: map<int, Point>,
                     feeds0: seq<Point>, w: nat, h: nat)
      ensures racks == racks0 && corridors == corridors0 && rotation == rotation0
      ensures feeds == feeds0 && width == w && height == h
      ensures lookupRack == 0 && feedOption == 0
    {
      racks := racks0;
      lookupRack := 0;
      feedOption := 0;
      corridors := corridors0;
      feeds := feeds0;
      width := w;
      height := h;
      rotation := rotation0;
    }

    /** set_racks: append the given racks, or the default layout.  The default
        layout needs width >= 2 (unsigned subtraction), at least one column
        pair (the assertion) and height >= 1 (unsigned subtraction). */
    method SetRacks(input: Option<seq<Point>>)
      requires input.None? ==> width >= 5 && height >= 1
      modifies this`racks
      ensures input.Some? ==> racks == old(racks) + input.value
      ensures input.None? ==> racks == old(racks) + DefaultRacks(width, height)
    {
      match input {
        case Some(x) =>
          racks := racks + x;
        case None =>
          var cells := (width - 2) / 3;
          ghost var base := racks;
          for c := 0 to cells
            invariant racks == base + RackColumns(c, height)
          {
            var y := 1;
            while y < height - 1
              invariant 1 <= y && (height >= 2 ==> y <= height - 1) && (height < 2 ==> y == 1)
              invariant racks == base + RackColumns(c, height) + RackRows(c, y)
            {
              for ii := 0 to 2
                invariant racks == base + RackColumns(c, height) + RackRows(c, y) + RackPair(c, y)[..ii]
              {
                racks := racks + [Point(c * 3 + 2 + ii, y)];
              }
              y := y + 1;
            }
            if height < 2 {
              assert height == 1 && y == 1;
              assert RackRows(c, y) == [] == RackRows(c, height - 1);
            }
          }
      }
    }

    /** set_corridors: append the given corridors, or every grid cell (x-major,
        the order of the cartesian product) that passes the filter against the
        current racks and feeds. */
    method SetCorridors(input: Option<seq<Point>>)
      modifies this`corridors
      ensures input.Some? ==> corridors == old(corridors) + input.value
      ensures input.None? ==> corridors == old(corridors) + CorridorsAsWritten(GridCells(width, height), racks, feeds)
    {
      match input {
        case Some(x) =>
          corridors := corridors + x;
        case None =>
          ghost var base := corridors;
          assert base + CorridorsAsWritten(GridCells(0, height), racks, feeds) == base;
          for x := 0 to width
            invariant corridors == base + CorridorsAsWritten(GridCells(x, height), racks, feeds)
          {
            ScanColumn(x);
            CorridorsAsWrittenConcat(GridCells(x, height), ColumnCells(x, height), racks, feeds);
          }
      }
    }

    /** The cells (x, 0) .. (x, height - 1) of the product, filtered as written. */
    method ScanColumn(x: nat)
      modifies this`corridors
      ensures corridors == old(corridors) + CorridorsAsWritten(ColumnCells(x, height), racks, feeds)
    {
      for y := 0 to height
        invariant corridors == old(corridors) + CorridorsAsWritten(ColumnCells(x, y), racks, feeds)
      {
        var p := Point(x, y);
        assert (ColumnCells(x, y) + [p])[..|ColumnCells(x, y)|] == ColumnCells(x, y);
        if !(p in racks && p in feeds) {
          corridors := corridors + [p];
        }
      }
    }

    /** set_lookup_rack: select the rack of the replenishment being planned. */
    method SetLookupRack(rack: nat)
      modifies this`lookupRack
      ensures lookupRack == rack
    {
      lookupRack := rack;
    }

    /** set_rotation_mapping: install right, down, left, up for 0 .. 3,
        keeping any other entries. */
    method SetRotationMapping()
      modifies this`rotation
      ensures rotation == old(rotation) + DefaultRotation()
      ensures forall d :: 0 <= d < 4 ==> d in rotation && rotation[d] == DefaultRotation()[d]
    {
      rotation := rotation[0 := Point(1, 0)];
      rotation := rotation[1 := Point(0, 1)];
      rotation := rotation[2 := Point(-1, 0)];
      rotation := rotation[3 := Point(0, -1)];
    }
  }
}
