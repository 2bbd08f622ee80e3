/** The map's full list of tile collision objects, the per-cell grid that
    indexes them, and the box query that reads the grid.

    Besides the trimmed rectangles, the list holds one-way borders: a
    zero-thickness unit segment on each edge that a partly passable tile
    cannot be left through. Objects are referred to by their position in the
    list, as the source refers to them by identity. */
module CollisionGrid {
  import opened Constants
  import opened Geometry
  import opened JsMath
  import opened Seqs
  import opened TileMap
  import opened TileTrim

  // ---------------------------------------------------------------------
  // One-way borders.

  /** Whether the tile can be left towards cardinal `d`. */
  predicate Passable(t: TileFlags, d: int)
  {
    if d == DOWN then t.down
    else if d == LEFT then t.left
    else if d == RIGHT then t.right
    else if d == UP then t.up
    else false
  }

  /** The edge of tile `(x, y)` that faces `d`, as a zero-thickness segment:
      a side of the tile's unit square, on the side `d` points to. */
  function Edge(x: int, y: int, d: int): (s: Rect)
    requires IsCardinal(d)
    ensures x <= s.x1 <= s.x2 <= x + 1 && y <= s.y1 <= s.y2 <= y + 1
    ensures s.x2 - s.x1 == (if d == DOWN || d == UP then 1 else 0)
    ensures s.y2 - s.y1 == (if d == LEFT || d == RIGHT then 1 else 0)
    ensures d == DOWN ==> s.y1 == y + 1
    ensures d == LEFT ==> s.x2 == x
    ensures d == RIGHT ==> s.x1 == x + 1
    ensures d == UP ==> s.y2 == y
  {
    if d == DOWN then Rect(x, x + 1, y + 1, y + 1)
    else if d == LEFT then Rect(x, x, y, y + 1)
    else if d == RIGHT then Rect(x + 1, x + 1, y, y + 1)
    else Rect(x, x + 1, y, y)
  }

  /** The segments one tile contributes, in the order 2, 4, 6, 8 in which
      the tile's direction keys are listed. */
  function TileBorders(x: int, y: int, t: TileFlags): (r: seq<Rect>)
    // A tile closed on all four sides is left to the rectangles.
    ensures Impassable(t) ==> r == []
    ensures !Impassable(t) ==>
      forall d :: IsCardinal(d) ==> (Edge(x, y, d) in r <==> !Passable(t, d))
    ensures forall s :: s in r ==>
      s == Edge(x, y, DOWN) || s == Edge(x, y, LEFT) || s == Edge(x, y, RIGHT) || s == Edge(x, y, UP)
    ensures |r| <= 3
  {
    if !t.down && !t.left && !t.right && !t.up then []
    else
      (if !t.down then [Edge(x, y, DOWN)] else [])
      + (if !t.left then [Edge(x, y, LEFT)] else [])
      + (if !t.right then [Edge(x, y, RIGHT)] else [])
      + (if !t.up then [Edge(x, y, UP)] else [])
  }

  /** A tile lists each of its borders once. */
  lemma TileBordersNoDup(x: int, y: int, t: TileFlags)
    ensures NoDup(TileBorders(x, y, t))
  {
    var r := TileBorders(x, y, t);
    forall i, j | 0 <= i < j < |r|
      ensures r[i] != r[j]
    {
      EdgesDistinct(x, y);
    }
  }

  /** The four edges of a tile are four different segments. */
  lemma EdgesDistinct(x: int, y: int)
    ensures forall d, e :: IsCardinal(d) && IsCardinal(e) && d != e ==> Edge(x, y, d) != Edge(x, y, e)
  {
  }

  /** The borders of the tiles of row `y`, left to right. */
  function RowBorders(row: seq<TileFlags>, width: nat, y: int): seq<Rect>
    requires |row| >= width
  {
    Flatten(seq(width, x requires 0 <= x < width => TileBorders(x, y, row[x])))
  }

  /** `getTileBorderCollisionObjects`: the borders of every tile, row by
      row. */
  function BorderObjects(flags: seq<seq<TileFlags>>, width: nat, height: nat): seq<Rect>
    requires FlagGrid(flags, width, height)
  {
    Flatten(seq(height, y requires 0 <= y < height => RowBorders(flags[y], width, y)))
  }

  /** A row's list holds exactly the borders of the row's tiles. */
  lemma RowBordersMembers(row: seq<TileFlags>, width: nat, y: int, s: Rect)
    requires |row| >= width
    ensures s in RowBorders(row, width, y) <==> exists x :: 0 <= x < width && s in TileBorders(x, y, row[x])
  {
    var tiles := seq(width, x requires 0 <= x < width => TileBorders(x, y, row[x]));
    FlattenMembers(tiles, s);
    if exists x :: 0 <= x < width && s in TileBorders(x, y, row[x]) {
      var x :| 0 <= x < width && s in TileBorders(x, y, row[x]);
      assert s in tiles[x];
    }
  }

  /** Everything in the list is a border of some tile of the map. */
  lemma BorderObjectsSound(flags: seq<seq<TileFlags>>, width: nat, height: nat, s: Rect)
    requires FlagGrid(flags, width, height)
    requires s in BorderObjects(flags, width, height)
    ensures exists y, x :: 0 <= y < height && 0 <= x < width && s in TileBorders(x, y, flags[y][x])
  {
    var rows := seq(height, y requires 0 <= y < height => RowBorders(flags[y], width, y));
    FlattenMembers(rows, s);
    var y :| 0 <= y < height && s in rows[y];
    RowBordersMembers(flags[y], width, y, s);
    var x :| 0 <= x < width && s in TileBorders(x, y, flags[y][x]);
  }

  /** Every border of every tile of the map is in the list. */
  lemma BorderObjectsComplete(flags: seq<seq<TileFlags>>, width: nat, height: nat, x: int, y: int, s: Rect)
    requires FlagGrid(flags, width, height)
    requires 0 <= y < height && 0 <= x < width && s in TileBorders(x, y, flags[y][x])
    ensures s in BorderObjects(flags, width, height)
  {
    var rows := seq(height, y requires 0 <= y < height => RowBorders(flags[y], width, y));
    RowBordersMembers(flags[y], width, y, s);
    assert s in rows[y];
    FlattenMembers(rows, s);
  }

  /** A segment covers no cell: its interior is empty. */
  lemma BordersCoverNothing(flags: seq<seq<TileFlags>>, width: nat, height: nat, x: int, y: int)
    requires FlagGrid(flags, width, height)
    ensures !Covered(BorderObjects(flags, width, height), x, y)
  {
    var b := BorderObjects(flags, width, height);
    forall i | 0 <= i < |b|
      ensures !Contains(b[i], x, y)
    {
      BorderObjectsSound(flags, width, height, b[i]);
    }
  }

  // ---------------------------------------------------------------------
  // The full list.

  /** `setupTilemapCollisionObjects`: the trimmed rectangles over the
      collision tiles, followed by the one-way borders. */
  method TilemapCollisionObjects(flags: seq<seq<TileFlags>>, width: nat, height: nat)
    returns (objs: seq<Rect>)
    requires FlagGrid(flags, width, height)
    // A cell lies inside some object exactly when it is a tile of the map
    // that cannot be left in any direction.
    ensures forall x, y :: Covered(objs, x, y) <==>
      0 <= y < height && 0 <= x < width && Impassable(flags[y][x])
    ensures forall i :: 0 <= i < |objs| ==> OnGrid(objs[i], width, height)
  {
    ClassifyShape(flags, width, height);
    var g := Classify(flags);
    var tiles := GetTileCollisionObjects(g, width, height);
    var trimmed := TrimObjects(tiles);
    var borders := BorderObjects(flags, width, height);
    objs := trimmed + borders;
    forall x, y
      ensures Covered(objs, x, y) <==> 0 <= y < height && 0 <= x < width && Impassable(flags[y][x])
    {
      CoveredConcat(trimmed, borders, x, y);
      BordersCoverNothing(flags, width, height, x, y);
      if Covered(tiles, x, y) {
        var i :| 0 <= i < |tiles| && Contains(tiles[i], x, y);
        assert OverCollision(g, width, height, tiles[i]);
      }
    }
    forall i | 0 <= i < |objs|
      ensures OnGrid(objs[i], width, height)
    {
      if i < |trimmed| {
        assert OverCollision(g, width, height, tiles[i]);
      } else {
        assert objs[i] in borders;
        BorderObjectsSound(flags, width, height, objs[i]);
      }
    }
  }

  /** Corners in order, within the `(width + 1) x (height + 1)` grid. */
  predicate OnGrid(o: Rect, width: nat, height: nat)
  {
    0 <= o.x1 <= o.x2 <= width + 1 && 0 <= o.y1 <= o.y2 <= height + 1
  }

  lemma CoveredConcat(a: seq<Rect>, b: seq<Rect>, x: int, y: int)
    ensures Covered(a + b, x, y) <==> Covered(a, x, y) || Covered(b, x, y)
  {
    var c := a + b;
    if Covered(c, x, y) {
      var i :| 0 <= i < |c| && Contains(c[i], x, y);
      if i >= |a| {
        assert c[i] == b[i - |a|];
      }
    }
    if Covered(b, x, y) {
      var i :| 0 <= i < |b| && Contains(b[i], x, y);
      assert c[|a| + i] == b[i];
    }
    if Covered(a, x, y) {
      var i :| 0 <= i < |a| && Contains(a[i], x, y);
      assert c[i] == a[i];
    }
  }

  // ---------------------------------------------------------------------
  // The grid.

  /** Object `o` reaches into the closed neighbourhood `[x, x+1] x [y, y+1]`
      of cell `(x, y)`. */
  predicate Near(o: Rect, x: int, y: int)
  {
    o.x1 <= x + 1 && o.x2 >= x && o.y1 <= y + 1 && o.y2 >= y
  }

  /** The positions `k ..` of objects near cell `(x, y)`, in order. */
  function NearObjects(objs: seq<Rect>, x: int, y: int, k: nat): (r: seq<nat>)
    requires k <= |objs|
    ensures forall j :: j in r <==> k <= j < |objs| && Near(objs[j], x, y)
    ensures NoDup(r)
    decreases |objs| - k
  {
    if k == |objs| then []
    else
      var rest := NearObjects(objs, x, y, k + 1);
      if Near(objs[k], x, y) then
        assert k !in rest;
        NoDupConcat([k], rest);
        [k] + rest
      else rest
  }

  /** `setupTilemapCollisionGrid`: for each of the `(width + 1) x
      (height + 1)` cells, the objects near it. */
  function BuildGrid(objs: seq<Rect>, width: nat, height: nat): (grid: seq<seq<seq<nat>>>)
    ensures IsGridOf(grid, objs, width, height)
  {
    seq(height + 1, y requires 0 <= y <= height =>
      seq(width + 1, x requires 0 <= x <= width => NearObjects(objs, x, y, 0)))
  }

  /** `grid` is the grid of `objs`: every cell lists, once each, exactly the
      objects near it. */
  ghost predicate IsGridOf(grid: seq<seq<seq<nat>>>, objs: seq<Rect>, width: nat, height: nat)
  {
    && |grid| == height + 1
    && (forall y :: 0 <= y <= height ==> |grid[y]| == width + 1)
    && (forall y, x :: 0 <= y <= height && 0 <= x <= width ==> NoDup(grid[y][x]))
    && (forall y, x, j :: 0 <= y <= height && 0 <= x <= width ==>
         (j in grid[y][x] <==> 0 <= j < |objs| && Near(objs[j], x, y)))
  }

  // ---------------------------------------------------------------------
  // The box query.

  /** Object `o` meets the query box, edges included. */
  predicate Touches(o: Rect, q: Box)
  {
    o.x1 as real <= q.x2 && o.x2 as real >= q.x1 && o.y1 as real <= q.y2 && o.y2 as real >= q.y1
  }

  /** The cell range the query scans: whole cells under the box, clamped to
      the grid. */
  function MinCol(q: Box): int { MaxInt(0, Floor(q.x1)) }
  function MaxCol(q: Box, width: nat): int { MinInt(Ceil(q.x2), width + 1) }
  function MinRow(q: Box): int { MaxInt(0, Floor(q.y1)) }
  function MaxRow(q: Box, height: nat): int { MinInt(Ceil(q.y2), height + 1) }

  /** Object `o` is near some cell of columns `[x0, x1)` and rows `[y0, y1)`. */
  ghost predicate NearIn(o: Rect, x0: int, x1: int, y0: int, y1: int)
  {
    exists yy, xx :: y0 <= yy < y1 && x0 <= xx < x1 && Near(o, xx, yy)
  }

  /** The objects of one cell that meet the box and are not yet listed. */
  function FreshTouching(cell: seq<nat>, found: seq<nat>, objs: seq<Rect>, q: Box): (r: seq<nat>)
    requires forall j :: j in cell ==> j < |objs|
    ensures forall j :: j in r <==> j in cell && j !in found && Touches(objs[j], q)
    ensures NoDup(cell) ==> NoDup(r)
  {
    if cell == [] then []
    else
      assert forall j :: j in cell[1..] ==> j in cell;
      assert cell[0] in cell;
      var rest := FreshTouching(cell[1..], found, objs, q);
      if cell[0] !in found && Touches(objs[cell[0]], q) then
        assert NoDup(cell) ==> NoDup([cell[0]] + rest) by {
          if NoDup(cell) {
            assert NoDup(cell[1..]);
            assert cell[0] !in cell[1..];
            NoDupConcat([cell[0]], rest);
          }
        }
        [cell[0]] + rest
      else
        assert NoDup(cell) ==> NoDup(cell[1..]);
        rest
  }

  lemma NearInRow(o: Rect, x0: int, x: int, y: int)
    ensures NearIn(o, x0, x + 1, y, y + 1) <==> NearIn(o, x0, x, y, y + 1) || (x0 <= x && Near(o, x, y))
  {
    if NearIn(o, x0, x + 1, y, y + 1) {
      var yy, xx :| y <= yy < y + 1 && x0 <= xx < x + 1 && Near(o, xx, yy);
      if xx < x {
        assert NearIn(o, x0, x, y, y + 1);
      }
    }
    if x0 <= x && Near(o, x, y) {
      assert y <= y < y + 1 && x0 <= x < x + 1 && Near(o, x, y);
    }
    if NearIn(o, x0, x, y, y + 1) {
      var yy, xx :| y <= yy < y + 1 && x0 <= xx < x && Near(o, xx, yy);
      assert y <= yy < y + 1 && x0 <= xx < x + 1;
    }
  }

  lemma NearInRows(o: Rect, x0: int, x1: int, y0: int, y: int)
    requires y0 <= y
    ensures NearIn(o, x0, x1, y0, y + 1) <==> NearIn(o, x0, x1, y0, y) || NearIn(o, x0, x1, y, y + 1)
  {
    if NearIn(o, x0, x1, y0, y + 1) {
      var yy, xx :| y0 <= yy < y + 1 && x0 <= xx < x1 && Near(o, xx, yy);
      if yy < y {
        assert NearIn(o, x0, x1, y0, y);
      } else {
        assert NearIn(o, x0, x1, y, y + 1);
      }
    }
    if NearIn(o, x0, x1, y0, y) {
      var yy, xx :| y0 <= yy < y && x0 <= xx < x1 && Near(o, xx, yy);
      assert y0 <= yy < y + 1;
    }
    if NearIn(o, x0, x1, y, y + 1) {
      var yy, xx :| y <= yy < y + 1 && x0 <= xx < x1 && Near(o, xx, yy);
      assert y0 <= yy < y + 1;
    }
  }

  /** `collisionsInBoundingBox`: visit the grid cells under the box, clamped
      to the grid, and collect each object that meets the box the first time
      it is seen. */
  method CollisionsInBoundingBox(objs: seq<Rect>, grid: seq<seq<seq<nat>>>, width: nat, height: nat, q: Box)
    returns (found: seq<nat>)
    requires IsGridOf(grid, objs, width, height)
    ensures NoDup(found)
    ensures forall j :: j in found ==> 0 <= j < |objs| && Touches(objs[j], q)
    ensures forall j :: j in found <==>
      (0 <= j < |objs| && Touches(objs[j], q)
       && NearIn(objs[j], MinCol(q), MaxCol(q, width), MinRow(q), MaxRow(q, height)))
  {
    found := [];
    var minX := MaxInt(0, Floor(q.x1));
    var maxX := MinInt(Ceil(q.x2), width + 1);
    var minY := MaxInt(0, Floor(q.y1));
    var maxY := MinInt(Ceil(q.y2), height + 1);
    var y := minY;
    while y < maxY
      invariant y == minY || minY <= y <= maxY
      invariant NoDup(found)
      invariant forall j :: j in found <==>
        (0 <= j < |objs| && Touches(objs[j], q) && NearIn(objs[j], minX, maxX, minY, y))
    {
      var x := minX;
      while x < maxX
        invariant x == minX || minX <= x <= maxX
        invariant NoDup(found)
        invariant forall j :: j in found <==>
          (0 <= j < |objs| && Touches(objs[j], q)
           && (NearIn(objs[j], minX, maxX, minY, y) || NearIn(objs[j], minX, x, y, y + 1)))
      {
        GridCell(grid, objs, width, height, x, y);
        var uniqueCollisionObjectsAtPos := FreshTouching(grid[y][x], found, objs, q);
        forall j | 0 <= j < |objs|
          ensures NearIn(objs[j], minX, x + 1, y, y + 1) <==>
            NearIn(objs[j], minX, x, y, y + 1) || Near(objs[j], x, y)
        {
          NearInRow(objs[j], minX, x, y);
        }
        if |uniqueCollisionObjectsAtPos| != 0 {
          NoDupConcat(found, uniqueCollisionObjectsAtPos);
          found := found + uniqueCollisionObjectsAtPos;
        }
        x := x + 1;
      }
      forall j | 0 <= j < |objs|
        ensures NearIn(objs[j], minX, x, y, y + 1) <==> NearIn(objs[j], minX, maxX, y, y + 1)
      {
        if minX >= maxX {
          EmptyRange(objs[j], minX, x, y, y + 1);
          EmptyRange(objs[j], minX, maxX, y, y + 1);
        }
      }
      forall j | 0 <= j < |objs|
        ensures NearIn(objs[j], minX, maxX, minY, y + 1) <==>
          NearIn(objs[j], minX, maxX, minY, y) || NearIn(objs[j], minX, maxX, y, y + 1)
      {
        NearInRows(objs[j], minX, maxX, minY, y);
      }
      y := y + 1;
    }
    if minY >= maxY {
      forall j | 0 <= j < |objs|
        ensures !NearIn(objs[j], minX, maxX, minY, maxY) && !NearIn(objs[j], minX, maxX, minY, y)
      {
        EmptyRange(objs[j], minX, maxX, minY, maxY);
        EmptyRange(objs[j], minX, maxX, minY, y);
      }
    }
  }

  /** For a query box of positive area that reaches onto the grid, the
      clamped scan visits a cell near every object of the map that meets the
      box, so the query finds all of them. */
  lemma {:induction false} QueryFindsAllTouching(o: Rect, q: Box, width: nat, height: nat)
    requires OnGrid(o, width, height)
    requires q.x1 < q.x2 && q.y1 < q.y2
    requires 0.0 < q.x2 && q.x1 < (width + 1) as real
    requires 0.0 < q.y2 && q.y1 < (height + 1) as real
    ensures Touches(o, q) ==> NearIn(o, MinCol(q), MaxCol(q, width), MinRow(q), MaxRow(q, height))
  {
    if Touches(o, q) {
      var x := MaxInt(MinCol(q), o.x1 - 1);
      var y := MaxInt(MinRow(q), o.y1 - 1);
      assert Floor(q.x1) < Ceil(q.x2) && Floor(q.y1) < Ceil(q.y2);
      assert MinCol(q) <= x < MaxCol(q, width) && Near(o, x, y);
      assert MinRow(q) <= y < MaxRow(q, height);
    }
  }

  /** A query box that ends at or before the map's left side scans no
      column at all, so an object along that side that the box touches is
      not found. */
  lemma QueryMissesFlushLeft(o: Rect, q: Box, width: nat, height: nat)
    requires OnGrid(o, width, height) && q.x2 <= 0.0
    ensures !NearIn(o, MinCol(q), MaxCol(q, width), MinRow(q), MaxRow(q, height))
    ensures o.x1 == 0 && q.x1 <= 0.0 && q.x2 == 0.0 && o.y1 as real <= q.y2 && o.y2 as real >= q.y1 ==> Touches(o, q)
  {
    assert MaxCol(q, width) <= 0 <= MinCol(q);
  }

  lemma GridCell(grid: seq<seq<seq<nat>>>, objs: seq<Rect>, width: nat, height: nat, x: int, y: int)
    requires IsGridOf(grid, objs, width, height)
    requires 0 <= y <= height && 0 <= x <= width
    ensures NoDup(grid[y][x])
    ensures forall j :: j in grid[y][x] <==> 0 <= j < |objs| && Near(objs[j], x, y)
  {
  }

  lemma EmptyRange(o: Rect, x0: int, x1: int, y0: int, y1: int)
    requires x1 <= x0 || y1 <= y0
    ensures !NearIn(o, x0, x1, y0, y1)
  {
  }
}
