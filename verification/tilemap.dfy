/** The impassable part of the tile map: which tiles block in every
    direction, and the scan that merges such tiles into rectangles.

    The map is `width` tiles wide and `height` tiles high. Each row of the
    passability grid also has an entry for `x == width`, one column past the
    map, exactly as the grid is built. */
module TileMap {

  /** Whether a tile can be left towards each of the four directions
      (`true` = passable), as the host reports it. */
  datatype TileFlags = TileFlags(down: bool, left: bool, right: bool, up: bool)

  /** A tile collision object: the integer rectangle `[x1, x2) x [y1, y2)`. */
  datatype Rect = Rect(x1: int, x2: int, y1: int, y2: int)

  /** A JavaScript number slot that may still be `null`. Only `null` and `0`
      are falsy. */
  datatype Nullable = Null | Num(n: int)
  {
    predicate Truthy()
    {
      Num? && n != 0
    }
  }

  predicate Contains(r: Rect, x: int, y: int)
  {
    r.x1 <= x < r.x2 && r.y1 <= y < r.y2
  }

  /** The host's `isValid`: the tile lies on the map. */
  predicate IsValid(x: int, y: int, width: nat, height: nat)
  {
    0 <= x < width && 0 <= y < height
  }

  /** `height` rows with `width + 1` entries each. */
  predicate FlagGrid(flags: seq<seq<TileFlags>>, width: nat, height: nat)
  {
    |flags| == height && forall y :: 0 <= y < height ==> |flags[y]| == width + 1
  }

  /** The same shape for a grid of cell markers. */
  predicate CellGrid(g: seq<seq<int>>, width: nat, height: nat)
  {
    |g| == height && forall y :: 0 <= y < height ==> |g[y]| == width + 1
  }

  /** No direction leads off the tile. */
  predicate Impassable(t: TileFlags)
  {
    !t.down && !t.left && !t.right && !t.up
  }

  // ---------------------------------------------------------------------
  // Classification: 1 marks a collision tile, 0 a passable one.

  function ClassifyRow(row: seq<TileFlags>): (r: seq<int>)
    ensures |r| == |row|
    ensures forall x :: 0 <= x < |row| ==> r[x] == 0 || r[x] == 1
    ensures forall x :: 0 <= x < |row| ==> (r[x] == 1 <==> Impassable(row[x]))
  {
    if row == [] then []
    else
      var t := row[0];
      var hasPassabilityInSomeDirection := t.down || t.left || t.right || t.up;
      [if hasPassabilityInSomeDirection then 0 else 1] + ClassifyRow(row[1..])
  }

  function Classify(flags: seq<seq<TileFlags>>): (g: seq<seq<int>>)
    ensures |g| == |flags|
    ensures forall y :: 0 <= y < |flags| ==> |g[y]| == |flags[y]|
    ensures forall y, x :: 0 <= y < |flags| && 0 <= x < |flags[y]| ==>
      (g[y][x] == 0 || g[y][x] == 1) && (g[y][x] == 1 <==> Impassable(flags[y][x]))
  {
    if flags == [] then [] else [ClassifyRow(flags[0])] + Classify(flags[1..])
  }

  /** Every cell is a 0 or a 1, as classification leaves it. */
  predicate Binary(g: seq<seq<int>>, width: nat, height: nat)
    requires CellGrid(g, width, height)
  {
    forall y, x :: 0 <= y < height && 0 <= x <= width ==> g[y][x] == 0 || g[y][x] == 1
  }

  lemma ClassifyShape(flags: seq<seq<TileFlags>>, width: nat, height: nat)
    requires FlagGrid(flags, width, height)
    ensures CellGrid(Classify(flags), width, height)
    ensures Binary(Classify(flags), width, height)
  {
  }

  // ---------------------------------------------------------------------
  // Reference definitions of the rectangle grown from one cell.

  /** The first column at or after `x` where row `y` stops: the map edge or
      a passable cell. */
  function RowEnd(g: seq<seq<int>>, width: nat, height: nat, y: int, x: int): (r: int)
    requires CellGrid(g, width, height)
    requires 0 <= y < height && 0 <= x <= width
    ensures x <= r <= width
    ensures forall k :: x <= k < r ==> g[y][k] != 0
    ensures r == width || g[y][r] == 0
    decreases width - x
  {
    if x == width || g[y][x] == 0 then x else RowEnd(g, width, height, y, x + 1)
  }

  /** The first row at or after `y` whose run from column `x` does not stop
      at exactly `x2`. */
  function SpanEnd(g: seq<seq<int>>, width: nat, height: nat, x: int, x2: int, y: int): (r: int)
    requires CellGrid(g, width, height)
    requires 0 <= x <= width && 0 <= y <= height
    ensures y <= r <= height
    ensures forall k :: y <= k < r ==> RowEnd(g, width, height, k, x) == x2
    ensures r == height || RowEnd(g, width, height, r, x) != x2
    decreases height - y
  {
    if y < height && RowEnd(g, width, height, y, x) == x2 then SpanEnd(g, width, height, x, x2, y + 1)
    else y
  }

  /** The rectangle grown from cell `(x, y)`: as far right as the first row
      reaches, and down over every following row that stops at the same
      column. */
  function Grown(g: seq<seq<int>>, width: nat, height: nat, x: int, y: int): (r: Rect)
    requires CellGrid(g, width, height)
    requires 0 <= y < height && 0 <= x <= width
  {
    var x2 := RowEnd(g, width, height, y, x);
    Rect(x, x2, y, SpanEnd(g, width, height, x, x2, y + 1))
  }

  /** The grown rectangle is non-empty, on the map, and covers collision
      cells only. */
  lemma {:induction false} GrownCells(g: seq<seq<int>>, width: nat, height: nat, x: int, y: int)
    requires CellGrid(g, width, height)
    requires 0 <= y < height && 0 <= x < width && g[y][x] != 0
    ensures var r := Grown(g, width, height, x, y);
      && x < r.x2 <= width && y < r.y2 <= height
      && forall yy, xx :: Contains(r, xx, yy) ==> g[yy][xx] != 0
  {
    var r := Grown(g, width, height, x, y);
    forall yy, xx | Contains(r, xx, yy)
      ensures g[yy][xx] != 0
    {
      if yy > y {
        assert RowEnd(g, width, height, yy, x) == r.x2;
      }
    }
  }

  // ---------------------------------------------------------------------
  // The spanning loop and the marking loop.

  /** The spanning loop of `getTileCollisionObjects`: starting at a collision
      cell, span right along the first row, then keep adding rows while
      each one stops at the same column. */
  method SpanObject(g: seq<seq<int>>, width: nat, height: nat, x: int, y: int) returns (r: Rect)
    requires CellGrid(g, width, height)
    requires 0 <= y < height && 0 <= x < width && g[y][x] != 0
    ensures r == Grown(g, width, height, x, y)
  {
    ghost var firstEnd := RowEnd(g, width, height, y, x);
    var x2: Nullable := Null;
    var y2: Nullable := Null;
    var spanY := y;
    label spanObject: while spanY < height
      invariant y <= spanY <= height
      invariant spanY == y ==> x2 == Null
      invariant spanY > y ==> x2 == Num(firstEnd) && y2 == Num(spanY)
      invariant spanY > y ==>
        SpanEnd(g, width, height, x, firstEnd, y + 1) == SpanEnd(g, width, height, x, firstEnd, spanY)
    {
      var spanX := x;
      while spanX <= width
        invariant x <= spanX <= width
        invariant RowEnd(g, width, height, spanY, spanX) == RowEnd(g, width, height, spanY, x)
        invariant spanY == y ==> x2 == Null
        invariant spanY > y ==> x2 == Num(firstEnd) && y2 == Num(spanY)
        invariant spanY > y ==> spanX <= firstEnd + 1
      {
        if x2.Truthy() && spanX > x2.n {
          break spanObject;
        }
        if !IsValid(spanX, spanY, width, height) || g[spanY][spanX] == 0 {
          if !x2.Truthy() {
            x2 := Num(spanX);
          }
          if x2 == Num(spanX) {
            y2 := Num(spanY + 1);
          }
          if spanX < x2.n {
            break spanObject;
          }
          break;
        }
        spanX := spanX + 1;
      }
      spanY := spanY + 1;
    }
    r := Rect(x, x2.n, y, y2.n);
  }

  /** Whether the rectangle covers a cell still marked 1. */
  predicate CoversNewGround(g: seq<seq<int>>, width: nat, height: nat, r: Rect)
    requires CellGrid(g, width, height)
  {
    exists yy, xx :: 0 <= yy < height && 0 <= xx <= width && Contains(r, xx, yy) && g[yy][xx] == 1
  }

  /** The grid after every cell of `r` is marked 2 (covered). */
  function Mark(g: seq<seq<int>>, width: nat, height: nat, r: Rect): (h: seq<seq<int>>)
    requires CellGrid(g, width, height)
    ensures CellGrid(h, width, height)
    ensures forall yy, xx :: 0 <= yy < height && 0 <= xx <= width ==>
      h[yy][xx] == if Contains(r, xx, yy) then 2 else g[yy][xx]
  {
    seq(height, yy requires 0 <= yy < height =>
      seq(width + 1, xx requires 0 <= xx <= width => if Contains(r, xx, yy) then 2 else g[yy][xx]))
  }

  // ---------------------------------------------------------------------
  // The scan over all cells.

  ghost predicate Covered(objs: seq<Rect>, x: int, y: int)
  {
    exists i :: 0 <= i < |objs| && Contains(objs[i], x, y)
  }

  lemma CoveredAppend(objs: seq<Rect>, r: Rect, x: int, y: int)
    ensures Covered(objs + [r], x, y) <==> Covered(objs, x, y) || Contains(r, x, y)
  {
    if Covered(objs, x, y) {
      var i :| 0 <= i < |objs| && Contains(objs[i], x, y);
      assert (objs + [r])[i] == objs[i];
    }
    if Contains(r, x, y) {
      assert (objs + [r])[|objs|] == r;
    }
  }

  /** A rectangle on the map, non-empty, over collision cells of `g` only. */
  ghost predicate OverCollision(g: seq<seq<int>>, width: nat, height: nat, r: Rect)
    requires CellGrid(g, width, height)
  {
    && 0 <= r.x1 < r.x2 <= width && 0 <= r.y1 < r.y2 <= height
    && forall yy, xx :: Contains(r, xx, yy) ==> g[yy][xx] != 0
  }

  /** Object `i` covers a collision cell that no earlier object covers. */
  ghost predicate NewGround(g: seq<seq<int>>, width: nat, height: nat, objs: seq<Rect>, i: int)
    requires CellGrid(g, width, height)
    requires 0 <= i < |objs|
  {
    exists yy, xx :: 0 <= yy < height && 0 <= xx <= width
      && Contains(objs[i], xx, yy) && g[yy][xx] == 1 && !Covered(objs[..i], xx, yy)
  }

  /** How the working grid `g` relates to the classified grid `g0` and the
      objects found so far: zeros stay zeros, and a collision cell is marked 2
      exactly when some object covers it. */
  ghost predicate ScanState(g0: seq<seq<int>>, g: seq<seq<int>>, width: nat, height: nat, objs: seq<Rect>)
    requires CellGrid(g0, width, height)
  {
    && CellGrid(g, width, height)
    && (forall yy, xx :: 0 <= yy < height && 0 <= xx <= width ==>
         && (g0[yy][xx] == 0 ==> g[yy][xx] == 0)
         && (g0[yy][xx] == 1 ==> (g[yy][xx] == 1 || g[yy][xx] == 2))
         && (g0[yy][xx] == 1 ==> (g[yy][xx] == 2 <==> Covered(objs, xx, yy))))
    && (forall i :: 0 <= i < |objs| ==> OverCollision(g0, width, height, objs[i]))
    && (forall i :: 0 <= i < |objs| ==> NewGround(g0, width, height, objs, i))
  }

  /** One step of the scan keeps `ScanState`, and marks the cell it grew
      from. */
  lemma {:induction false} ScanStep(g0: seq<seq<int>>, g: seq<seq<int>>, width: nat, height: nat,
                                    objs: seq<Rect>, x: int, y: int)
    requires CellGrid(g0, width, height) && Binary(g0, width, height)
    requires ScanState(g0, g, width, height, objs)
    requires 0 <= y < height && 0 <= x < width && g[y][x] != 0
    ensures var r := Grown(g, width, height, x, y);
      var objs' := if CoversNewGround(g, width, height, r) then objs + [r] else objs;
      && ScanState(g0, Mark(g, width, height, r), width, height, objs')
      && Contains(r, x, y)
  {
    var r := Grown(g, width, height, x, y);
    GrownCells(g, width, height, x, y);
    var h := Mark(g, width, height, r);
    assert OverCollision(g0, width, height, r) by {
      forall yy, xx | Contains(r, xx, yy)
        ensures g0[yy][xx] != 0
      {
        assert g[yy][xx] != 0;
      }
    }
    if CoversNewGround(g, width, height, r) {
      var objs' := objs + [r];
      forall yy, xx | 0 <= yy < height && 0 <= xx <= width
        ensures g0[yy][xx] == 1 ==> (h[yy][xx] == 2 <==> Covered(objs', xx, yy))
      {
        CoveredAppend(objs, r, xx, yy);
      }
      forall i | 0 <= i < |objs'|
        ensures NewGround(g0, width, height, objs', i)
      {
        if i < |objs| {
          assert objs'[..i] == objs[..i];
          assert NewGround(g0, width, height, objs, i);
          var yy, xx :| 0 <= yy < height && 0 <= xx <= width
            && Contains(objs[i], xx, yy) && g0[yy][xx] == 1 && !Covered(objs[..i], xx, yy);
          assert objs'[i] == objs[i];
        } else {
          var yy, xx :| 0 <= yy < height && 0 <= xx <= width && Contains(r, xx, yy) && g[yy][xx] == 1;
          assert objs'[..i] == objs;
          assert g0[yy][xx] == 1;
        }
      }
      assert ScanState(g0, h, width, height, objs');
    } else {
      forall yy, xx | 0 <= yy < height && 0 <= xx <= width && Contains(r, xx, yy)
        ensures g[yy][xx] == 2
      {
      }
    }
  }

  /** `getTileCollisionObjects`: scan the map row by row; from every cell not
      yet known to be passable grow a rectangle, mark its cells as covered,
      and keep it when it covered a cell that was not covered before. */
  method GetTileCollisionObjects(g0: seq<seq<int>>, width: nat, height: nat) returns (objs: seq<Rect>)
    requires CellGrid(g0, width, height) && Binary(g0, width, height)
    ensures forall i :: 0 <= i < |objs| ==> OverCollision(g0, width, height, objs[i])
    ensures forall yy, xx :: 0 <= yy < height && 0 <= xx < width && g0[yy][xx] == 1 ==>
      Covered(objs, xx, yy)
    ensures forall i :: 0 <= i < |objs| ==> NewGround(g0, width, height, objs, i)
  {
    var g := g0;
    objs := [];
    var y := 0;
    while y < height
      invariant 0 <= y <= height
      invariant ScanState(g0, g, width, height, objs)
      invariant forall yy, xx :: 0 <= yy < y && 0 <= xx < width ==> g[yy][xx] != 1
    {
      var x := 0;
      while x < width
        invariant 0 <= x <= width
        invariant ScanState(g0, g, width, height, objs)
        invariant forall yy, xx :: 0 <= yy < y && 0 <= xx < width ==> g[yy][xx] != 1
        invariant forall xx :: 0 <= xx < x ==> g[y][xx] != 1
      {
        if g[y][x] != 0 {
          ScanStep(g0, g, width, height, objs, x, y);
          var r := SpanObject(g, width, height, x, y);
          var coveredNewGround := CoversNewGround(g, width, height, r);
          g := Mark(g, width, height, r);
          if coveredNewGround {
            objs := objs + [r];
          }
        }
        x := x + 1;
      }
      y := y + 1;
    }
  }
}
