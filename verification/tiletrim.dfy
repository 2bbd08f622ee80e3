/** Trimming tile collision objects so that fewer of them overlap: an object
    loses a leading or a trailing run of columns when every cell of those
    columns already lies in some other object.

    The objects are trimmed in order and in place, so the overlap test for
    object `i` sees objects `0 .. i-1` already trimmed and the later ones as
    they came from the scan. Objects are told apart by position, as the
    source tells them apart by identity. */
module TileTrim {
  import opened TileMap

  /** Some object other than the `i`-th covers cell `(x, y)`. */
  predicate OtherCovers(objs: seq<Rect>, i: int, x: int, y: int)
  {
    exists j :: 0 <= j < |objs| && j != i && Contains(objs[j], x, y)
  }

  /** Every cell of column `x` in the rows of `a` lies in another object. */
  ghost predicate ColumnOverlapped(objs: seq<Rect>, i: int, a: Rect, x: int)
  {
    forall y :: a.y1 <= y < a.y2 ==> OtherCovers(objs, i, x, y)
  }

  /** The inner scan down one column, stopping at the first cell that no
      other object covers. */
  function ColumnScan(objs: seq<Rect>, i: int, a: Rect, x: int, y: int): (r: bool)
    requires a.y1 <= y
    ensures r <==> forall k :: y <= k < a.y2 ==> OtherCovers(objs, i, x, k)
    decreases a.y2 - y
  {
    if y >= a.y2 then true
    else if !OtherCovers(objs, i, x, y) then false
    else ColumnScan(objs, i, a, x, y + 1)
  }

  /** How many columns in `[lo, hi)` are overlapped. */
  ghost function OverlappedCount(objs: seq<Rect>, i: int, a: Rect, lo: int, hi: int): (n: int)
    requires lo <= hi
    decreases hi - lo
  {
    if lo == hi then 0
    else OverlappedCount(objs, i, a, lo, hi - 1) + (if ColumnOverlapped(objs, i, a, hi - 1) then 1 else 0)
  }

  /** A count that reaches the number of columns means every column
      counted. */
  lemma {:induction false} OverlappedCountFull(objs: seq<Rect>, i: int, a: Rect, lo: int, hi: int)
    requires lo <= hi
    ensures OverlappedCount(objs, i, a, lo, hi) <= hi - lo
    ensures OverlappedCount(objs, i, a, lo, hi) == hi - lo ==>
      forall x :: lo <= x < hi ==> ColumnOverlapped(objs, i, a, x)
    decreases hi - lo
  {
    if lo < hi {
      OverlappedCountFull(objs, i, a, lo, hi - 1);
    }
  }

  /** A rectangle with its corners in order, on the non-negative side of the
      map. */
  predicate Ordered(r: Rect)
  {
    0 <= r.x1 <= r.x2 && r.y1 <= r.y2
  }

  /** Trimming one object: scan its columns left to right, tracking the run
      of fully overlapped columns in `overlapX1 .. overlapX2`. If the first
      column starts such a run, the object's left edge moves to where the run
      ends; if such a run reaches the right edge, the right edge moves back
      to where the run started. An unset marker and a marker at column 0 both
      read as "not started", as in the source. */
  method TrimObject(objs: seq<Rect>, i: int) returns (r: Rect)
    requires 0 <= i < |objs| && Ordered(objs[i])
    ensures r.y1 == objs[i].y1 && r.y2 == objs[i].y2
    ensures objs[i].x1 <= r.x1 <= r.x2 <= objs[i].x2
    ensures r.x1 == objs[i].x1 || r.x2 == objs[i].x2
    // Only overlapped columns are cut away.
    ensures forall x :: objs[i].x1 <= x < objs[i].x2 && !(r.x1 <= x < r.x2) ==>
      ColumnOverlapped(objs, i, objs[i], x)
  {
    var a := objs[i];
    var x1 := a.x1;
    var x2 := a.x2;
    var overlapX1: Nullable := Null;
    var overlapX2: Nullable := Null;
    var spanX := a.x1;
    while spanX < x2
      invariant a.x1 <= spanX <= a.x2 && x1 == a.x1 && x2 == a.x2
      invariant overlapX1.Num? <==> overlapX2.Num?
      invariant overlapX1.Num? ==> a.x1 <= overlapX1.n < overlapX2.n <= spanX
      invariant overlapX1.Num? ==>
        overlapX2.n - overlapX1.n == OverlappedCount(objs, i, a, overlapX1.n, spanX)
      invariant overlapX1.Truthy() && overlapX1.n == a.x1 ==>
        forall x :: a.x1 <= x < spanX ==> ColumnOverlapped(objs, i, a, x)
    {
      var entireColumnOverlapped := ColumnScan(objs, i, a, spanX, a.y1);
      assert entireColumnOverlapped == ColumnOverlapped(objs, i, a, spanX);
      if entireColumnOverlapped && !overlapX1.Truthy() {
        overlapX1 := Num(spanX);
        overlapX2 := Num(spanX + 1);
      } else if entireColumnOverlapped && overlapX2.Truthy() {
        overlapX2 := Num(overlapX2.n + 1);
      } else if !entireColumnOverlapped && overlapX1.Truthy() && overlapX1.n == x1 {
        OverlappedCountFull(objs, i, a, overlapX1.n, spanX);
        x1 := overlapX2.n;
        break;
      }
      if overlapX2 == Num(x2) {
        OverlappedCountFull(objs, i, a, overlapX1.n, spanX + 1);
        x2 := overlapX1.n;
        break;
      }
      spanX := spanX + 1;
    }
    r := Rect(x1, x2, a.y1, a.y2);
  }

  /** Replacing object `i` by a trimmed copy that keeps its rows and loses
      only overlapped columns leaves every cell exactly as covered as
      before. */
  lemma TrimKeepsCoverage(objs: seq<Rect>, i: int, t: Rect, x: int, y: int)
    requires 0 <= i < |objs|
    requires t.y1 == objs[i].y1 && t.y2 == objs[i].y2
    requires objs[i].x1 <= t.x1 && t.x2 <= objs[i].x2
    requires forall c :: objs[i].x1 <= c < objs[i].x2 && !(t.x1 <= c < t.x2) ==>
      ColumnOverlapped(objs, i, objs[i], c)
    ensures Covered(objs[i := t], x, y) <==> Covered(objs, x, y)
  {
    var objs' := objs[i := t];
    if Covered(objs, x, y) {
      var j :| 0 <= j < |objs| && Contains(objs[j], x, y);
      if j == i && !Contains(t, x, y) {
        assert ColumnOverlapped(objs, i, objs[i], x);
        assert OtherCovers(objs, i, x, y);
        var k :| 0 <= k < |objs| && k != i && Contains(objs[k], x, y);
        assert objs'[k] == objs[k];
      } else {
        assert Contains(objs'[j], x, y);
      }
    }
    if Covered(objs', x, y) {
      var j :| 0 <= j < |objs'| && Contains(objs'[j], x, y);
      assert Contains(objs[j], x, y);
    }
  }

  /** `getTrimmedTileCollisionObjects`: trim every object in turn, each one
      against the list as it stands. */
  method TrimObjects(objs0: seq<Rect>) returns (objs: seq<Rect>)
    requires forall i :: 0 <= i < |objs0| ==> Ordered(objs0[i])
    ensures |objs| == |objs0|
    ensures forall i :: 0 <= i < |objs| ==>
      && objs[i].y1 == objs0[i].y1 && objs[i].y2 == objs0[i].y2
      && objs0[i].x1 <= objs[i].x1 <= objs[i].x2 <= objs0[i].x2
    // Trimming never uncovers a cell nor covers a new one.
    ensures forall x, y :: Covered(objs, x, y) <==> Covered(objs0, x, y)
  {
    objs := objs0;
    var i := 0;
    while i < |objs|
      invariant 0 <= i <= |objs| == |objs0|
      invariant forall k :: 0 <= k < |objs| ==> Ordered(objs[k])
      invariant forall k :: 0 <= k < |objs| ==>
        && objs[k].y1 == objs0[k].y1 && objs[k].y2 == objs0[k].y2
        && objs0[k].x1 <= objs[k].x1 <= objs[k].x2 <= objs0[k].x2
      invariant forall k :: i <= k < |objs| ==> objs[k] == objs0[k]
      invariant forall x, y :: Covered(objs, x, y) <==> Covered(objs0, x, y)
    {
      var trimmed := TrimObject(objs, i);
      forall x, y
        ensures Covered(objs[i := trimmed], x, y) <==> Covered(objs, x, y)
      {
        TrimKeepsCoverage(objs, i, trimmed, x, y);
      }
      objs := objs[i := trimmed];
      i := i + 1;
    }
  }
}
