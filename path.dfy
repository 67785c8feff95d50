/**
 * Turning a drawn path of car positions into track tiles.  The player drags
 * through edge middles of tiles; two consecutive points on the same tile's
 * boundary determine which Straight or Turn goes on that tile.
 */
module Paths {
  import opened Wrappers
  import opened Dihedral
  import opened Tiles
  import opened CarCoords

  /** The nearest integer to `x / 4`, or nothing when `x` is exactly halfway
      between two multiples of 4. */
  function DivFourRound(x: int): (r: Option<int>)
    ensures r.None? <==> x % 4 == 2
    ensures r.Some? ==> -1 <= x - 4 * r.value <= 1
  {
    if x % 4 == 2 then None else Some((x + 1) / 4)
  }

  /** `p` is the middle of one of the edges of tile `t`. */
  predicate IsBoundary(t: TileCoord, p: CarCoord) {
    p.DistanceSquared(FromTile(t)) == 1
  }

  /** The tile on whose boundary both points lie, found from the midpoint. */
  function CommonTile(p1: CarCoord, p2: CarCoord): (r: Option<TileCoord>)
    ensures r.Some? ==> IsBoundary(r.value, p1) && IsBoundary(r.value, p2)
  {
    var x := DivFourRound(p1.x + p2.x);
    var y := DivFourRound(p1.y + p2.y);
    if x.None? || y.None? then None
    else
      var t := TileCoord(x.value, y.value);
      if IsBoundary(t, p1) && IsBoundary(t, p2) then Some(t) else None
  }

  /** The direction from `p1` towards `p2`, horizontal first; `Up` for equal points. */
  function DirectionTo(p1: CarCoord, p2: CarCoord): Direction {
    var dx := p2.x - p1.x;
    var dy := p2.y - p1.y;
    if dx > 0 then Right
    else if dx < 0 then Left
    else if dy > 0 then Down
    else Up
  }

  /** A single step is recognised as its own direction; a non-move reads as `Up`. */
  lemma DirectionToStep(c: CarCoord, d: Direction)
    ensures DirectionTo(c, c.Plus(d)) == d
    ensures DirectionTo(c, c) == Up
  {
  }

  /** The boundary points of a tile are exactly the four edge middles. */
  lemma BoundaryIsEdgeMiddle(t: TileCoord, p: CarCoord)
    ensures IsBoundary(t, p) <==> p == FromTile(t).Plus(DirectionTo(FromTile(t), p))
  {
    if IsBoundary(t, p) {
      UnitSquares(p.x - 2 * t.x, p.y - 2 * t.y);
    }
  }

  /** Two different edge middles of a tile have that tile as their common tile,
      and these are the only pairs with a common tile. */
  lemma CommonTileExactly(t: TileCoord, p1: CarCoord, p2: CarCoord)
    ensures CommonTile(p1, p2) == Some(t) <==> p1 != p2 && IsBoundary(t, p1) && IsBoundary(t, p2)
  {
    if p1 != p2 && IsBoundary(t, p1) && IsBoundary(t, p2) {
      CommonTileFound(t, p1, p2);
    }
    if CommonTile(p1, p2) == Some(t) {
      CommonTileSelf(p1);
    }
  }

  /** Two different edge middles of `t` are rounded back to `t`. */
  lemma CommonTileFound(t: TileCoord, p1: CarCoord, p2: CarCoord)
    requires p1 != p2 && IsBoundary(t, p1) && IsBoundary(t, p2)
    ensures CommonTile(p1, p2) == Some(t)
  {
    BoundaryIsEdgeMiddle(t, p1);
    BoundaryIsEdgeMiddle(t, p2);
    var d1, d2 := DirectionTo(FromTile(t), p1), DirectionTo(FromTile(t), p2);
    assert d1 != d2;
    assert p1.x + p2.x == 4 * t.x + (d1.Dx() + d2.Dx());
    assert p1.y + p2.y == 4 * t.y + (d1.Dy() + d2.Dy());
    DivFourRoundNear(t.x, d1.Dx() + d2.Dx());
    DivFourRoundNear(t.y, d1.Dy() + d2.Dy());
  }

  /** Within one of a multiple of 4, the rounding finds that multiple. */
  lemma DivFourRoundNear(c: int, e: int)
    requires -1 <= e <= 1
    ensures DivFourRound(4 * c + e) == Some(c)
  {
  }

  /** A point shares no tile with itself. */
  lemma CommonTileSelf(p: CarCoord)
    ensures CommonTile(p, p) == None
  {
    var x := DivFourRound(p.x + p.x);
    var y := DivFourRound(p.y + p.y);
    if x.Some? && y.Some? {
      var t := TileCoord(x.value, y.value);
      assert p.x == 2 * t.x && p.y == 2 * t.y;
      assert !IsBoundary(t, p);
    }
  }

  /** The tile drawn by a path that goes from `p1` to `p2`, which must share a tile. */
  function TrackTile(p1: CarCoord, p2: CarCoord): (r: (TileCoord, Tile))
    requires CommonTile(p1, p2).Some?
    ensures r.0 == CommonTile(p1, p2).value
    ensures r.1.offset == 0
    ensures r.1.tileType == Straight || r.1.tileType == Turn
    ensures r.1.tileType == Straight ==> r.1.transform.IsRotation()
  {
    var pos := CommonTile(p1, p2).value;
    var carPos := FromTile(pos);
    var d1 := DirectionTo(carPos, p1);
    var d2 := DirectionTo(carPos, p2);
    var tile :=
      if d2 == d1.Opposite() then
        Tile(Straight, RotationFor(Up, d2), 0)
      else
        var transform :=
          if d2 == Rot90.Apply(d1) then RotationFor(Left, d2)
          else RotationFor(Left, d2).Compose(Flip90);
        Tile(Turn, transform, 0);
    (pos, tile)
  }

  /** A car that enters the drawn tile through `p1` may leave it through `p2`:
      the tile has an entrance for the direction of travel at `p1` and an
      exit for the direction of travel at `p2`. */
  lemma TrackTileAdmits(p1: CarCoord, p2: CarCoord)
    requires CommonTile(p1, p2).Some?
    ensures var pos := CommonTile(p1, p2).value;
      var tile := TrackTile(p1, p2).1;
      && IsEntrance(tile, DirectionTo(FromTile(pos), p1).Opposite())
      && IsExit(tile, DirectionTo(FromTile(pos), p2))
  {
    var pos := CommonTile(p1, p2).value;
    CommonTileExactly(pos, p1, p2);
    BoundaryIsEdgeMiddle(pos, p1);
    BoundaryIsEdgeMiddle(pos, p2);
    var d1 := DirectionTo(FromTile(pos), p1);
    var d2 := DirectionTo(FromTile(pos), p2);
    assert d1 != d2;
  }

  /** Drawing straight across tile `c` in the direction `r·Up` gives a Straight turned by `r`. */
  lemma TrackTileStraight(c: TileCoord, r: DihedralElement)
    requires r.IsRotation()
    ensures var p1 := FromTile(c).Plus(r.Apply(Down));
      var p2 := FromTile(c).Plus(r.Apply(Up));
      CommonTile(p1, p2) == Some(c) && TrackTile(p1, p2) == (c, Tile(Straight, r, 0))
  {
    var p1 := FromTile(c).Plus(r.Apply(Down));
    var p2 := FromTile(c).Plus(r.Apply(Up));
    DirectionToStep(FromTile(c), r.Apply(Down));
    DirectionToStep(FromTile(c), r.Apply(Up));
    StepLaws(FromTile(c), r.Apply(Down));
    StepLaws(FromTile(c), r.Apply(Up));
    CommonTileExactly(c, p1, p2);
    RotationForUnique(Up, r);
  }

  /** Drawing from the `e·Down` edge to the `e·Left` edge of tile `c` gives a Turn with transform `e`. */
  lemma TrackTileTurn(c: TileCoord, e: DihedralElement)
    ensures var p1 := FromTile(c).Plus(e.Apply(Down));
      var p2 := FromTile(c).Plus(e.Apply(Left));
      CommonTile(p1, p2) == Some(c) && TrackTile(p1, p2) == (c, Tile(Turn, e, 0))
  {
    var p1 := FromTile(c).Plus(e.Apply(Down));
    var p2 := FromTile(c).Plus(e.Apply(Left));
    DirectionToStep(FromTile(c), e.Apply(Down));
    DirectionToStep(FromTile(c), e.Apply(Left));
    StepLaws(FromTile(c), e.Apply(Down));
    StepLaws(FromTile(c), e.Apply(Left));
    CommonTileExactly(c, p1, p2);
  }

  // ---------------------------------------------------------------------
  // The path being drawn
  // ---------------------------------------------------------------------

  /** Consecutive points lie on a common tile (and so are distinct). */
  ghost predicate Chained(points: seq<CarCoord>) {
    forall i :: 0 <= i < |points| - 1 ==> CommonTile(points[i], points[i + 1]).Some?
  }

  lemma ChainedDistinct(points: seq<CarCoord>, i: int)
    requires Chained(points) && 0 <= i < |points| - 1
    ensures points[i] != points[i + 1]
  {
    CommonTileSelf(points[i]);
  }

  /** The path after the pointer moves to `pos`. */
  function Added(points: seq<CarCoord>, pos: CarCoord): (r: seq<CarCoord>)
    ensures |points| == 0 ==> r == [pos]
    ensures |points| > 0 && CommonTile(points[|points| - 1], pos).None? ==> r == points
    ensures |points| >= 2 && CommonTile(points[|points| - 1], pos).Some? && points[|points| - 2] == pos ==>
      r == points[..|points| - 1]
    ensures |points| >= 2 && CommonTile(points[|points| - 1], pos).Some? && points[|points| - 2] != pos ==>
      r == if CommonTile(points[|points| - 2], points[|points| - 1]) == CommonTile(points[|points| - 1], pos)
           then points[..|points| - 1] + [pos]
           else points + [pos]
    ensures |points| == 1 && CommonTile(points[0], pos).Some? ==> r == points + [pos]
  {
    if |points| == 0 then [pos]
    else
      var last := points[|points| - 1];
      var t1 := CommonTile(last, pos);
      if t1.None? then points
      else if |points| >= 2 then
        var pvs := points[|points| - 2];
        if pvs == pos then points[..|points| - 1]
        else if CommonTile(pvs, last) == t1 then points[..|points| - 1] + [pos]
        else points + [pos]
      else points + [pos]
  }

  /** Moving the pointer keeps the path chained. */
  lemma AddedKeepsChain(points: seq<CarCoord>, pos: CarCoord)
    requires Chained(points)
    ensures Chained(Added(points, pos))
  {
    var r := Added(points, pos);
    if |points| >= 2 && CommonTile(points[|points| - 1], pos).Some? {
      var last := points[|points| - 1];
      var pvs := points[|points| - 2];
      var t1 := CommonTile(last, pos).value;
      if pvs != pos && CommonTile(pvs, last) == Some(t1) {
        CommonTileExactly(t1, last, pos);
        CommonTileExactly(t1, pvs, last);
        CommonTileExactly(t1, pvs, pos);
        assert r == points[..|points| - 1] + [pos];
        assert forall i :: 0 <= i < |r| - 1 ==> CommonTile(r[i], r[i + 1]).Some? by {
          forall i | 0 <= i < |r| - 1
            ensures CommonTile(r[i], r[i + 1]).Some?
          {
            if i < |r| - 2 {
              assert r[i] == points[i] && r[i + 1] == points[i + 1];
            }
          }
        }
      }
    }
  }

  class Path {
    var points: seq<CarCoord>

    constructor()
      ensures points == []
    {
      points := [];
    }

    method Clear()
      modifies this
      ensures points == []
    {
      points := [];
    }

    /** The point before the last one: moving the pointer back onto it
        retraces the last step of a chained path. */
    function SecondLast(): (r: Option<CarCoord>)
      reads this
      ensures r.Some? <==> |points| >= 2
      ensures r.Some? && Chained(points) ==> Added(points, r.value) == points[..|points| - 1]
    {
      if |points| >= 2 then Some(points[|points| - 2]) else None
    }

    /** Extends the path with `pos`, backing up over a retraced point and
        replacing the last point when it stays on the same tile. */
    method Add(pos: CarCoord)
      modifies this
      ensures points == Added(old(points), pos)
      ensures old(Chained(points)) ==> Chained(points)
    {
      ghost var before := points;
      if Chained(points) {
        AddedKeepsChain(points, pos);
      }
      if |points| > 0 {
        var last := points[|points| - 1];
        var t1 := CommonTile(last, pos);
        if t1.Some? {
          var pvs := SecondLast();
          if pvs.Some? {
            if pvs.value == pos {
              points := points[..|points| - 1];
            } else if CommonTile(pvs.value, last) == t1 {
              points := points[..|points| - 1];
              points := points + [pos];
            } else {
              points := points + [pos];
            }
          } else {
            points := points + [pos];
          }
        }
      } else {
        points := points + [pos];
      }
      assert points == Added(before, pos);
    }
  }
}
