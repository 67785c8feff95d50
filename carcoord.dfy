/**
 * Car positions on the half-tile grid.  A tile at cell `t` has its centre at
 * car coordinate `2t`; the four points at distance one from the centre are
 * the middles of its edges, where cars wait between tiles.
 */
module CarCoords {
  import opened Dihedral

  datatype CarCoord = CarCoord(x: int, y: int) {

    function Plus(d: Direction): CarCoord {
      CarCoord(x + d.Dx(), y + d.Dy())
    }

    function Minus(d: Direction): CarCoord {
      CarCoord(x - d.Dx(), y - d.Dy())
    }

    /** `n` steps in direction `d`. */
    function AddMultiple(d: Direction, n: int): CarCoord {
      CarCoord(x + n * d.Dx(), y + n * d.Dy())
    }

    function DistanceSquared(other: CarCoord): (r: int)
      ensures r >= 0
      ensures r == 0 <==> other == this
    {
      SquareBounds(other.x - x);
      SquareBounds(other.y - y);
      (other.x - x) * (other.x - x) + (other.y - y) * (other.y - y)
    }

    /** The centre of a tile: both coordinates even. */
    predicate IsEven() {
      x % 2 == 0 && y % 2 == 0
    }

    /** The tile whose centre this is; the game asserts evenness first. */
    function ToTile(): (t: TileCoord)
      requires IsEven()
      ensures 2 * t.x == x && 2 * t.y == y
    {
      TileCoord(x / 2, y / 2)
    }
  }

  /** The centre of tile `t`: a point on the tile grid that converts back to `t`. */
  function FromTile(t: TileCoord): (c: CarCoord)
    ensures c.IsEven() && c.ToTile() == t
  {
    CarCoord(2 * t.x, 2 * t.y)
  }

  /** Tile centres and tiles correspond one to one. */
  lemma TileRoundTrips(t: TileCoord, c: CarCoord)
    ensures FromTile(t).ToTile() == t
    ensures c.IsEven() ==> FromTile(c.ToTile()) == c
  {
  }

  lemma SquareBounds(a: int)
    ensures a * a >= 0
    ensures a != 0 ==> a * a >= 1
    ensures (a >= 2 || a <= -2) ==> a * a >= 4
  {
    if a >= 2 {
      assert a * a >= 2 * a;
    } else if a <= -2 {
      assert a * a >= -2 * a;
    }
  }

  /** Two integers whose squares add up to one: one is zero, the other a unit. */
  lemma UnitSquares(dx: int, dy: int)
    requires dx * dx + dy * dy == 1
    ensures (dx == 0 && (dy == 1 || dy == -1)) || (dy == 0 && (dx == 1 || dx == -1))
  {
    SquareBounds(dx);
    SquareBounds(dy);
  }

  /** Stepping forward and back, or back and forward, returns to the start;
      one multiple step is one step. */
  lemma StepLaws(c: CarCoord, d: Direction)
    ensures c.Plus(d).Minus(d) == c && c.Minus(d).Plus(d) == c
    ensures c.AddMultiple(d, 1) == c.Plus(d) && c.AddMultiple(d, -1) == c.Minus(d)
    ensures c.AddMultiple(d, 0) == c
    ensures c.Plus(d).DistanceSquared(c) == 1
  {
  }

  /** Steps from an even point in two different directions end at different points. */
  lemma PlusInjective(c: CarCoord, d1: Direction, d2: Direction)
    requires c.Plus(d1) == c.Plus(d2)
    ensures d1 == d2
  {
  }

  /** Moving a car by a tile-grid step moves its tile by the same step. */
  lemma FromTileStep(t: TileCoord, d: Direction)
    ensures FromTile(t.Step(d)) == FromTile(t).Plus(d).Plus(d)
    ensures FromTile(t).AddMultiple(d, 2) == FromTile(t.Step(d))
  {
  }
}
