/**
 * Road tiles: a tile type placed with a symmetry and a one-bit phase
 * ("offset") that shifts alternating lights or picks the side of a yield
 * sign.  This module also holds the canonical entrance and exit tables of
 * each tile type, which every other part of the game reads.
 */
module Tiles {
  import opened Dihedral

  datatype TileType =
    | Straight
    | Turn
    | Finish
    | LightIntersection
    | YieldIntersection
    | LightTurns
    | Merge
    | LightForwardTurn
  {
    predicate HasLights() {
      this == LightIntersection || this == LightTurns || this == LightForwardTurn
    }
  }

  /** Tile offsets are bytes; only their lowest bit is ever read. */
  datatype Tile = Tile(tileType: TileType, transform: DihedralElement, offset: bv8) {

    /** Turns the tile by `transform` (composed on the left) and XORs its offset. */
    function ApplyTransform(transform: DihedralElement, offset: bv8): Tile {
      Tile(tileType, transform.Compose(this.transform), offset ^ this.offset)
    }
  }

  function DefaultForType(tileType: TileType): (t: Tile)
    ensures forall e, o :: t.ApplyTransform(e, o) == Tile(tileType, e, o)
  {
    IdentityComposeRight();
    Tile(tileType, Id, 0)
  }

  lemma IdentityComposeRight()
    ensures forall e: DihedralElement :: e.Compose(Id) == e
  {
  }

  // ---------------------------------------------------------------------
  // Canonical entrance and exit tables
  // ---------------------------------------------------------------------

  /** Does a car travelling in direction `carDir` enter an untransformed tile of type `t`? */
  predicate IsEntranceId(t: TileType, carDir: Direction) {
    match t
    case Straight | Turn | Finish | LightForwardTurn | LightTurns => carDir == Up
    case Merge | YieldIntersection | LightIntersection => carDir == Up || carDir == Left
  }

  /** Does a car leave an untransformed tile of type `t` travelling in direction `carDir`? */
  predicate IsExitId(t: TileType, carDir: Direction) {
    match t
    case Straight | Finish | Merge => carDir == Up
    case Turn => carDir == Left
    case LightTurns => carDir == Left || carDir == Right
    case LightForwardTurn | LightIntersection | YieldIntersection => carDir == Up || carDir == Left
  }

  const StraightEntrance: Direction := Up
  const StraightExit: Direction := Up
  const TurnEntrance: Direction := Up
  const TurnExit: Direction := Left

  /** The canonical check applied to the direction seen from the tile's own frame. */
  predicate IsEntrance(tile: Tile, carDir: Direction) {
    IsEntranceId(tile.tileType, tile.transform.ApplyInverse(carDir))
  }

  predicate IsExit(tile: Tile, carDir: Direction) {
    IsExitId(tile.tileType, tile.transform.ApplyInverse(carDir))
  }

  // ---------------------------------------------------------------------
  // Properties
  // ---------------------------------------------------------------------

  /** No tile lets a car in from a side and also out through that same side. */
  lemma EntranceExitDisjoint(t: TileType, d: Direction)
    ensures !(IsEntranceId(t, d.Opposite()) && IsExitId(t, d))
  {
  }

  /** No canonical entrance set holds a direction together with its opposite. */
  lemma NoOpposedEntrances(t: TileType, d: Direction)
    ensures !(IsEntranceId(t, d) && IsEntranceId(t, d.Opposite()))
  {
  }

  /** Canonically, every tile type admits cars travelling Up, and none travelling Down or Right. */
  lemma UpIsAlwaysEntrance(t: TileType)
    ensures IsEntranceId(t, Up)
    ensures !IsEntranceId(t, Down) && !IsEntranceId(t, Right)
  {
  }

  lemma CanonicalPairs()
    ensures IsEntranceId(Straight, StraightEntrance) && IsExitId(Straight, StraightExit)
    ensures IsEntranceId(Turn, TurnEntrance) && IsExitId(Turn, TurnExit)
  {
  }

  lemma ApplyTransformLaws(tile: Tile, e: DihedralElement, o: bv8)
    ensures tile.ApplyTransform(e, o).tileType == tile.tileType
    ensures tile.ApplyTransform(Id, 0) == tile
    ensures tile.ApplyTransform(e, o).ApplyTransform(Id, o) == tile.ApplyTransform(e, 0)
  {
    IdentityLaws(tile.transform, Up);
    IdentityLaws(e.Compose(tile.transform), Up);
    assert o ^ (o ^ tile.offset) == tile.offset;
  }

  /** Applying (e, o) and then (e's inverse, o) gives the tile back. */
  lemma ApplyTransformUndo(tile: Tile, e: DihedralElement, o: bv8)
    ensures tile.ApplyTransform(e, o).ApplyTransform(e.Inverse(), o) == tile
  {
    var g := tile.transform;
    assert o ^ (o ^ tile.offset) == tile.offset;
    calc {
      e.Inverse().Compose(e.Compose(g));
      { ComposeAssociative(e.Inverse(), e, g); }
      e.Inverse().Compose(e).Compose(g);
      { InverseLaws(e); }
      Id.Compose(g);
      { IdentityLaws(g, Up); }
      g;
    }
  }

  /** Applying (t1, o1) and then (t2, o2) is applying (t2 * t1, o1 ^ o2). */
  lemma ApplyTransformComposes(tile: Tile, t1: DihedralElement, o1: bv8, t2: DihedralElement, o2: bv8)
    ensures tile.ApplyTransform(t1, o1).ApplyTransform(t2, o2) == tile.ApplyTransform(t2.Compose(t1), o1 ^ o2)
  {
    ComposeAssociative(t2, t1, tile.transform);
  }

  /** Turning a tile by `e` turns its entrances and exits by `e`. */
  lemma TransformMovesEntrances(tile: Tile, e: DihedralElement, o: bv8, d: Direction)
    ensures IsEntrance(tile.ApplyTransform(e, o), e.Apply(d)) == IsEntrance(tile, d)
    ensures IsExit(tile.ApplyTransform(e, o), e.Apply(d)) == IsExit(tile, d)
  {
    var g := tile.transform;
    ApplyInverseLaw(e.Compose(g), e.Apply(d));
    ApplyInverseLaw(g, d);
    ComposeActs(e, g, g.ApplyInverse(d));
  }
}
