/**
 * The small demonstration course shown in a tile's tooltip: the tile at
 * (1, 1), a Straight feeding each of its entrances from a Finish tile two
 * cells away, and a Straight leading out of each of its exits.
 */
module Tooltip {
  import opened Dihedral
  import opened Tiles
  import opened Courses

  const Orig: TileCoord := TileCoord(1, 1)

  /** The direction the `i`-th rotation turns Up into: the four directions clockwise. */
  function RotDir(i: nat): Direction {
    if i == 0 then Up else if i == 1 then Right else if i == 2 then Down else Left
  }

  /** `RotDir(i)` is where the `i`-th rotation sends Up. */
  lemma RotationsTurnUp()
    ensures forall i :: 0 <= i < |Rotations| ==> Rotations[i].Apply(Up) == RotDir(i)
  {
  }

  /** Is `p` a cell placed in front of an entrance in direction `d`, or
      behind an exit in direction `d`? */
  predicate IsEntryCell(o: TileCoord, t: TileType, d: Direction, p: TileCoord) {
    IsEntranceId(t, d) && (p == o.StepBack(d) || p == o.StepBack(d).StepBack(d))
  }

  predicate IsExitCell(o: TileCoord, t: TileType, d: Direction, p: TileCoord) {
    IsExitId(t, d) && p == o.Step(d)
  }

  /** Is `p` occupied once the first `k` rotations have been handled? */
  predicate Placed(o: TileCoord, t: TileType, k: nat, p: TileCoord) {
    if k == 0 then p == o
    else Placed(o, t, k - 1, p) || IsEntryCell(o, t, RotDir(k - 1), p) || IsExitCell(o, t, RotDir(k - 1), p)
  }

  /** How many of the first `k` rotations turn Up into an entrance (an exit) of `t`. */
  function EntranceCount(t: TileType, k: nat): nat
    requires k <= |Rotations|
  {
    if k == 0 then 0 else EntranceCount(t, k - 1) + (if IsEntranceId(t, RotDir(k - 1)) then 1 else 0)
  }

  function ExitCount(t: TileType, k: nat): nat
    requires k <= |Rotations|
  {
    if k == 0 then 0 else ExitCount(t, k - 1) + (if IsExitId(t, RotDir(k - 1)) then 1 else 0)
  }

  /** The occupied cells after each rotation: Up may add an entrance and an
      exit, Right only an exit, and Down adds nothing. */
  lemma PlacedSteps(o: TileCoord, t: TileType, p: TileCoord)
    ensures Placed(o, t, 1, p) == (p == o || IsEntryCell(o, t, Up, p) || IsExitCell(o, t, Up, p))
    ensures Placed(o, t, 2, p) == (Placed(o, t, 1, p) || IsExitCell(o, t, Right, p))
    ensures Placed(o, t, 3, p) == Placed(o, t, 2, p)
  {
    UpIsAlwaysEntrance(t);
  }

  /** The cells of rotation `k` are not occupied yet, and the two cells in
      front of an entrance are apart, wherever the centre `o` lies. */
  lemma FreshCells(o: TileCoord, t: TileType, k: nat)
    requires k < |Rotations|
    ensures IsEntranceId(t, RotDir(k)) ==>
      && !Placed(o, t, k, o.StepBack(RotDir(k)))
      && !Placed(o, t, k, o.StepBack(RotDir(k)).StepBack(RotDir(k)))
      && o.StepBack(RotDir(k)) != o.StepBack(RotDir(k)).StepBack(RotDir(k))
      && o.StepBack(RotDir(k)) != o && o.StepBack(RotDir(k)).StepBack(RotDir(k)) != o
    ensures IsExitId(t, RotDir(k)) ==>
      && !Placed(o, t, k, o.Step(RotDir(k)))
      && !IsEntryCell(o, t, RotDir(k), o.Step(RotDir(k)))
      && o.Step(RotDir(k)) != o
  {
    var d := RotDir(k);
    PlacedSteps(o, t, o.StepBack(d));
    PlacedSteps(o, t, o.StepBack(d).StepBack(d));
    PlacedSteps(o, t, o.Step(d));
    if k == 3 {
      EntranceExitDisjoint(t, Right);
    }
  }

  /** Rotation `i` is in place in `course`: a Straight and then a Finish in
      front of the entrance it names, a Straight behind the exit it names. */
  predicate RotationPlaced(o: TileCoord, t: TileType, i: nat, course: Course)
    requires i < |Rotations|
  {
    var d := RotDir(i);
    && (IsEntranceId(t, d) ==>
      && o.StepBack(d) in course && course[o.StepBack(d)] == Tile(Straight, Rotations[i], 0)
      && o.StepBack(d).StepBack(d) in course && course[o.StepBack(d).StepBack(d)] == Tile(Finish, Rotations[i], 0))
    && (IsExitId(t, d) ==> o.Step(d) in course && course[o.Step(d)] == Tile(Straight, Rotations[i], 0))
  }

  /** Adding tiles on free cells keeps every rotation already in place. */
  lemma RotationsPlacedKept(o: TileCoord, t: TileType, k: nat, c1: Course, c2: Course)
    requires k < |Rotations|
    requires forall i :: 0 <= i < k ==> RotationPlaced(o, t, i, c1)
    requires forall p :: p in c1 ==> p in c2 && c2[p] == c1[p]
    requires RotationPlaced(o, t, k, c2)
    ensures forall i :: 0 <= i <= k ==> RotationPlaced(o, t, i, c2)
  {
    forall i | 0 <= i < k
      ensures RotationPlaced(o, t, i, c2)
    {
      assert RotationPlaced(o, t, i, c1);
    }
  }

  /** Builds the demonstration course for tile type `t` around the centre
      `o`.  No insertion lands on a cell already placed, so the course has
      one tile for the centre, two per entrance and one per exit. */
  method CourseAround(o: TileCoord, t: TileType) returns (course: Course)
    ensures o in course && course[o] == Tile(t, Id, 0)
    ensures forall i :: 0 <= i < |Rotations| ==> RotationPlaced(o, t, i, course)
    ensures forall p :: p in course <==> Placed(o, t, |Rotations|, p)
    ensures |course| == 1 + 2 * EntranceCount(t, |Rotations|) + ExitCount(t, |Rotations|)
  {
    course := map[o := Tile(t, Id, 0)];
    for k := 0 to |Rotations|
      invariant o in course && course[o] == Tile(t, Id, 0)
      invariant forall i :: 0 <= i < k ==> RotationPlaced(o, t, i, course)
      invariant forall p :: p in course <==> Placed(o, t, k, p)
      invariant |course| == 1 + 2 * EntranceCount(t, k) + ExitCount(t, k)
    {
      ghost var before := course;
      course := PlaceRotation(o, t, k, course);
      RotationsPlacedKept(o, t, k, before, course);
    }
  }

  /** One pass of the loop over the rotations: the tiles for rotation `k`,
      all on cells that were free. */
  method PlaceRotation(o: TileCoord, t: TileType, k: nat, course: Course) returns (next: Course)
    requires k < |Rotations|
    requires forall p :: p in course <==> Placed(o, t, k, p)
    ensures forall p :: p in next <==> Placed(o, t, k + 1, p)
    ensures forall p :: p in course ==> p in next && next[p] == course[p]
    ensures RotationPlaced(o, t, k, next)
    ensures |next| == |course| + (if IsEntranceId(t, RotDir(k)) then 2 else 0) + (if IsExitId(t, RotDir(k)) then 1 else 0)
  {
    var rot := Rotations[k];
    var dir := RotDir(k);  // rot.Apply(Up), by RotationsTurnUp
    FreshCells(o, t, k);
    next := course;
    if IsEntranceId(t, dir) {
      next := next[o.StepBack(dir) := Tile(Straight, rot, 0)];
      next := next[o.StepBack(dir).StepBack(dir) := Tile(Finish, rot, 0)];
    }
    if IsExitId(t, dir) {
      next := next[o.Step(dir) := Tile(Straight, rot, 0)];
    }
  }

  /** The tooltip's course: the demonstration course around (1, 1). */
  method CourseFor(t: TileType) returns (course: Course)
    ensures Orig in course && course[Orig] == Tile(t, Id, 0)
    ensures forall i :: 0 <= i < |Rotations| ==> RotationPlaced(Orig, t, i, course)
    ensures forall p :: p in course <==> Placed(Orig, t, |Rotations|, p)
    ensures |course| == 1 + 2 * EntranceCount(t, |Rotations|) + ExitCount(t, |Rotations|)
  {
    course := CourseAround(Orig, t);
  }
}
