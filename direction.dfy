/**
 * Directions, grid cells and the symmetry group of the square.
 *
 * The game encodes a direction by its index 0..3 (Up, Right, Down, Left)
 * and a symmetry by its index 0..7: bit 2 says "reflection" and the low
 * two bits are a quarter-turn shift.  The action of a symmetry on a
 * direction is `(sign * index + shift) & 3` computed on machine integers.
 * Masking with 3 keeps the value modulo 4, and arithmetic modulo 4 is
 * exactly 2-bit arithmetic, so the model computes on `bv2` (a sign of -1
 * is the 2-bit value 3) and on `bv3` for the element indices.
 */
module Dihedral {

  /** A unit step on the grid.  The y axis grows downward. */
  datatype Direction = Up | Right | Down | Left {

    function Index(): bv2 {
      match this
      case Up => 0
      case Right => 1
      case Down => 2
      case Left => 3
    }

    function Dx(): int {
      match this
      case Left => -1
      case Right => 1
      case _ => 0
    }

    function Dy(): int {
      match this
      case Up => -1
      case Down => 1
      case _ => 0
    }

    /** Flips bit 1 of the index. */
    function Opposite(): Direction {
      DirectionOf(Index() ^ 2)
    }
  }

  function DirectionOf(i: bv2): (d: Direction)
    ensures d.Index() == i
  {
    if i == 0 then Up else if i == 1 then Right else if i == 2 then Down else Left
  }

  /** An integer grid cell (also used as a grid vector). */
  datatype TileCoord = TileCoord(x: int, y: int) {

    /** The neighbouring cell in direction `d`. */
    function Step(d: Direction): TileCoord {
      TileCoord(x + d.Dx(), y + d.Dy())
    }

    /** The neighbouring cell against direction `d`. */
    function StepBack(d: Direction): TileCoord {
      TileCoord(x - d.Dx(), y - d.Dy())
    }

    function Add(q: TileCoord): TileCoord {
      TileCoord(x + q.x, y + q.y)
    }

    function Sub(q: TileCoord): TileCoord {
      TileCoord(x - q.x, y - q.y)
    }

    function Neg(): TileCoord {
      TileCoord(-x, -y)
    }
  }

  /** The unit vector of a direction. */
  function CoordOf(d: Direction): TileCoord {
    TileCoord(d.Dx(), d.Dy())
  }

  /** The eight symmetries of the square, in index order. */
  datatype DihedralElement = Id | Rot90 | Rot180 | Rot270 | Flip0 | Flip45 | Flip90 | Flip135 {

    function Index(): bv3 {
      match this
      case Id => 0
      case Rot90 => 1
      case Rot180 => 2
      case Rot270 => 3
      case Flip0 => 4
      case Flip45 => 5
      case Flip90 => 6
      case Flip135 => 7
    }

    predicate IsRotation() {
      Index() & 4 == 0
    }

    /** +1 for the four rotations and -1 (that is, 3) for the four reflections. */
    function Sign(): bv2 {
      match this
      case Flip0 | Flip45 | Flip90 | Flip135 => 3
      case _ => 1
    }

    function Shift(): bv2 {
      (Index() & 3) as bv2
    }

    function Apply(d: Direction): Direction {
      DirectionOf(Sign() * d.Index() + Shift())
    }

    function ApplyInverse(d: Direction): Direction {
      DirectionOf(Sign() * (d.Index() - Shift()))
    }

    function Inverse(): DihedralElement {
      match this
      case Rot90 => Rot270
      case Rot270 => Rot90
      case _ => this
    }

    /** The product `this * rhs` (first `rhs`, then `this`): the reflection
        bits are XORed and the shifts combine as `shift + sign * rhs.shift`. */
    function Compose(rhs: DihedralElement): DihedralElement {
      var s := (Index() ^ rhs.Index()) & 4;
      var i := Shift() + Sign() * rhs.Shift();
      ElementOf(s | i as bv3)
    }

    /** The action on grid vectors, read off from the images of Right and Down. */
    function ApplyToCoord(p: TileCoord): TileCoord {
      var r := Apply(Right);
      var d := Apply(Down);
      TileCoord(r.Dx() * p.x + d.Dx() * p.y, r.Dy() * p.x + d.Dy() * p.y)
    }
  }

  function ElementOf(i: bv3): (e: DihedralElement)
    ensures e.Index() == i
  {
    match i
    case 0 => Id
    case 1 => Rot90
    case 2 => Rot180
    case 3 => Rot270
    case 4 => Flip0
    case 5 => Flip45
    case 6 => Flip90
    case _ => Flip135
  }

  /** The four rotations, in the order the game iterates over them. */
  const Rotations: seq<DihedralElement> := [Id, Rot90, Rot180, Rot270]

  /** The rotation that turns `from` into `to`. */
  function RotationFor(from: Direction, to: Direction): (e: DihedralElement)
    ensures e.IsRotation() && e.Sign() == 1
    ensures e.Apply(from) == to
  {
    ElementOf((to.Index() - from.Index()) as bv3)
  }

  /** The reflection whose mirror line runs along `d`. */
  function ReflectionAlong(d: Direction): DihedralElement {
    ElementOf(4 | (2 * d.Index()) as bv3)
  }

  /** The element that takes `from1` to `to1` and `from2` to `to2`: the
      rotation for the first pair, preceded by the reflection along `from1`
      when the rotation alone sends `from2` the wrong way. */
  function TransForDirs(from1: Direction, from2: Direction, to1: Direction, to2: Direction): DihedralElement {
    var r := RotationFor(from1, to1);
    if r.Apply(from2) == to2 then r else r.Compose(ReflectionAlong(from1))
  }

  /** Two directions at right angles. */
  predicate Orthogonal(a: Direction, b: Direction) {
    a != b && a != b.Opposite()
  }

  /** A rigid map of the grid: a symmetry followed by a translation. */
  datatype Isometry = Isometry(dihedral: DihedralElement, offset: TileCoord) {

    function Apply(p: TileCoord): TileCoord {
      offset.Add(dihedral.ApplyToCoord(p))
    }

    function Inverse(): Isometry {
      Isometry(dihedral.Inverse(), dihedral.Inverse().ApplyToCoord(offset).Neg())
    }

    function ApplyInverse(p: TileCoord): TileCoord {
      dihedral.Inverse().ApplyToCoord(p.Sub(offset))
    }
  }

  /** The isometry with symmetry `dihedral` that sends `from` to `to`. */
  function FromAnchors(from: TileCoord, to: TileCoord, dihedral: DihedralElement): (iso: Isometry)
    ensures iso.dihedral == dihedral
    ensures iso.Apply(from) == to
  {
    Isometry(dihedral, to.Sub(dihedral.ApplyToCoord(from)))
  }

  // ---------------------------------------------------------------------
  // Directions and coordinates
  // ---------------------------------------------------------------------

  lemma OppositeLaws(d: Direction)
    ensures d.Opposite().Opposite() == d
    ensures d.Opposite() == Rot180.Apply(d)
    ensures d.Opposite() != d
    ensures CoordOf(d.Opposite()) == CoordOf(d).Neg()
  {
  }

  /** The opposite of each direction, by name. */
  lemma OppositeTable()
    ensures Up.Opposite() == Down && Down.Opposite() == Up
    ensures Left.Opposite() == Right && Right.Opposite() == Left
  {
  }

  lemma CoordLaws(p: TileCoord, q: TileCoord, d: Direction)
    ensures p.Step(d).StepBack(d) == p && p.StepBack(d).Step(d) == p
    ensures p.Add(q).Sub(q) == p && p.Sub(q).Add(q) == p
    ensures p.Neg().Neg() == p
    ensures p.Step(d) == p.Add(CoordOf(d)) && p.StepBack(d) == p.Sub(CoordOf(d))
  {
  }

  // ---------------------------------------------------------------------
  // Group laws
  // ---------------------------------------------------------------------

  lemma InverseLaws(e: DihedralElement)
    ensures e.Compose(e.Inverse()) == Id
    ensures e.Inverse().Compose(e) == Id
    ensures e.Inverse().Inverse() == e
  {
  }

  lemma ApplyInverseLaw(e: DihedralElement, d: Direction)
    ensures e.ApplyInverse(d) == e.Inverse().Apply(d)
    ensures e.Apply(e.ApplyInverse(d)) == d
    ensures e.ApplyInverse(e.Apply(d)) == d
  {
  }

  lemma IdentityLaws(e: DihedralElement, d: Direction)
    ensures Id.Compose(e) == e && e.Compose(Id) == e
    ensures Id.Apply(d) == d
  {
  }

  /** Composition acts on directions as a group action. */
  lemma ComposeActs(e1: DihedralElement, e2: DihedralElement, d: Direction)
    ensures e1.Compose(e2).Apply(d) == e1.Apply(e2.Apply(d))
  {
  }

  lemma ComposeAssociative(e1: DihedralElement, e2: DihedralElement, e3: DihedralElement)
    ensures e1.Compose(e2).Compose(e3) == e1.Compose(e2.Compose(e3))
  {
  }

  /** Every symmetry commutes with reversing a direction. */
  lemma ApplyOpposite(e: DihedralElement, d: Direction)
    ensures e.Apply(d.Opposite()) == e.Apply(d).Opposite()
    ensures e.ApplyInverse(d.Opposite()) == e.ApplyInverse(d).Opposite()
  {
  }

  /** A symmetry sends the opposite pairs Left/Right and Up/Down to opposite pairs. */
  lemma ApplyOppositeSides(e: DihedralElement)
    ensures e.Apply(Right) == e.Apply(Left).Opposite() && e.Apply(Left) == e.Apply(Right).Opposite()
    ensures e.Apply(Down) == e.Apply(Up).Opposite() && e.Apply(Up) == e.Apply(Down).Opposite()
  {
    match e
    case Id =>
    case Rot90 =>
    case Rot180 =>
    case Rot270 =>
    case Flip0 =>
    case Flip45 =>
    case Flip90 =>
    case Flip135 =>
  }

  /** A symmetry is determined by where it sends two directions at right angles. */
  lemma DeterminedByOrthogonalPair(e: DihedralElement, f: DihedralElement, a: Direction, b: Direction)
    requires Orthogonal(a, b)
    requires e.Apply(a) == f.Apply(a) && e.Apply(b) == f.Apply(b)
    ensures e == f
  {
  }

  lemma RotationForUnique(d: Direction, r: DihedralElement)
    requires r.IsRotation()
    ensures RotationFor(d, r.Apply(d)) == r
  {
  }

  lemma ReflectionAlongLaws(d: Direction)
    ensures !ReflectionAlong(d).IsRotation() && ReflectionAlong(d).Sign() == 3
    ensures ReflectionAlong(d).Apply(d) == d
  {
  }

  /** `TransForDirs` recovers any symmetry from its images of two directions at right angles. */
  lemma TransForDirsRecovers(from1: Direction, from2: Direction, e: DihedralElement)
    requires Orthogonal(from1, from2)
    ensures TransForDirs(from1, from2, e.Apply(from1), e.Apply(from2)) == e
  {
  }

  /** Under the same hypotheses, the result maps both pairs. */
  lemma TransForDirsMaps(from1: Direction, from2: Direction, to1: Direction, to2: Direction)
    requires Orthogonal(from1, from2) && Orthogonal(to1, to2)
    ensures TransForDirs(from1, from2, to1, to2).Apply(from1) == to1
    ensures TransForDirs(from1, from2, to1, to2).Apply(from2) == to2
  {
  }

  /** Every symmetry keeps right angles. */
  lemma ApplyKeepsOrthogonal(e: DihedralElement, a: Direction, b: Direction)
    requires Orthogonal(a, b)
    ensures Orthogonal(e.Apply(a), e.Apply(b))
  {
  }

  lemma ComposeInverse(e1: DihedralElement, e2: DihedralElement)
    ensures e1.Compose(e2).Inverse() == e2.Inverse().Compose(e1.Inverse())
  {
  }

  /** Turning both targets by `k` turns the result of `TransForDirs` by `k`. */
  lemma TransForDirsEquivariant(from1: Direction, from2: Direction, to1: Direction, to2: Direction, k: DihedralElement)
    requires Orthogonal(from1, from2) && Orthogonal(to1, to2)
    ensures TransForDirs(from1, from2, k.Apply(to1), k.Apply(to2)) == k.Compose(TransForDirs(from1, from2, to1, to2))
  {
    var e := TransForDirs(from1, from2, to1, to2);
    TransForDirsMaps(from1, from2, to1, to2);
    ComposeActs(k, e, from1);
    ComposeActs(k, e, from2);
    TransForDirsRecovers(from1, from2, k.Compose(e));
  }

  // ---------------------------------------------------------------------
  // The action on grid vectors and isometries
  // ---------------------------------------------------------------------

  /** Each symmetry, written out as a matrix with entries in {-1, 0, 1}. */
  lemma ApplyToCoordTable(e: DihedralElement, p: TileCoord)
    ensures e.ApplyToCoord(p) ==
      match e
      case Id => p
      case Rot90 => TileCoord(-p.y, p.x)
      case Rot180 => TileCoord(-p.x, -p.y)
      case Rot270 => TileCoord(p.y, -p.x)
      case Flip0 => TileCoord(-p.x, p.y)
      case Flip45 => TileCoord(-p.y, -p.x)
      case Flip90 => TileCoord(p.x, -p.y)
      case Flip135 => TileCoord(p.y, p.x)
  {
  }

  lemma ApplyToCoordLinear(e: DihedralElement, p: TileCoord, q: TileCoord)
    ensures e.ApplyToCoord(p.Add(q)) == e.ApplyToCoord(p).Add(e.ApplyToCoord(q))
    ensures e.ApplyToCoord(p.Sub(q)) == e.ApplyToCoord(p).Sub(e.ApplyToCoord(q))
    ensures e.ApplyToCoord(p.Neg()) == e.ApplyToCoord(p).Neg()
  {
    ApplyToCoordTable(e, p);
    ApplyToCoordTable(e, q);
    ApplyToCoordTable(e, p.Add(q));
    ApplyToCoordTable(e, p.Sub(q));
    ApplyToCoordTable(e, p.Neg());
  }

  /** On unit vectors the action on coordinates is the action on directions. */
  lemma ApplyToCoordOfDirection(e: DihedralElement, d: Direction)
    ensures e.ApplyToCoord(CoordOf(d)) == CoordOf(e.Apply(d))
  {
    match d
    case Up => ApplyToCoordOfOpposite(e, Down, Up);
    case Right => ApplyToCoordOfAxis(e, Right);
    case Down => ApplyToCoordOfAxis(e, Down);
    case Left => ApplyToCoordOfOpposite(e, Right, Left);
  }

  /** The two axes the action on coordinates is read off from. */
  lemma ApplyToCoordOfAxis(e: DihedralElement, d: Direction)
    requires d == Right || d == Down
    ensures e.ApplyToCoord(CoordOf(d)) == CoordOf(e.Apply(d))
  {
  }

  /** The two directions against those axes. */
  lemma ApplyToCoordOfOpposite(e: DihedralElement, d: Direction, o: Direction)
    requires (d == Right && o == Left) || (d == Down && o == Up)
    ensures e.ApplyToCoord(CoordOf(o)) == CoordOf(e.Apply(o))
  {
    assert o == d.Opposite();
    calc {
      e.ApplyToCoord(CoordOf(d.Opposite()));
      { OppositeLaws(d); }
      e.ApplyToCoord(CoordOf(d).Neg());
      { ApplyToCoordLinear(e, CoordOf(d), CoordOf(d)); }
      e.ApplyToCoord(CoordOf(d)).Neg();
      { ApplyToCoordOfAxis(e, d); }
      CoordOf(e.Apply(d)).Neg();
      { OppositeLaws(e.Apply(d)); }
      CoordOf(e.Apply(d).Opposite());
      { ApplyOpposite(e, d); }
      CoordOf(e.Apply(d.Opposite()));
    }
  }

  lemma ComposeActsOnCoords(e1: DihedralElement, e2: DihedralElement, p: TileCoord)
    ensures e1.Compose(e2).ApplyToCoord(p) == e1.ApplyToCoord(e2.ApplyToCoord(p))
  {
    ApplyToCoordTable(e2, p);
    ApplyToCoordTable(e1, e2.ApplyToCoord(p));
    ApplyToCoordTable(e1.Compose(e2), p);
  }

  lemma InverseUndoesOnCoords(e: DihedralElement, p: TileCoord)
    ensures e.Inverse().ApplyToCoord(e.ApplyToCoord(p)) == p
    ensures e.ApplyToCoord(e.Inverse().ApplyToCoord(p)) == p
  {
    InverseLaws(e);
    ComposeActsOnCoords(e.Inverse(), e, p);
    ComposeActsOnCoords(e, e.Inverse(), p);
    ApplyToCoordTable(Id, p);
  }

  /** `ApplyInverse` and `Inverse()` both undo an isometry, on either side. */
  lemma IsometryInverseLaws(iso: Isometry, p: TileCoord)
    ensures iso.ApplyInverse(iso.Apply(p)) == p
    ensures iso.Apply(iso.ApplyInverse(p)) == p
    ensures iso.Inverse().Apply(iso.Apply(p)) == p
    ensures iso.Inverse().Apply(p) == iso.ApplyInverse(p)
  {
    var e := iso.dihedral;
    var ei := e.Inverse();
    InverseUndoesOnCoords(e, p);
    InverseUndoesOnCoords(e, p.Sub(iso.offset));
    ApplyToCoordLinear(ei, p, iso.offset);
    ApplyToCoordLinear(ei, iso.offset, e.ApplyToCoord(p));
  }

  /** An isometry is one-to-one. */
  lemma IsometryInjective(iso: Isometry, p: TileCoord, q: TileCoord)
    requires iso.Apply(p) == iso.Apply(q)
    ensures p == q
  {
    IsometryInverseLaws(iso, p);
    IsometryInverseLaws(iso, q);
  }
}
