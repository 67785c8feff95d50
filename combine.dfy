/**
 * Tile combination: when a Straight or Turn is drawn over an existing
 * tile, pick the junction that carries both roads.
 *
 * The existing tile `orig` is examined in its own frame: `trans` expresses
 * the new tile's frame relative to it, and each side of the new tile is
 * classified as an entrance of `orig`, an exit of `orig`, or neither.  A
 * fixed table turns the pair of classifications into a list of candidate
 * junctions, most specific first.
 */
module Combine {
  import opened Dihedral
  import opened Tiles

  datatype EnterExit = Entrance | Exit | Neither

  /** How the side of a tile of type `t` facing `d` is used: cars enter through it
      (travelling opposite to `d`), leave through it, or neither. */
  function CheckEntranceExit(t: TileType, d: Direction): EnterExit {
    if IsEntranceId(t, d.Opposite()) then Entrance
    else if IsExitId(t, d) then Exit
    else Neither
  }

  function YieldIntersectionTrans(dirNoYield: Direction, dirYield: Direction): DihedralElement {
    TransForDirs(Left, Up, dirNoYield, dirYield)
  }

  /** The two intersections whose non-yielding road runs `dirNoYield` and yielding road `dirYield`. */
  function Intersections(dirNoYield: Direction, dirYield: Direction): seq<Tile> {
    var transform := YieldIntersectionTrans(dirNoYield, dirYield);
    [Tile(YieldIntersection, transform, 0), Tile(LightIntersection, transform, 0)]
  }

  function MergeTiles(dirStraight: Direction, dirMerge: Direction): seq<Tile> {
    [Tile(Merge, TransForDirs(Up, Left, dirStraight, dirMerge), 0)]
  }

  function LightForwardTurnTiles(dirStraight: Direction, dirTurn: Direction): seq<Tile> {
    [Tile(LightForwardTurn, TransForDirs(Up, Right, dirStraight, dirTurn), 0)]
  }

  /** The first option whose type is not banned, or `fallback` when every option is banned. */
  function FirstAllowed(options: seq<Tile>, banned: set<TileType>, fallback: Tile): (r: Tile)
    ensures (forall i :: 0 <= i < |options| ==> options[i].tileType in banned) ==> r == fallback
    ensures forall i :: (0 <= i < |options| && options[i].tileType !in banned &&
      (forall j :: 0 <= j < i ==> options[j].tileType in banned)) ==> r == options[i]
    ensures r == fallback || (r in options && r.tileType !in banned)
  {
    if options == [] then fallback
    else if options[0].tileType !in banned then options[0]
    else FirstAllowed(options[1..], banned, fallback)
  }

  /** The tile that replaces `orig` when `add` is drawn over it. */
  function CombineTiles(orig: Tile, add: Tile, banned: set<TileType>): (r: Tile)
    ensures r == add || (r in CombineOptions(orig, add) && r.tileType !in banned)
    ensures add.tileType != Straight && add.tileType != Turn ==> r == add
  {
    FirstAllowed(CombineOptions(orig, add), banned, add)
  }

  /** The candidate junctions, most specific first. */
  function CombineOptions(orig: Tile, add: Tile): seq<Tile> {
    var trans := orig.transform.Inverse().Compose(add.transform);
    match add.tileType
    case Straight => StraightOptions(orig, trans, add.transform)
    case Turn => TurnOptions(orig, trans, add.transform)
    case _ => []
  }

  /** Candidates for a Straight with symmetry `h`, which `trans` expresses in the frame of `orig`. */
  function StraightOptions(orig: Tile, trans: DihedralElement, h: DihedralElement): seq<Tile> {
    var t := orig.tileType;
    if IsEntranceId(t, trans.Apply(StraightEntrance)) && IsExitId(t, trans.Apply(StraightExit)) then
      [orig]
    else
      StraightSidesOk(t, trans);
      StraightJunctions(CheckEntranceExit(t, trans.Apply(Left)), CheckEntranceExit(t, trans.Apply(Right)), h)
  }

  /** The junctions for a Straight with symmetry `h` whose left and right sides
      meet the existing roads as `left` and `right`.  Two entrances cannot face
      each other across a tile, so that pair never arises. */
  function StraightJunctions(left: EnterExit, right: EnterExit, h: DihedralElement): seq<Tile>
    requires !(left == Entrance && right == Entrance)
  {
    match (left, right)
    case (Entrance, Exit) => Intersections(h.Apply(Up), h.Apply(Right))
    case (Exit, Entrance) => Intersections(h.Apply(Up), h.Apply(Left))
    case (Entrance, Neither) => MergeTiles(h.Apply(Up), h.Apply(Right))
    case (Neither, Entrance) => MergeTiles(h.Apply(Up), h.Apply(Left))
    case (Exit, Neither) => LightForwardTurnTiles(h.Apply(Up), h.Apply(Right))
    case (Neither, Exit) => LightForwardTurnTiles(h.Apply(Up), h.Apply(Left))
    case (Neither, Neither) => []
    case (Exit, Exit) => []
    case (Entrance, Entrance) => assert false; []
  }

  /** Candidates for a Turn with symmetry `h`, which `trans` expresses in the frame of `orig`. */
  function TurnOptions(orig: Tile, trans: DihedralElement, h: DihedralElement): seq<Tile> {
    var t := orig.tileType;
    if IsEntranceId(t, trans.Apply(TurnEntrance)) && IsExitId(t, trans.Apply(TurnExit)) then
      [orig]
    else
      TurnJunctions(CheckEntranceExit(t, trans.Apply(Up)), CheckEntranceExit(t, trans.Apply(Right)), h)
  }

  /** The junctions for a Turn with symmetry `h` whose entry side and right side
      meet the existing roads as `entry` and `right`. */
  function TurnJunctions(entry: EnterExit, right: EnterExit, h: DihedralElement): seq<Tile> {
    match (entry, right)
    case (Exit, Entrance) => Intersections(h.Apply(Up), h.Apply(Left))
    case (Exit, Neither) => LightForwardTurnTiles(h.Apply(Up), h.Apply(Right))
    case (Neither, Entrance) => MergeTiles(h.Apply(Left), h.Apply(Up))
    case (Neither, Exit) => [Tile(LightTurns, h, 0)]
    case (Entrance, _) => []
    case (Exit, Exit) => []
    case (Neither, Neither) => []
  }

  // ---------------------------------------------------------------------
  // Properties
  // ---------------------------------------------------------------------

  /** The consistency rule: the combined tile keeps every entrance of `orig` except
      where `add` leaves through that side, gains every entrance of `add`, and
      likewise for exits. */
  ghost predicate Consistent(orig: Tile, add: Tile, combined: Tile) {
    forall d: Direction ::
      && (IsEntrance(combined, d) == ((IsEntrance(orig, d) && !IsExit(add, d.Opposite())) || IsEntrance(add, d)))
      && (IsExit(combined, d) == ((IsExit(orig, d) && !IsEntrance(add, d.Opposite())) || IsExit(add, d)))
  }

  /** Every tile of `tiles`, turned by `k`. */
  function TurnAll(tiles: seq<Tile>, k: DihedralElement): (r: seq<Tile>)
    ensures |r| == |tiles|
    ensures forall i :: 0 <= i < |tiles| ==> r[i] == tiles[i].ApplyTransform(k, 0)
  {
    seq(|tiles|, i requires 0 <= i < |tiles| => tiles[i].ApplyTransform(k, 0))
  }

  /** The builders turn with their arguments. */
  lemma BuildersEquivariant(a: Direction, b: Direction, k: DihedralElement)
    requires Orthogonal(a, b)
    ensures Intersections(k.Apply(a), k.Apply(b)) == TurnAll(Intersections(a, b), k)
    ensures MergeTiles(k.Apply(a), k.Apply(b)) == TurnAll(MergeTiles(a, b), k)
    ensures LightForwardTurnTiles(k.Apply(a), k.Apply(b)) == TurnAll(LightForwardTurnTiles(a, b), k)
  {
    IntersectionsEquivariant(a, b, k);
    SingleBuilderEquivariant(Merge, Up, Left, a, b, k);
    SingleBuilderEquivariant(LightForwardTurn, Up, Right, a, b, k);
  }

  lemma IntersectionsEquivariant(a: Direction, b: Direction, k: DihedralElement)
    requires Orthogonal(a, b)
    ensures Intersections(k.Apply(a), k.Apply(b)) == TurnAll(Intersections(a, b), k)
  {
    var zero: bv8 := 0;
    assert zero ^ zero == zero;
    var e := YieldIntersectionTrans(a, b);
    TransForDirsEquivariant(Left, Up, a, b, k);
    var turned := TurnAll(Intersections(a, b), k);
    assert turned[0] == Tile(YieldIntersection, k.Compose(e), 0);
    assert turned[1] == Tile(LightIntersection, k.Compose(e), 0);
  }

  lemma SingleBuilderEquivariant(t: TileType, from1: Direction, from2: Direction, a: Direction, b: Direction, k: DihedralElement)
    requires Orthogonal(from1, from2) && Orthogonal(a, b)
    ensures [Tile(t, TransForDirs(from1, from2, k.Apply(a), k.Apply(b)), 0)] == TurnAll([Tile(t, TransForDirs(from1, from2, a, b), 0)], k)
  {
    var zero: bv8 := 0;
    assert zero ^ zero == zero;
    TransForDirsEquivariant(from1, from2, a, b, k);
  }

  /** `IntersectionsEquivariant` for roads given in the frame of `h`. */
  lemma FramedIntersections(x: Direction, y: Direction, h: DihedralElement, k: DihedralElement)
    requires Orthogonal(x, y)
    ensures Intersections(k.Compose(h).Apply(x), k.Compose(h).Apply(y)) == TurnAll(Intersections(h.Apply(x), h.Apply(y)), k)
  {
    ComposeActs(k, h, x);
    ComposeActs(k, h, y);
    ApplyKeepsOrthogonal(h, x, y);
    IntersectionsEquivariant(h.Apply(x), h.Apply(y), k);
  }

  /** The merge builder for roads given in the frame of `h`. */
  lemma FramedMerge(x: Direction, y: Direction, h: DihedralElement, k: DihedralElement)
    requires Orthogonal(x, y)
    ensures MergeTiles(k.Compose(h).Apply(x), k.Compose(h).Apply(y)) == TurnAll(MergeTiles(h.Apply(x), h.Apply(y)), k)
  {
    ComposeActs(k, h, x);
    ComposeActs(k, h, y);
    ApplyKeepsOrthogonal(h, x, y);
    SingleBuilderEquivariant(Merge, Up, Left, h.Apply(x), h.Apply(y), k);
  }

  /** The forward-or-turn light builder for roads given in the frame of `h`. */
  lemma FramedLightForwardTurn(x: Direction, y: Direction, h: DihedralElement, k: DihedralElement)
    requires Orthogonal(x, y)
    ensures LightForwardTurnTiles(k.Compose(h).Apply(x), k.Compose(h).Apply(y)) == TurnAll(LightForwardTurnTiles(h.Apply(x), h.Apply(y)), k)
  {
    ComposeActs(k, h, x);
    ComposeActs(k, h, y);
    ApplyKeepsOrthogonal(h, x, y);
    SingleBuilderEquivariant(LightForwardTurn, Up, Right, h.Apply(x), h.Apply(y), k);
  }

  lemma StraightJunctionsEquivariant(left: EnterExit, right: EnterExit, h: DihedralElement, k: DihedralElement)
    requires !(left == Entrance && right == Entrance)
    ensures StraightJunctions(left, right, k.Compose(h)) == TurnAll(StraightJunctions(left, right, h), k)
  {
    match (left, right)
    case (Entrance, Exit) => FramedIntersections(Up, Right, h, k);
    case (Exit, Entrance) => FramedIntersections(Up, Left, h, k);
    case (Entrance, Neither) => FramedMerge(Up, Right, h, k);
    case (Neither, Entrance) => FramedMerge(Up, Left, h, k);
    case (Exit, Neither) => FramedLightForwardTurn(Up, Right, h, k);
    case (Neither, Exit) => FramedLightForwardTurn(Up, Left, h, k);
    case (Neither, Neither) =>
    case (Exit, Exit) =>
  }

  lemma TurnJunctionsEquivariant(entry: EnterExit, right: EnterExit, h: DihedralElement, k: DihedralElement)
    ensures TurnJunctions(entry, right, k.Compose(h)) == TurnAll(TurnJunctions(entry, right, h), k)
  {
    match (entry, right)
    case (Exit, Entrance) => FramedIntersections(Up, Left, h, k);
    case (Exit, Neither) => FramedLightForwardTurn(Up, Right, h, k);
    case (Neither, Entrance) => FramedMerge(Left, Up, h, k);
    case (Neither, Exit) =>
      var zero: bv8 := 0;
      assert zero ^ zero == zero;
      assert TurnAll([Tile(LightTurns, h, 0)], k) == [Tile(LightTurns, k.Compose(h), 0)];
    case (Entrance, _) =>
    case (Exit, Exit) =>
    case (Neither, Neither) =>
  }

  lemma StraightOptionsEquivariant(orig: Tile, trans: DihedralElement, h: DihedralElement, k: DihedralElement)
    ensures StraightOptions(orig.ApplyTransform(k, 0), trans, k.Compose(h)) == TurnAll(StraightOptions(orig, trans, h), k)
  {
    var t := orig.tileType;
    var turned := orig.ApplyTransform(k, 0);
    assert turned.tileType == t;
    if IsEntranceId(t, trans.Apply(StraightEntrance)) && IsExitId(t, trans.Apply(StraightExit)) {
      assert TurnAll([orig], k) == [turned];
    } else {
      StraightJunctionsInFrame(t, trans, h, k);
    }
  }

  /** The junction part of `StraightOptionsEquivariant`. */
  lemma StraightJunctionsInFrame(t: TileType, trans: DihedralElement, h: DihedralElement, k: DihedralElement)
    ensures var left, right := CheckEntranceExit(t, trans.Apply(Left)), CheckEntranceExit(t, trans.Apply(Right));
      && !(left == Entrance && right == Entrance)
      && StraightJunctions(left, right, k.Compose(h)) == TurnAll(StraightJunctions(left, right, h), k)
  {
    StraightSidesOk(t, trans);
    StraightJunctionsEquivariant(CheckEntranceExit(t, trans.Apply(Left)), CheckEntranceExit(t, trans.Apply(Right)), h, k);
  }

  /** The left and right sides of a Straight are never both entrances of the tile below. */
  lemma StraightSidesOk(t: TileType, trans: DihedralElement)
    ensures !(CheckEntranceExit(t, trans.Apply(Left)) == Entrance && CheckEntranceExit(t, trans.Apply(Right)) == Entrance)
  {
    ApplyOppositeSides(trans);
    OppositeSides(t, trans.Apply(Left), trans.Apply(Right));
  }

  /** Two opposite sides of a tile are never both entrances. */
  lemma OppositeSides(t: TileType, a: Direction, b: Direction)
    requires b == a.Opposite()
    ensures !(CheckEntranceExit(t, a) == Entrance && CheckEntranceExit(t, b) == Entrance)
  {
    match a
    case Up =>
    case Right =>
    case Down =>
    case Left =>
  }

  lemma TurnOptionsEquivariant(orig: Tile, trans: DihedralElement, h: DihedralElement, k: DihedralElement)
    ensures TurnOptions(orig.ApplyTransform(k, 0), trans, k.Compose(h)) == TurnAll(TurnOptions(orig, trans, h), k)
  {
    var t := orig.tileType;
    if IsEntranceId(t, trans.Apply(TurnEntrance)) && IsExitId(t, trans.Apply(TurnExit)) {
      assert TurnAll([orig], k) == [orig.ApplyTransform(k, 0)];
    } else {
      TurnJunctionsEquivariant(CheckEntranceExit(t, trans.Apply(Up)), CheckEntranceExit(t, trans.Apply(Right)), h, k);
    }
  }

  /** Turning both tiles turns every candidate by the same symmetry. */
  lemma CombineOptionsEquivariant(orig: Tile, add: Tile, k: DihedralElement)
    ensures CombineOptions(orig.ApplyTransform(k, 0), add.ApplyTransform(k, 0)) == TurnAll(CombineOptions(orig, add), k)
  {
    var g, h := orig.transform, add.transform;
    calc {
      k.Compose(g).Inverse().Compose(k.Compose(h));
      { ComposeInverse(k, g); }
      g.Inverse().Compose(k.Inverse()).Compose(k.Compose(h));
      { ComposeAssociative(g.Inverse(), k.Inverse(), k.Compose(h));
        ComposeAssociative(k.Inverse(), k, h); InverseLaws(k); IdentityLaws(h, Up); }
      g.Inverse().Compose(h);
    }
    StraightOptionsEquivariant(orig, g.Inverse().Compose(h), h, k);
    TurnOptionsEquivariant(orig, g.Inverse().Compose(h), h, k);
  }

  // The sides of each junction, read off from the two directions it was built from.

  /** Seen from the frame of `e`, `d` is `x` exactly when it is `x`'s image `a`, and likewise for `y`. */
  lemma FrameSides(e: DihedralElement, x: Direction, y: Direction, a: Direction, b: Direction, d: Direction)
    requires e.Apply(x) == a && e.Apply(y) == b
    ensures e.ApplyInverse(d) == x <==> d == a
    ensures e.ApplyInverse(d) == y <==> d == b
  {
    ApplyInverseLaw(e, d);
    ApplyInverseLaw(e, x);
    ApplyInverseLaw(e, y);
  }

  /** An intersection built for roads `a` and `b` lets cars in and out travelling `a` or `b`. */
  lemma IntersectionSides(a: Direction, b: Direction, c: Tile, d: Direction)
    requires Orthogonal(a, b)
    requires c in Intersections(a, b)
    ensures IsEntrance(c, d) == (d == a || d == b)
    ensures IsExit(c, d) == (d == a || d == b)
  {
    var e := YieldIntersectionTrans(a, b);
    TransForDirsMaps(Left, Up, a, b);
    FrameSides(e, Left, Up, a, b, d);
    assert c.transform == e && (c.tileType == YieldIntersection || c.tileType == LightIntersection);
  }

  /** A merge built for straight road `a` and joining road `b` admits cars travelling
      `a` or `b` and lets them out travelling `a`. */
  lemma MergeSides(a: Direction, b: Direction, c: Tile, d: Direction)
    requires Orthogonal(a, b)
    requires c in MergeTiles(a, b)
    ensures IsEntrance(c, d) == (d == a || d == b)
    ensures IsExit(c, d) == (d == a)
  {
    var e := TransForDirs(Up, Left, a, b);
    TransForDirsMaps(Up, Left, a, b);
    FrameSides(e, Up, Left, a, b, d);
    assert c == Tile(Merge, e, 0);
  }

  /** A forward-or-turn light built for straight road `a` and turn `b` admits cars
      travelling `a` and lets them out travelling `a` or `b`. */
  lemma LightForwardTurnSides(a: Direction, b: Direction, c: Tile, d: Direction)
    requires Orthogonal(a, b)
    requires c in LightForwardTurnTiles(a, b)
    ensures IsEntrance(c, d) == (d == a)
    ensures IsExit(c, d) == (d == a || d == b.Opposite())
  {
    var e := TransForDirs(Up, Right, a, b);
    TransForDirsMaps(Up, Right, a, b);
    ApplyOpposite(e, Right);
    FrameSides(e, Up, Left, a, b.Opposite(), d);
    assert c == Tile(LightForwardTurn, e, 0);
  }

  /** A tile of type `t` placed with symmetry `h` has the canonical sides of `t` turned by `h`. */
  lemma PlacedSides(t: TileType, h: DihedralElement, o: bv8, d: Direction)
    ensures IsEntrance(Tile(t, h, o), h.Apply(d)) == IsEntranceId(t, d)
    ensures IsExit(Tile(t, h, o), h.Apply(d)) == IsExitId(t, d)
  {
    ApplyInverseLaw(h, d);
  }

  /** Every placed tile keeps the two rules of the canonical tables. */
  lemma PlacedTileRules(tile: Tile, d: Direction)
    ensures !(IsEntrance(tile, d.Opposite()) && IsExit(tile, d))
    ensures !(IsEntrance(tile, d) && IsEntrance(tile, d.Opposite()))
  {
    ApplyOpposite(tile.transform, d);
    EntranceExitDisjoint(tile.tileType, tile.transform.ApplyInverse(d));
    NoOpposedEntrances(tile.tileType, tile.transform.ApplyInverse(d));
  }

  /** Classifying a side of the new tile in the frame of `orig` is classifying the
      matching side of `orig` in the world. */
  lemma ClassifyInWorld(orig: Tile, h: DihedralElement, d: Direction)
    ensures IsEntranceId(orig.tileType, orig.transform.Inverse().Compose(h).Apply(d)) == IsEntrance(orig, h.Apply(d))
    ensures IsExitId(orig.tileType, orig.transform.Inverse().Compose(h).Apply(d)) == IsExit(orig, h.Apply(d))
    ensures CheckEntranceExit(orig.tileType, orig.transform.Inverse().Compose(h).Apply(d)) ==
      if IsEntrance(orig, h.Apply(d).Opposite()) then Entrance
      else if IsExit(orig, h.Apply(d)) then Exit
      else Neither
  {
    var g := orig.transform;
    ComposeActs(g.Inverse(), h, d);
    ApplyInverseLaw(g, h.Apply(d));
    ApplyInverseLaw(g, h.Apply(d).Opposite());
    ApplyOpposite(g.Inverse(), h.Apply(d));
  }

  /** The images of the four directions under `h` are the four directions, paired as opposites. */
  lemma FrameOf(h: DihedralElement, d: Direction)
    ensures d == h.Apply(Up) || d == h.Apply(Right) || d == h.Apply(Down) || d == h.Apply(Left)
    ensures h.Apply(Up).Opposite() == h.Apply(Down) && h.Apply(Down).Opposite() == h.Apply(Up)
    ensures h.Apply(Left).Opposite() == h.Apply(Right) && h.Apply(Right).Opposite() == h.Apply(Left)
    ensures Orthogonal(h.Apply(Up), h.Apply(Right)) && Orthogonal(h.Apply(Up), h.Apply(Left))
    ensures Orthogonal(h.Apply(Left), h.Apply(Up))
  {
    ApplyInverseLaw(h, d);
    ApplyOpposite(h, Up);
    ApplyOpposite(h, Down);
    ApplyOpposite(h, Left);
    ApplyOpposite(h, Right);
    ApplyKeepsOrthogonal(h, Up, Right);
    ApplyKeepsOrthogonal(h, Up, Left);
    ApplyKeepsOrthogonal(h, Left, Up);
  }

  /** How the side of `orig` that a car travelling `d` leaves through is used. */
  function SideUse(orig: Tile, d: Direction): EnterExit {
    if IsEntrance(orig, d.Opposite()) then Entrance
    else if IsExit(orig, d) then Exit
    else Neither
  }

  /** The Straight candidates, stated in world directions. */
  lemma StraightOptionsInWorld(orig: Tile, add: Tile)
    requires add.tileType == Straight
    ensures var h := add.transform;
      !(SideUse(orig, h.Apply(Left)) == Entrance && SideUse(orig, h.Apply(Right)) == Entrance) &&
      CombineOptions(orig, add) ==
        if IsEntrance(orig, h.Apply(Up)) && IsExit(orig, h.Apply(Up)) then [orig]
        else StraightJunctions(SideUse(orig, h.Apply(Left)), SideUse(orig, h.Apply(Right)), h)
  {
    var h := add.transform;
    ClassifyInWorld(orig, h, Up);
    ClassifyInWorld(orig, h, Left);
    ClassifyInWorld(orig, h, Right);
    FrameOf(h, Up);
    PlacedTileRules(orig, h.Apply(Right));
  }

  lemma StraightConsistent(orig: Tile, add: Tile, c: Tile, d: Direction)
    requires add.tileType == Straight
    requires c in CombineOptions(orig, add)
    ensures IsEntrance(c, d) == ((IsEntrance(orig, d) && !IsExit(add, d.Opposite())) || IsEntrance(add, d))
    ensures IsExit(c, d) == ((IsExit(orig, d) && !IsEntrance(add, d.Opposite())) || IsExit(add, d))
  {
    var h := add.transform;
    var up, right, down, left := h.Apply(Up), h.Apply(Right), h.Apply(Down), h.Apply(Left);
    StraightOptionsInWorld(orig, add);
    FrameOf(h, d);
    PlacedSides(Straight, h, add.offset, Up);
    PlacedSides(Straight, h, add.offset, Right);
    PlacedSides(Straight, h, add.offset, Down);
    PlacedSides(Straight, h, add.offset, Left);
    PlacedTileRules(orig, up);
    PlacedTileRules(orig, down);
    PlacedTileRules(orig, left);
    PlacedTileRules(orig, right);
    if IsEntrance(orig, up) && IsExit(orig, up) {
    } else {
      match (SideUse(orig, left), SideUse(orig, right))
      case (Entrance, Exit) => IntersectionSides(up, right, c, d);
      case (Exit, Entrance) => IntersectionSides(up, left, c, d);
      case (Entrance, Neither) => MergeSides(up, right, c, d);
      case (Neither, Entrance) => MergeSides(up, left, c, d);
      case (Exit, Neither) => LightForwardTurnSides(up, right, c, d);
      case (Neither, Exit) => LightForwardTurnSides(up, left, c, d);
      case (Neither, Neither) =>
      case (Exit, Exit) =>
      case (Entrance, Entrance) =>
    }
  }

  /** The Turn candidates, stated in world directions. */
  lemma TurnOptionsInWorld(orig: Tile, add: Tile)
    requires add.tileType == Turn
    ensures var h := add.transform;
      CombineOptions(orig, add) ==
        if IsEntrance(orig, h.Apply(Up)) && IsExit(orig, h.Apply(Left)) then [orig]
        else TurnJunctions(SideUse(orig, h.Apply(Up)), SideUse(orig, h.Apply(Right)), h)
  {
    var h := add.transform;
    ClassifyInWorld(orig, h, Up);
    ClassifyInWorld(orig, h, Left);
    ClassifyInWorld(orig, h, Right);
  }

  lemma TurnConsistent(orig: Tile, add: Tile, c: Tile, d: Direction)
    requires add.tileType == Turn
    requires c in CombineOptions(orig, add)
    ensures IsEntrance(c, d) == ((IsEntrance(orig, d) && !IsExit(add, d.Opposite())) || IsEntrance(add, d))
    ensures IsExit(c, d) == ((IsExit(orig, d) && !IsEntrance(add, d.Opposite())) || IsExit(add, d))
  {
    var h := add.transform;
    var up, right, down, left := h.Apply(Up), h.Apply(Right), h.Apply(Down), h.Apply(Left);
    TurnOptionsInWorld(orig, add);
    FrameOf(h, d);
    PlacedSides(Turn, h, add.offset, Up);
    PlacedSides(Turn, h, add.offset, Right);
    PlacedSides(Turn, h, add.offset, Down);
    PlacedSides(Turn, h, add.offset, Left);
    PlacedTileRules(orig, up);
    PlacedTileRules(orig, down);
    PlacedTileRules(orig, left);
    PlacedTileRules(orig, right);
    if IsEntrance(orig, up) && IsExit(orig, left) {
    } else {
      match (SideUse(orig, up), SideUse(orig, right))
      case (Exit, Entrance) => IntersectionSides(up, left, c, d);
      case (Exit, Neither) => LightForwardTurnSides(up, right, c, d);
      case (Neither, Entrance) => MergeSides(left, up, c, d);
      case (Neither, Exit) =>
        PlacedSides(LightTurns, h, 0, Up);
        PlacedSides(LightTurns, h, 0, Right);
        PlacedSides(LightTurns, h, 0, Down);
        PlacedSides(LightTurns, h, 0, Left);
      case (Entrance, _) =>
      case (Exit, Exit) =>
      case (Neither, Neither) =>
    }
  }

  /** Every candidate obeys the consistency rule. */
  lemma CombineConsistent(orig: Tile, add: Tile)
    requires add.tileType == Straight || add.tileType == Turn
    ensures forall c :: c in CombineOptions(orig, add) ==> Consistent(orig, add, c)
  {
    forall c, d | c in CombineOptions(orig, add)
      ensures && (IsEntrance(c, d) == ((IsEntrance(orig, d) && !IsExit(add, d.Opposite())) || IsEntrance(add, d)))
              && (IsExit(c, d) == ((IsExit(orig, d) && !IsEntrance(add, d.Opposite())) || IsExit(add, d)))
    {
      if add.tileType == Straight {
        StraightConsistent(orig, add, c, d);
      } else {
        TurnConsistent(orig, add, c, d);
      }
    }
  }
}
