/**
 * The round-based race simulator.
 *
 * Cars sit on edge middles of tiles (odd half-tile positions) and face the
 * tile they are about to cross, so `pos + dir` is always the centre of that
 * tile.  Each round every car is decided exactly once: it moves across its
 * tile unless the tile's right-of-way rule holds it back or the car waiting
 * where it would arrive does not move.  Then new cars spawn at the Finish
 * tiles, a snapshot of all cars is published, and cars that reached a
 * Finish or drove off the road are removed.
 */
module Simulation {
  import opened Wrappers
  import opened Dihedral
  import opened Tiles
  import opened CarCoords
  import opened Courses

  /** The simulator stops after this many rounds. */
  const MaxRounds: nat := 1000

  datatype CarData = CarData(id: nat, pos: CarCoord, dir: Direction) {
    /** The centre of the tile the car is about to cross. */
    function TilePos(): CarCoord {
      pos.Plus(dir)
    }
  }

  datatype SimEvent =
    | RoundEvent(cars: seq<CarData>)
    | FinishedEvent(car: nat)
    | CrashedEvent(car: nat)

  /** `Random(n)` spawns with probability n/8 at each free start. */
  datatype SpawnPolicy = Always | Random(chance: bv8)

  datatype CarStatus = Racing | Finished | Crashed

  datatype MoveStatus = Unknown | Moving | Stopped

  /** The start of a Finish tile at `p`: on the edge it faces, heading out of it. */
  function StartOf(p: TileCoord, tile: Tile): (start: (CarCoord, Direction))
    ensures start.1 == tile.transform.Apply(Up)
    ensures start.0.Plus(start.1) == FromTile(p.Step(start.1))
  {
    var dir := tile.transform.Apply(Up);
    (FromTile(p).Plus(dir), dir)
  }

  /** Crossing a tile from its centre along `d` lands on an edge whose next tile centre is even. */
  lemma StepTwiceIsEven(c: CarCoord, d: Direction)
    requires c.IsEven()
    ensures c.Plus(d).Plus(d).IsEven()
  {
  }

  /** A phase bit of an alternating light: only the lowest bits of the
      direction index, the round and the offset matter. */
  function LightBlocks(dirNorm: Direction, round: nat, offset: bv8): bool {
    ((dirNorm.Index() as bv8) ^ ((round % 2) as bv8) ^ offset ^ 1) & 1 != 0
  }

  /** A light intersection holds back exactly one of its two canonical
      approaches in every round, and the held approach alternates. */
  lemma LightAlternates(round: nat, offset: bv8)
    ensures LightBlocks(Up, round, offset) != LightBlocks(Left, round, offset)
    ensures LightBlocks(Up, round + 1, offset) != LightBlocks(Up, round, offset)
  {
    assert (round + 1) % 2 != round % 2;
  }

  /** Which of two alternatives a light tile sends cars to this round: the
      round, truncated to a byte, is XORed with the offset and only the
      lowest bit is kept, which is the parity of the round. */
  function LightPhase(round: nat, offset: bv8): bool {
    (((round % 2) as bv8) ^ offset) & 1 != 0
  }

  lemma LightPhaseAlternates(round: nat, offset: bv8)
    ensures LightPhase(round + 1, offset) != LightPhase(round, offset)
  {
    assert (round + 1) % 2 != round % 2;
  }

  /** The direction a car leaves `tile` in when it entered going `inDir`.
      No car ever crosses a Finish tile. */
  function OutDir(tile: Tile, inDir: Direction, round: nat): (d: Direction)
    requires tile.tileType != Finish
  {
    var offset := LightPhase(round, tile.offset);
    match tile.tileType
    case Straight | LightIntersection | YieldIntersection => inDir
    case Turn => tile.transform.Apply(Left)
    case LightTurns => tile.transform.Apply(if offset then Right else Left)
    case LightForwardTurn => tile.transform.Apply(if offset then Up else Left)
    case Merge => tile.transform.Apply(Up)
  }

  /** A car entering a tile through one of its entrances leaves through one of its exits. */
  lemma OutDirIsExit(tile: Tile, inDir: Direction, round: nat)
    requires tile.tileType != Finish && IsEntrance(tile, inDir)
    ensures IsExit(tile, OutDir(tile, inDir, round))
  {
    var e := tile.transform;
    ApplyInverseLaw(e, inDir);
    ApplyInverseLaw(e, e.Apply(Left));
    ApplyInverseLaw(e, e.Apply(Right));
    ApplyInverseLaw(e, e.Apply(Up));
  }

  /** The light tiles with two exits alternate between them from round to round. */
  lemma OutDirAlternates(tile: Tile, inDir: Direction, round: nat)
    requires tile.tileType == LightTurns || tile.tileType == LightForwardTurn
    ensures OutDir(tile, inDir, round) != OutDir(tile, inDir, round + 1)
  {
    LightPhaseAlternates(round, tile.offset);
    ApplyInverseLaw(tile.transform, tile.transform.Apply(Left));
    ApplyInverseLaw(tile.transform, tile.transform.Apply(Right));
    ApplyInverseLaw(tile.transform, tile.transform.Apply(Up));
  }

  /** `car_grid`: where each car stands.  When two cars share a cell the later one is recorded. */
  ghost predicate GridOk(grid: map<CarCoord, nat>, cars: seq<CarData>) {
    && (forall p :: p in grid ==> grid[p] < |cars| && cars[grid[p]].pos == p)
    && (forall i :: 0 <= i < |cars| ==> cars[i].pos in grid)
  }

  method BuildGrid(cars: seq<CarData>) returns (grid: map<CarCoord, nat>)
    ensures GridOk(grid, cars)
    ensures forall i :: 0 <= i < |cars| ==> grid[cars[i].pos] >= i
  {
    grid := map[];
    for i := 0 to |cars|
      invariant forall p :: p in grid ==> grid[p] < i && cars[grid[p]].pos == p
      invariant forall j :: 0 <= j < i ==> cars[j].pos in grid && grid[cars[j].pos] >= j
    {
      grid := grid[cars[i].pos := i];
    }
  }
  /** A `Random` policy draws with a chance out of 8. */
  predicate PolicyOk(p: SpawnPolicy) {
    p.Random? ==> p.chance <= 8
  }

  class Simulator {
    const course: Course
    /** One start per Finish tile, in no particular order. */
    const starts: seq<(CarCoord, Direction)>
    /** The Finish cell each start belongs to. */
    ghost const startCells: seq<TileCoord>
    const maxCars: nat
    var round: nat
    var cars: seq<CarData>
    var spawnPolicy: SpawnPolicy
    var nextCar: nat
    var stream: seq<SimEvent>

    /** A car on the road: the tile it faces exists, is not a Finish and
        admits the car's direction. */
    predicate CarOk(car: CarData) {
      var tp := car.TilePos();
      && tp.IsEven()
      && tp.ToTile() in course
      && course[tp.ToTile()].tileType != Finish
      && IsEntrance(course[tp.ToTile()], car.dir)
    }

    /** Every car of `cs` is on the road and was numbered below `bound`. */
    ghost predicate CarsOk(cs: seq<CarData>, bound: nat) {
      forall i :: 0 <= i < |cs| ==> CarOk(cs[i]) && cs[i].id < bound
    }

    /** Every start is the start of a Finish tile of the course. */
    ghost predicate StartsOk() {
      && |starts| == |startCells|
      && (forall j :: 0 <= j < |startCells| ==>
            && startCells[j] in course
            && course[startCells[j]].tileType == Finish
            && starts[j] == StartOf(startCells[j], course[startCells[j]]))
    }

    ghost predicate Valid()
      reads this
    {
      StartsOk() && PolicyOk(spawnPolicy) && nextCar <= maxCars && CarsOk(cars, nextCar)
    }

    /** Collects a start for every Finish tile of `course`. */
    constructor(course: Course, maxCars: nat)
      ensures this.course == course && this.maxCars == maxCars
      ensures round == 0 && cars == [] && nextCar == 0 && stream == [] && spawnPolicy == Always
      ensures Valid()
      ensures forall j, k :: 0 <= j < k < |startCells| ==> startCells[j] != startCells[k]
      ensures forall p :: p in course && course[p].tileType == Finish <==> p in startCells
    {
      var found: seq<(CarCoord, Direction)> := [];
      ghost var cells: seq<TileCoord> := [];
      var rest := course.Keys;
      while rest != {}
        invariant rest <= course.Keys
        invariant |found| == |cells|
        invariant forall j :: 0 <= j < |cells| ==>
          && cells[j] in course && cells[j] !in rest
          && course[cells[j]].tileType == Finish
          && found[j] == StartOf(cells[j], course[cells[j]])
        invariant forall j, k :: 0 <= j < k < |cells| ==> cells[j] != cells[k]
        invariant forall p :: p in course && p !in rest && course[p].tileType == Finish ==> p in cells
        decreases |rest|
      {
        var p :| p in rest;
        if course[p].tileType == Finish {
          found := found + [StartOf(p, course[p])];
          cells := cells + [p];
        }
        rest := rest - {p};
      }
      this.course := course;
      this.starts := found;
      this.startCells := cells;
      this.maxCars := maxCars;
      round := 0;
      cars := [];
      spawnPolicy := Always;
      nextCar := 0;
      stream := [];
    }

    method SetSpawnPolicy(p: SpawnPolicy)
      requires Valid() && PolicyOk(p)
      modifies this
      ensures Valid() && spawnPolicy == p
      ensures round == old(round) && cars == old(cars) && nextCar == old(nextCar) && stream == old(stream)
    {
      spawnPolicy := p;
    }

    /** Hands over the events produced so far and forgets them. */
    method Events() returns (events: seq<SimEvent>)
      requires Valid()
      modifies this
      ensures Valid() && events == old(stream) && stream == []
      ensures round == old(round) && cars == old(cars) && nextCar == old(nextCar) && spawnPolicy == old(spawnPolicy)
    {
      events := stream;
      stream := [];
    }

    /** The tile whose centre is `pos`; the conversion asserts that `pos` is a centre. */
    function TileAt(pos: CarCoord): (r: Option<Tile>)
      requires pos.IsEven()
      ensures r.Some? <==> pos.ToTile() in course
      ensures r.Some? ==> r.value == course[pos.ToTile()]
    {
      if pos.ToTile() in course then Some(course[pos.ToTile()]) else None
    }

    /** Where a car crossing the tile at `tilePos` going `inDir` in round
        `atRound` arrives. */
    function OutPos(atRound: nat, tilePos: CarCoord, inDir: Direction): (r: CarCoord)
      requires tilePos.IsEven() && tilePos.ToTile() in course && course[tilePos.ToTile()].tileType != Finish
    {
      tilePos.Plus(OutDir(TileAt(tilePos).value, inDir, atRound))
    }

    /** The car after crossing its tile in round `atRound`: it keeps its id,
        stands on the tile's exit edge and faces away from the tile. */
    function NewPos(atRound: nat, car: CarData): (r: CarData)
      requires CarOk(car)
      ensures r.id == car.id
      ensures r.TilePos().IsEven()
    {
      var tilePos := car.TilePos();
      var tile := TileAt(tilePos).value;
      var newDir := OutDir(tile, car.dir, atRound);
      StepTwiceIsEven(tilePos, newDir);
      CarData(car.id, tilePos.Plus(newDir), newDir)
    }

    /** A moved car stands on the edge next to its old tile that the tile
        lets it leave through, facing away from that tile. */
    lemma NewPosLeavesThroughExit(atRound: nat, car: CarData)
      requires CarOk(car)
      ensures var r := NewPos(atRound, car);
        && r.pos == OutPos(atRound, car.TilePos(), car.dir)
        && r.pos.DistanceSquared(car.TilePos()) == 1
        && r.TilePos() == r.pos.Plus(r.dir)
        && IsExit(course[car.TilePos().ToTile()], r.dir)
    {
      var tile := TileAt(car.TilePos()).value;
      OutDirIsExit(tile, car.dir, atRound);
      StepLaws(car.TilePos(), OutDir(tile, car.dir, atRound));
    }

    /** A car standing at `pos` facing `carDir` is still racing when the
        tile ahead admits it, has finished when that tile is a Finish, and
        has crashed otherwise. */
    function CheckFinish(pos: CarCoord, carDir: Direction): (r: CarStatus)
      requires pos.Plus(carDir).IsEven()
      ensures r == Racing <==> CarOk(CarData(0, pos, carDir))
      ensures r == Finished <==>
        var t := pos.Plus(carDir).ToTile();
        t in course && course[t].tileType == Finish && IsEntrance(course[t], carDir)
    {
      var tile := TileAt(pos.Plus(carDir));
      if tile.Some? then
        var carDirNorm := tile.value.transform.ApplyInverse(carDir);
        if IsEntranceId(tile.value.tileType, carDirNorm) then
          if tile.value.tileType == Finish then Finished else Racing
        else Crashed
      else Crashed
    }

    /** The cars of `cs` that keep racing, in order. */
    function Kept(cs: seq<CarData>): (r: seq<CarData>)
      requires forall k :: 0 <= k < |cs| ==> cs[k].TilePos().IsEven()
      ensures |r| <= |cs|
      ensures forall k :: 0 <= k < |r| ==> CarOk(r[k]) && r[k] in cs
    {
      if |cs| == 0 then []
      else
        var last := cs[|cs| - 1];
        assert last.TilePos().IsEven();
        var front := Kept(cs[..|cs| - 1]);
        if CheckFinish(last.pos, last.dir) == Racing then front + [last] else front
    }

    /** The Finished and Crashed events for the cars of `cs` that leave the race, in order. */
    function Departures(cs: seq<CarData>): (r: seq<SimEvent>)
      requires forall k :: 0 <= k < |cs| ==> cs[k].TilePos().IsEven()
      ensures |r| + |Kept(cs)| == |cs|
      ensures forall k :: 0 <= k < |r| ==> !r[k].RoundEvent?
    {
      if |cs| == 0 then []
      else
        var last := cs[|cs| - 1];
        assert last.TilePos().IsEven();
        var front := Departures(cs[..|cs| - 1]);
        match CheckFinish(last.pos, last.dir)
        case Racing => front
        case Finished => front + [FinishedEvent(last.id)]
        case Crashed => front + [CrashedEvent(last.id)]
    }

    /** A car retired from `cs` is one of its cars, so its number is below
        any bound on theirs. */
    lemma {:induction false} DeparturesBelow(cs: seq<CarData>, bound: nat)
      requires forall k :: 0 <= k < |cs| ==> cs[k].TilePos().IsEven() && cs[k].id < bound
      ensures forall k :: 0 <= k < |Departures(cs)| ==> Departures(cs)[k].car < bound
    {
      if |cs| > 0 {
        DeparturesBelow(cs[..|cs| - 1], bound);
      }
    }

    /** The fate of one car: kept when racing, otherwise the event that reports it. */
    lemma RetireSingle(car: CarData)
      requires car.TilePos().IsEven()
      ensures Kept([car]) == if CheckFinish(car.pos, car.dir) == Racing then [car] else []
      ensures Departures([car]) ==
        match CheckFinish(car.pos, car.dir)
        case Racing => []
        case Finished => [FinishedEvent(car.id)]
        case Crashed => [CrashedEvent(car.id)]
    {
      assert [car][..0] == [];
    }

    /** Retiring handles the cars one at a time, in list order: it splits over
        any concatenation, so with `RetireSingle` it is the in-order filter. */
    lemma RetireAppend(a: seq<CarData>, b: seq<CarData>)
      requires forall k :: 0 <= k < |a| ==> a[k].TilePos().IsEven()
      requires forall k :: 0 <= k < |b| ==> b[k].TilePos().IsEven()
      ensures forall k :: 0 <= k < |a + b| ==> (a + b)[k].TilePos().IsEven()
      ensures Kept(a + b) == Kept(a) + Kept(b)
      ensures Departures(a + b) == Departures(a) + Departures(b)
    {
      KeptAppend(a, b);
      DeparturesAppend(a, b);
    }

    lemma {:induction false} KeptAppend(a: seq<CarData>, b: seq<CarData>)
      requires forall k :: 0 <= k < |a| ==> a[k].TilePos().IsEven()
      requires forall k :: 0 <= k < |b| ==> b[k].TilePos().IsEven()
      ensures forall k :: 0 <= k < |a + b| ==> (a + b)[k].TilePos().IsEven()
      ensures Kept(a + b) == Kept(a) + Kept(b)
      decreases |b|
    {
      if |b| == 0 {
        assert a + b == a;
      } else {
        var front := b[..|b| - 1];
        assert b == front + [b[|b| - 1]];
        KeptAppend(a, front);
        KeptAppendStep(a, front, b[|b| - 1]);
      }
    }

    lemma KeptAppendStep(a: seq<CarData>, front: seq<CarData>, last: CarData)
      requires forall k :: 0 <= k < |a| ==> a[k].TilePos().IsEven()
      requires forall k :: 0 <= k < |front| ==> front[k].TilePos().IsEven()
      requires last.TilePos().IsEven()
      requires forall k :: 0 <= k < |a + front| ==> (a + front)[k].TilePos().IsEven()
      requires Kept(a + front) == Kept(a) + Kept(front)
      ensures forall k :: 0 <= k < |a + (front + [last])| ==> (a + (front + [last]))[k].TilePos().IsEven()
      ensures Kept(a + (front + [last])) == Kept(a) + Kept(front + [last])
    {
      var af := a + front;
      assert a + (front + [last]) == af + [last];
      RetireLast(af, last);
      RetireLast(front, last);
      AppendAssoc(Kept(a), Kept(front), KeptOf(last));
    }

    lemma {:induction false} DeparturesAppend(a: seq<CarData>, b: seq<CarData>)
      requires forall k :: 0 <= k < |a| ==> a[k].TilePos().IsEven()
      requires forall k :: 0 <= k < |b| ==> b[k].TilePos().IsEven()
      ensures forall k :: 0 <= k < |a + b| ==> (a + b)[k].TilePos().IsEven()
      ensures Departures(a + b) == Departures(a) + Departures(b)
      decreases |b|
    {
      if |b| == 0 {
        assert a + b == a;
      } else {
        var front := b[..|b| - 1];
        assert b == front + [b[|b| - 1]];
        DeparturesAppend(a, front);
        DeparturesAppendStep(a, front, b[|b| - 1]);
      }
    }

    lemma DeparturesAppendStep(a: seq<CarData>, front: seq<CarData>, last: CarData)
      requires forall k :: 0 <= k < |a| ==> a[k].TilePos().IsEven()
      requires forall k :: 0 <= k < |front| ==> front[k].TilePos().IsEven()
      requires last.TilePos().IsEven()
      requires forall k :: 0 <= k < |a + front| ==> (a + front)[k].TilePos().IsEven()
      requires Departures(a + front) == Departures(a) + Departures(front)
      ensures forall k :: 0 <= k < |a + (front + [last])| ==> (a + (front + [last]))[k].TilePos().IsEven()
      ensures Departures(a + (front + [last])) == Departures(a) + Departures(front + [last])
    {
      var af := a + front;
      assert a + (front + [last]) == af + [last];
      RetireLast(af, last);
      RetireLast(front, last);
      AppendAssoc(Departures(a), Departures(front), DepartureOf(last));
    }

    /** The kept cars of a numbered list are valid cars numbered below the same bound. */
    lemma KeptBelow(cs: seq<CarData>, bound: nat)
      requires forall k :: 0 <= k < |cs| ==> cs[k].TilePos().IsEven() && cs[k].id < bound
      ensures CarsOk(Kept(cs), bound)
    {
      var r := Kept(cs);
      forall i | 0 <= i < |r|
        ensures CarOk(r[i]) && r[i].id < bound
      {
        assert r[i] in cs;
      }
    }

    /** What retiring one car contributes to the kept cars and to the events. */
    function KeptOf(car: CarData): seq<CarData>
      requires car.TilePos().IsEven()
    {
      if CheckFinish(car.pos, car.dir) == Racing then [car] else []
    }

    function DepartureOf(car: CarData): seq<SimEvent>
      requires car.TilePos().IsEven()
    {
      match CheckFinish(car.pos, car.dir)
      case Racing => []
      case Finished => [FinishedEvent(car.id)]
      case Crashed => [CrashedEvent(car.id)]
    }

    lemma RetireLast(cs: seq<CarData>, car: CarData)
      requires forall k :: 0 <= k < |cs| ==> cs[k].TilePos().IsEven()
      requires car.TilePos().IsEven()
      ensures forall k :: 0 <= k < |cs + [car]| ==> (cs + [car])[k].TilePos().IsEven()
      ensures Kept(cs + [car]) == Kept(cs) + KeptOf(car)
      ensures Departures(cs + [car]) == Departures(cs) + DepartureOf(car)
    {
      var all := cs + [car];
      assert all[..|all| - 1] == cs;
    }

    lemma AppendAssoc<T>(x: seq<T>, y: seq<T>, z: seq<T>)
      ensures (x + y) + z == x + (y + z)
    {
    }

    /** `e` is the event that reports car `c` leaving the race. */
    predicate Reports(e: SimEvent, c: CarData)
      requires c.TilePos().IsEven()
    {
      || (CheckFinish(c.pos, c.dir) == Finished && e == FinishedEvent(c.id))
      || (CheckFinish(c.pos, c.dir) == Crashed && e == CrashedEvent(c.id))
    }

    /** Exactly the racing cars are kept; every car that finished gets a
        Finished event and every car that crashed a Crashed event, and no
        other event is produced. */
    lemma {:induction false} RetireMembers(cs: seq<CarData>)
      requires forall k :: 0 <= k < |cs| ==> cs[k].TilePos().IsEven()
      ensures forall c :: c in Kept(cs) <==> c in cs && CheckFinish(c.pos, c.dir) == Racing
      ensures forall c :: c in cs && CheckFinish(c.pos, c.dir) == Finished ==> FinishedEvent(c.id) in Departures(cs)
      ensures forall c :: c in cs && CheckFinish(c.pos, c.dir) == Crashed ==> CrashedEvent(c.id) in Departures(cs)
      ensures forall e :: e in Departures(cs) ==> exists c :: c in cs && Reports(e, c)
    {
      if |cs| > 0 {
        var front := cs[..|cs| - 1];
        var last := cs[|cs| - 1];
        RetireMembers(front);
        assert cs == front + [last];
        forall c | c in cs
          ensures c in front || c == last
        {
        }
        forall e | e in Departures(cs)
          ensures exists c :: c in cs && Reports(e, c)
        {
          if e in Departures(front) {
            var c :| c in front && Reports(e, c);
            assert c in cs;
          } else {
            assert last in cs && Reports(e, last);
          }
        }
      }
    }

    /** Handling one more car extends the kept cars or the departures by that car. */
    lemma RetireStep(before: seq<SimEvent>, cs: seq<CarData>, car: CarData)
      requires forall k :: 0 <= k < |cs| ==> cs[k].TilePos().IsEven()
      requires car.TilePos().IsEven()
      ensures forall k :: 0 <= k < |cs + [car]| ==> (cs + [car])[k].TilePos().IsEven()
      ensures var st := CheckFinish(car.pos, car.dir);
        && Kept(cs + [car]) == (if st == Racing then Kept(cs) + [car] else Kept(cs))
        && before + Departures(cs + [car]) ==
           (match st
            case Racing => before + Departures(cs)
            case Finished => (before + Departures(cs)) + [FinishedEvent(car.id)]
            case Crashed => (before + Departures(cs)) + [CrashedEvent(car.id)])
    {
      var all := cs + [car];
      assert all[..|all| - 1] == cs;
    }

    /** Handles one car of the new car list: a racing car joins `cars`,
        any other is reported as finished or crashed. */
    method Retire(ghost before: seq<SimEvent>, cs: seq<CarData>, car: CarData)
      requires forall k :: 0 <= k < |cs| ==> cs[k].TilePos().IsEven()
      requires car.TilePos().IsEven()
      requires cars == Kept(cs) && stream == before + Departures(cs)
      modifies this
      ensures forall k :: 0 <= k < |cs + [car]| ==> (cs + [car])[k].TilePos().IsEven()
      ensures cars == Kept(cs + [car]) && stream == before + Departures(cs + [car])
      ensures round == old(round) && nextCar == old(nextCar) && spawnPolicy == old(spawnPolicy)
    {
      RetireStep(before, cs, car);
      match CheckFinish(car.pos, car.dir)
      case Racing =>
        cars := cars + [car];
      case Finished =>
        stream := stream + [FinishedEvent(car.id)];
      case Crashed =>
        stream := stream + [CrashedEvent(car.id)];
    }

    predicate IsFinished()
      reads this
    {
      round >= MaxRounds || (|cars| == 0 && nextCar >= maxCars)
    }

    /** One round: decide and move every car, spawn, publish a snapshot,
        then retire the cars that finished or crashed. */
    method RunRound()
      requires Valid()
      modifies this
      ensures Valid()
      ensures round == old(round) + 1
      ensures spawnPolicy == old(spawnPolicy)
      ensures old(nextCar) <= nextCar <= maxCars
      ensures |stream| > |old(stream)| && stream[..|old(stream)|] == old(stream)
      ensures stream[|old(stream)|].RoundEvent?
      ensures |stream[|old(stream)|].cars| == |old(cars)| + (nextCar - old(nextCar))
      ensures forall k :: |old(stream)| < k < |stream| ==> !stream[k].RoundEvent?
      ensures |cars| <= |stream[|old(stream)|].cars|
      ensures forall k :: |old(stream)| < k < |stream| ==> stream[k].car < maxCars
    {
      var runner := new RoundRunner(this);
      runner.MoveCars();
      runner.AddCars();
      ghost var before := stream;
      var snapshot := runner.carsNew;
      stream := stream + [RoundEvent(snapshot)];
      runner.RemoveFinished();
      DeparturesBelow(snapshot, maxCars);
      assert stream[..|before|] == before;
      round := round + 1;
    }
  }

  /** The per-round bookkeeping: every car's decision and the new car list. */
  class RoundRunner {
    const sim: Simulator
    /** The simulator's round, cars and next car number when the round
        began; none of them changes while cars are decided. */
    const round: nat
    const cars: seq<CarData>
    const idBound: nat
    const grid: map<CarCoord, nat>
    var status: seq<MoveStatus>
    var carsNew: seq<CarData>
    /** The cars in the order their entries were pushed onto `carsNew`. */
    ghost var order: seq<nat>
    /** The cars marked Moving whose decision is still being worked out. */
    ghost var pending: set<nat>

    /** The fixed context of the round. */
    ghost predicate Fixed() {
      GridOk(grid, cars) && sim.CarsOk(cars, idBound)
    }

    /** The entry car `i` contributes to the new car list once its status is `st`. */
    ghost function Outcome(i: nat, st: MoveStatus): CarData
      requires Fixed() && i < |cars|
    {
      if st == Moving then sim.NewPos(round, cars[i]) else cars[i]
    }

    /** The bookkeeping of a round in progress, for given values of the
        runner's fields: pending cars are marked Moving, every decided car
        that is not pending has pushed exactly one entry, and that entry
        matches its decision. */
    ghost predicate Inv(st: seq<MoveStatus>, cn: seq<CarData>, ord: seq<nat>, pend: set<nat>) {
      && Fixed() && |st| == |cars|
      && (forall i :: i in pend ==> i < |st| && st[i] == Moving)
      && |cn| == |ord|
      && (forall k :: 0 <= k < |ord| ==>
            && ord[k] < |st| && ord[k] !in pend
            && st[ord[k]] != Unknown && cn[k] == Outcome(ord[k], st[ord[k]]))
      && (forall k, l :: 0 <= k < l < |ord| ==> ord[k] != ord[l])
      && (forall i :: 0 <= i < |st| && st[i] != Unknown ==> i in pend || i in ord)
    }

    ghost predicate Valid()
      reads this
    {
      Inv(status, carsNew, order, pending)
    }

    constructor(sim: Simulator)
      requires sim.Valid()
      ensures this.sim == sim && round == sim.round && cars == sim.cars && idBound == sim.nextCar
      ensures Valid() && pending == {} && order == [] && carsNew == []
      ensures |status| == |cars| && forall i :: 0 <= i < |status| ==> status[i] == Unknown
    {
      var g := BuildGrid(sim.cars);
      this.sim := sim;
      round := sim.round;
      cars := sim.cars;
      idBound := sim.nextCar;
      grid := g;
      status := seq(|sim.cars|, _ => Unknown);
      carsNew := [];
      order := [];
      pending := {};
    }

    function CarAt(pos: CarCoord): (r: Option<CarData>)
      requires GridOk(grid, cars)
      ensures r.Some? ==> r.value in cars && r.value.pos == pos
      ensures r.None? ==> forall i :: 0 <= i < |cars| ==> cars[i].pos != pos
    {
      if pos in grid then Some(cars[grid[pos]]) else None
    }

    /** Whether a car waits to enter the tile at `tilePos` travelling `fromDir`. */
    function IsEnteringTile(tilePos: CarCoord, fromDir: Direction): bool
      requires GridOk(grid, cars)
    {
      match CarAt(tilePos.Minus(fromDir))
      case Some(c) => c.dir == fromDir
      case None => false
    }

    /** The right-of-way rule of the tile at `pos` for a car entering it going `dir`. */
    function IsBlockedIncoming(pos: CarCoord, dir: Direction): bool
      requires GridOk(grid, cars) && pos.IsEven()
    {
      var tile := sim.TileAt(pos);
      if tile.None? then false
      else
        var t := tile.value;
        var dirNorm := t.transform.ApplyInverse(dir);
        match t.tileType
        case LightIntersection => LightBlocks(dirNorm, round, t.offset)
        case YieldIntersection => dirNorm == Up && IsEnteringTile(pos, t.transform.Apply(Left))
        case Merge => dirNorm == Left && IsEnteringTile(pos, t.transform.Apply(Up))
        case _ => false
    }

    /** Only light, yield and merge tiles hold cars back.  The main road of
        a yield intersection or a merge always has right of way; the side
        road is held back exactly while a car enters on the main road. */
    lemma PriorityRoads(pos: CarCoord, dir: Direction)
      requires GridOk(grid, cars) && pos.IsEven()
      ensures IsBlockedIncoming(pos, dir) ==>
        pos.ToTile() in sim.course && sim.course[pos.ToTile()].tileType in {LightIntersection, YieldIntersection, Merge}
      ensures pos.ToTile() in sim.course ==>
        var t := sim.course[pos.ToTile()];
        var dirNorm := t.transform.ApplyInverse(dir);
        && (t.tileType == LightIntersection ==>
              (IsBlockedIncoming(pos, dir) <==> LightBlocks(dirNorm, round, t.offset)))
        && (t.tileType == YieldIntersection ==>
              (IsBlockedIncoming(pos, dir) <==> dirNorm == Up && IsEnteringTile(pos, t.transform.Apply(Left))))
        && (t.tileType == Merge ==>
              (IsBlockedIncoming(pos, dir) <==> dirNorm == Left && IsEnteringTile(pos, t.transform.Apply(Up))))
    {
    }

    /** Car `i` is held back by its tile. */
    ghost predicate Blocked(i: nat)
      requires Fixed() && i < |cars|
    {
      IsBlockedIncoming(cars[i].TilePos(), cars[i].dir)
    }

    /** The car standing where car `i` would arrive, if any. */
    ghost function Next(i: nat): Option<nat>
      requires Fixed() && i < |cars|
    {
      var np := sim.OutPos(round, cars[i].TilePos(), cars[i].dir);
      if np in grid then Some(grid[np]) else None
    }

    /** The decision for car `i` in `st` is justified: a moving car has right
        of way and its successor moves too (or is itself still being decided,
        among `outer`); a stopped car is held back or its successor is stopped. */
    ghost predicate Settled(st: seq<MoveStatus>, i: nat, outer: set<nat>)
      requires Fixed() && |st| == |cars| && i < |st|
    {
      && (st[i] == Moving ==>
            !Blocked(i) && (Next(i).Some? ==> st[Next(i).value] == Moving || Next(i).value in outer))
      && (st[i] == Stopped ==>
            Blocked(i) || (Next(i).Some? && st[Next(i).value] == Stopped))
    }

    /** Decisions in `before` are kept in `after`. */
    ghost predicate Extends(before: seq<MoveStatus>, after: seq<MoveStatus>) {
      && |after| == |before|
      && (forall i :: 0 <= i < |before| && before[i] != Unknown ==> after[i] == before[i])
    }

    /** Decisions taken since `before` stay taken; the new car list and the push order only grow. */
    ghost predicate Grew(before: seq<MoveStatus>, carsBefore: seq<CarData>, orderBefore: seq<nat>)
      reads this
    {
      Extends(before, status) && carsBefore <= carsNew && orderBefore <= order
    }

    /** Every car decided between `before` and `after` is settled relative to
        `outer` and got the same decision, `moving`. */
    ghost predicate DecidedBetween(before: seq<MoveStatus>, after: seq<MoveStatus>, outer: set<nat>, moving: bool)
      requires Fixed() && |before| == |after| == |cars|
    {
      forall i :: 0 <= i < |before| && before[i] == Unknown && after[i] != Unknown ==>
        Settled(after, i, outer) && (after[i] == Moving <==> moving)
    }

    /** Closing the decision of car `id` after its successor was examined
        (leaving `s2`, `c2`, `o2`) restores the bookkeeping, with `s3` the
        final statuses and `entry` the car's new entry. */
    lemma CloseDecision(s0: seq<MoveStatus>, c0: seq<CarData>, o0: seq<nat>, p0: set<nat>,
                        s2: seq<MoveStatus>, c2: seq<CarData>, o2: seq<nat>, id: nat, moving: bool,
                        s3: seq<MoveStatus>, entry: CarData)
      requires Inv(s0, c0, o0, p0) && id < |s0| && s0[id] == Unknown
      requires Inv(s2, c2, o2, p0 + {id}) && Extends(s0[id := Moving], s2)
      requires s3 == (if moving then s2 else s2[id := Stopped])
      requires entry == Outcome(id, s3[id])
      ensures (p0 + {id}) - {id} == p0
      ensures Inv(s3, c2 + [entry], o2 + [id], p0)
    {
      var o3 := o2 + [id];
      var c3 := c2 + [entry];
      assert id !in p0;
      assert id !in o2 by {
        forall k | 0 <= k < |o2|
          ensures o2[k] != id
        {
          assert o2[k] !in p0 + {id};
        }
      }
      forall k | 0 <= k < |o3|
        ensures o3[k] < |s3| && o3[k] !in p0 && s3[o3[k]] != Unknown && c3[k] == Outcome(o3[k], s3[o3[k]])
      {
        if k < |o2| {
          assert o3[k] == o2[k] && c3[k] == c2[k] && o2[k] != id;
        }
      }
      forall i | 0 <= i < |s3| && s3[i] != Unknown
        ensures i in p0 || i in o3
      {
        if i != id {
          assert s2[i] != Unknown;
        }
      }
    }

    /** Closing a decision keeps earlier decisions and only appends to the
        new car list and the push order. */
    lemma CloseDecisionGrew(s0: seq<MoveStatus>, c0: seq<CarData>, o0: seq<nat>,
                            s2: seq<MoveStatus>, c2: seq<CarData>, o2: seq<nat>, id: nat, moving: bool,
                            s3: seq<MoveStatus>, entry: CarData)
      requires id < |s0| && s0[id] == Unknown
      requires Extends(s0[id := Moving], s2) && c0 <= c2 && o0 <= o2
      requires s3 == (if moving then s2 else s2[id := Stopped])
      ensures Extends(s0, s3) && c0 <= c2 + [entry] && o0 <= o2 + [id]
      ensures s3[id] != Unknown && (moving <==> s3[id] == Moving)
    {
      assert (c2 + [entry])[..|c2|] == c2;
      assert (o2 + [id])[..|o2|] == o2;
    }

    /** The decision of `id` and those taken while examining its successor are settled. */
    lemma CloseDecisionSettled(s0: seq<MoveStatus>, p0: set<nat>, s2: seq<MoveStatus>, id: nat, moving: bool,
                               s3: seq<MoveStatus>)
      requires Fixed() && |s0| == |cars| && id < |s0| && s0[id] == Unknown && id !in p0
      requires Extends(s0[id := Moving], s2)
      requires moving ==> !Blocked(id) && (Next(id).Some? ==> s2[Next(id).value] == Moving)
      requires !moving ==> Blocked(id) || (Next(id).Some? && s2[Next(id).value] == Stopped)
      requires DecidedBetween(s0[id := Moving], s2, p0 + {id}, moving)
      requires s3 == (if moving then s2 else s2[id := Stopped])
      ensures DecidedBetween(s0, s3, p0, moving)
    {
      var s1 := s0[id := Moving];
      forall i | 0 <= i < |s0| && s0[i] == Unknown && s3[i] != Unknown
        ensures Settled(s3, i, p0) && (s3[i] == Moving <==> moving)
      {
        if i != id {
          assert s1[i] == Unknown;
          assert Settled(s2, i, p0 + {id});
        }
      }
    }

    /** Between two calls of `TryMove` from the top, decisions that were
        justified stay justified, and the new ones are justified too. */
    lemma StaySettled(s0: seq<MoveStatus>, s1: seq<MoveStatus>, moving: bool)
      requires Fixed() && |s0| == |cars| && Extends(s0, s1)
      requires forall j :: 0 <= j < |s0| && s0[j] != Unknown ==> Settled(s0, j, {})
      requires DecidedBetween(s0, s1, {}, moving)
      ensures forall j :: 0 <= j < |s1| && s1[j] != Unknown ==> Settled(s1, j, {})
    {
      forall j | 0 <= j < |s1| && s1[j] != Unknown
        ensures Settled(s1, j, {})
      {
        if s0[j] != Unknown {
          assert Settled(s0, j, {});
        }
      }
    }

    /** Decides car `id`, deciding first the cars it waits for.  A car met
        again while its own decision is open (a cycle of cars) counts as moving. */
    method TryMove(id: nat) returns (moving: bool)
      requires Valid() && id < |status|
      modifies this
      decreases UnknownCount(status), 1
      ensures Valid() && pending == old(pending)
      ensures Grew(old(status), old(carsNew), old(order))
      ensures status[id] != Unknown && (moving <==> status[id] == Moving)
      ensures DecidedBetween(old(status), status, old(pending), moving)
    {
      match status[id]
      case Moving =>
        moving := true;
      case Stopped =>
        moving := false;
      case Unknown =>
        moving := Decide(id);
    }

    /** The undecided case of `TryMove`: mark the car Moving, examine it,
        then record the decision. */
    method Decide(id: nat) returns (moving: bool)
      requires Valid() && id < |status| && status[id] == Unknown
      modifies this
      decreases UnknownCount(status), 0
      ensures Valid() && pending == old(pending)
      ensures Grew(old(status), old(carsNew), old(order))
      ensures status[id] != Unknown && (moving <==> status[id] == Moving)
      ensures DecidedBetween(old(status), status, old(pending), moving)
    {
      ghost var s0, c0, o0, p0 := status, carsNew, order, pending;
      UnknownCountDecided(status, id, Moving);
      status := status[id := Moving];
      pending := pending + {id};
      moving := CheckMove(id);
      Conclude(id, moving, s0, c0, o0, p0);
    }

    /** Pushes the entry of car `id` once its successor was examined, and
        records a stop. */
    method Conclude(id: nat, moving: bool, ghost s0: seq<MoveStatus>, ghost c0: seq<CarData>,
                    ghost o0: seq<nat>, ghost p0: set<nat>)
      requires Inv(s0, c0, o0, p0) && id < |s0| && s0[id] == Unknown
      requires Valid() && pending == p0 + {id}
      requires Extends(s0[id := Moving], status) && c0 <= carsNew && o0 <= order
      requires moving ==> !Blocked(id) && (Next(id).Some? ==> status[Next(id).value] == Moving)
      requires !moving ==> Blocked(id) || (Next(id).Some? && status[Next(id).value] == Stopped)
      requires DecidedBetween(s0[id := Moving], status, p0 + {id}, moving)
      modifies this
      ensures Valid() && pending == p0
      ensures Grew(s0, c0, o0)
      ensures status[id] != Unknown && (moving <==> status[id] == Moving)
      ensures DecidedBetween(s0, status, p0, moving)
    {
      var car := cars[id];
      var entry := if moving then sim.NewPos(round, car) else car;
      ghost var s2, c2, o2 := status, carsNew, order;
      ghost var s3 := if moving then s2 else s2[id := Stopped];
      CloseDecision(s0, c0, o0, p0, s2, c2, o2, id, moving, s3, entry);
      CloseDecisionGrew(s0, c0, o0, s2, c2, o2, id, moving, s3, entry);
      CloseDecisionSettled(s0, p0, s2, id, moving, s3);
      if !moving {
        status := status[id := Stopped];
      }
      carsNew := carsNew + [entry];
      order := order + [id];
      pending := pending - {id};
    }

    method CheckMove(id: nat) returns (moving: bool)
      requires Valid() && id < |status| && id in pending
      modifies this
      decreases UnknownCount(status), 3
      ensures Valid() && pending == old(pending)
      ensures Grew(old(status), old(carsNew), old(order))
      ensures moving ==> !Blocked(id) && (Next(id).Some? ==> status[Next(id).value] == Moving)
      ensures !moving ==> Blocked(id) || (Next(id).Some? && status[Next(id).value] == Stopped)
      ensures DecidedBetween(old(status), status, old(pending), moving)
    {
      var car := cars[id];
      var tilePos := car.TilePos();
      if IsBlockedIncoming(tilePos, car.dir) {
        moving := false;
      } else {
        var blocked := CheckBlockedOutgoing(tilePos, car.dir);
        moving := !blocked;
      }
    }

    /** Whether the car standing where a car crossing `tilePos` would arrive stays put. */
    method CheckBlockedOutgoing(tilePos: CarCoord, fromDir: Direction) returns (blocked: bool)
      requires Valid()
      requires tilePos.IsEven() && tilePos.ToTile() in sim.course && sim.course[tilePos.ToTile()].tileType != Finish
      modifies this
      decreases UnknownCount(status), 2
      ensures Valid() && pending == old(pending)
      ensures Grew(old(status), old(carsNew), old(order))
      ensures var np := sim.OutPos(round, tilePos, fromDir);
        && (blocked <==> np in grid && status[grid[np]] == Stopped)
        && (np in grid ==> status[grid[np]] != Unknown)
      ensures DecidedBetween(old(status), status, old(pending), !blocked)
    {
      var newPos := sim.OutPos(round, tilePos, fromDir);
      if newPos in grid {
        var n := grid[newPos];
        var m := TryMove(n);
        blocked := !m;
      } else {
        blocked := false;
      }
    }

    /** Decides every car, in order of index.  Afterwards every car is
        decided, every decision is justified, and the new car list holds
        exactly one entry per car. */
    method MoveCars()
      requires Valid() && pending == {} && order == [] && carsNew == []
      requires forall i :: 0 <= i < |status| ==> status[i] == Unknown
      modifies this
      ensures Valid() && pending == {}
      ensures forall i :: 0 <= i < |status| ==> status[i] != Unknown && Settled(status, i, {})
      ensures forall i :: 0 <= i < |status| ==> i in order
      ensures |carsNew| == |cars|
      ensures forall k :: 0 <= k < |carsNew| ==> carsNew[k].TilePos().IsEven() && carsNew[k].id < idBound
    {
      for i := 0 to |cars|
        invariant Valid() && pending == {}
        invariant forall j :: 0 <= j < i ==> status[j] != Unknown
        invariant forall j :: 0 <= j < |status| && status[j] != Unknown ==> Settled(status, j, {})
      {
        ghost var before := status;
        var moved := TryMove(i);
        StaySettled(before, status, moved);
      }
      DistinctCovering(order, |status|);
      forall k | 0 <= k < |carsNew|
        ensures carsNew[k].TilePos().IsEven() && carsNew[k].id < idBound
      {
        assert carsNew[k] == Outcome(order[k], status[order[k]]);
      }
    }

    /** A start can take a new car when nobody stands there or its occupant moves away. */
    function IsSpotFree(st: seq<MoveStatus>, pos: CarCoord): bool
      requires GridOk(grid, cars) && |st| == |cars|
    {
      pos !in grid || st[grid[pos]] == Moving
    }

    /** The cars `Always` would spawn at starts `j..`, numbered from `next`,
        given the decisions `st`. */
    ghost function AlwaysSpawns(st: seq<MoveStatus>, j: nat, next: nat): seq<CarData>
      requires GridOk(grid, cars) && |st| == |cars| && j <= |sim.starts|
      decreases |sim.starts| - j
    {
      if j == |sim.starts| then []
      else if next < sim.maxCars && IsSpotFree(st, sim.starts[j].0) then
        [CarData(next, sim.starts[j].0, sim.starts[j].1)] + AlwaysSpawns(st, j + 1, next + 1)
      else AlwaysSpawns(st, j + 1, next)
    }

    /** Spawns at the free starts, in start order, while the car budget lasts;
        a `Random` policy also draws for each start. */
    method AddCars()
      requires GridOk(grid, cars) && |status| == |cars| && sim.StartsOk()
      requires sim.nextCar <= sim.maxCars
      requires forall k :: 0 <= k < |carsNew| ==> carsNew[k].TilePos().IsEven() && carsNew[k].id < sim.nextCar
      modifies this, sim
      ensures status == old(status)
      ensures sim.cars == old(sim.cars) && sim.round == old(sim.round) && sim.stream == old(sim.stream)
      ensures sim.spawnPolicy == old(sim.spawnPolicy)
      ensures old(sim.nextCar) <= sim.nextCar <= sim.maxCars
      ensures |carsNew| == |old(carsNew)| + (sim.nextCar - old(sim.nextCar))
      ensures carsNew[..|old(carsNew)|] == old(carsNew)
      ensures forall k :: |old(carsNew)| <= k < |carsNew| ==>
        && carsNew[k].id == old(sim.nextCar) + (k - |old(carsNew)|)
        && AtFreeStart(status, carsNew[k])
      ensures forall k :: 0 <= k < |carsNew| ==> carsNew[k].TilePos().IsEven() && carsNew[k].id < sim.nextCar
      ensures sim.spawnPolicy.Always? ==> carsNew == old(carsNew) + AlwaysSpawns(status, 0, old(sim.nextCar))
    {
      ghost var base := carsNew;
      ghost var first := sim.nextCar;
      for j := 0 to |sim.starts|
        invariant SpawnInv(j, base, first)
        invariant status == old(status)
        invariant sim.cars == old(sim.cars) && sim.round == old(sim.round) && sim.stream == old(sim.stream)
        invariant sim.spawnPolicy == old(sim.spawnPolicy)
      {
        SpawnAt(j, base, first);
      }
      assert SpawnedCars(base, first, status, carsNew, sim.nextCar);
    }

    /** `car` stands on one of the simulator's starts, facing out of it, and
        the cell it stands on was free under decisions `st`. */
    ghost predicate AtFreeStart(st: seq<MoveStatus>, car: CarData)
      requires GridOk(grid, cars) && |st| == |cars|
    {
      && (exists j :: 0 <= j < |sim.starts| && sim.starts[j] == (car.pos, car.dir))
      && IsSpotFree(st, car.pos)
    }

    /** The loop of `AddCars` after starts `0..j`. */
    ghost predicate SpawnInv(j: nat, base: seq<CarData>, first: nat)
      reads this, sim
    {
      SpawnedSoFar(j, base, first, status, carsNew, sim.nextCar, sim.spawnPolicy)
    }

    /** With decisions `st`, the new car list `cn` and the next number `next`
        after starts `0..j`: the cars spawned since `base` carry consecutive
        numbers from `first`, stand on free starts, and under `Always` are
        what `AlwaysSpawns` prescribes so far. */
    ghost predicate SpawnedSoFar(j: nat, base: seq<CarData>, first: nat, st: seq<MoveStatus>,
                                 cn: seq<CarData>, next: nat, policy: SpawnPolicy)
    {
      && GridOk(grid, cars) && |st| == |cars| && sim.StartsOk() && j <= |sim.starts|
      && SpawnedCars(base, first, st, cn, next)
      && (policy.Always? ==> base + AlwaysSpawns(st, 0, first) == cn + AlwaysSpawns(st, j, next))
    }

    /** The car-list half of `SpawnedSoFar`. */
    ghost predicate SpawnedCars(base: seq<CarData>, first: nat, st: seq<MoveStatus>, cn: seq<CarData>, next: nat)
      requires GridOk(grid, cars) && |st| == |cars|
    {
      && first <= next <= sim.maxCars
      && |cn| == |base| + (next - first) && cn[..|base|] == base
      && (forall k :: |base| <= k < |cn| ==>
            && cn[k].id == first + (k - |base|)
            && AtFreeStart(st, cn[k]))
      && (forall k :: 0 <= k < |cn| ==> cn[k].TilePos().IsEven() && cn[k].id < next)
    }

    /** A start that spawns nothing keeps the bookkeeping, provided `Always`
        would not have spawned there either. */
    lemma SpawnNone(j: nat, base: seq<CarData>, first: nat, st: seq<MoveStatus>,
                    cn: seq<CarData>, next: nat, policy: SpawnPolicy)
      requires SpawnedSoFar(j, base, first, st, cn, next, policy) && j < |sim.starts|
      requires policy.Always? ==> !(next < sim.maxCars && IsSpotFree(st, sim.starts[j].0))
      ensures SpawnedSoFar(j + 1, base, first, st, cn, next, policy)
    {
      if policy.Always? {
        assert AlwaysSpawns(st, j, next) == AlwaysSpawns(st, j + 1, next);
      }
    }

    /** A start that spawns appends the next car standing on it. */
    lemma SpawnOne(j: nat, base: seq<CarData>, first: nat, st: seq<MoveStatus>,
                   cn: seq<CarData>, next: nat, policy: SpawnPolicy)
      requires SpawnedSoFar(j, base, first, st, cn, next, policy) && j < |sim.starts|
      requires next < sim.maxCars && IsSpotFree(st, sim.starts[j].0)
      ensures SpawnedSoFar(j + 1, base, first, st, cn + [CarData(next, sim.starts[j].0, sim.starts[j].1)], next + 1, policy)
    {
      SpawnedCarsStep(j, base, first, st, cn, next);
      if policy.Always? {
        AlwaysSpawnsStep(j, base, first, st, cn, next);
      }
    }

    lemma AlwaysSpawnsStep(j: nat, base: seq<CarData>, first: nat, st: seq<MoveStatus>, cn: seq<CarData>, next: nat)
      requires GridOk(grid, cars) && |st| == |cars| && j < |sim.starts|
      requires next < sim.maxCars && IsSpotFree(st, sim.starts[j].0)
      requires base + AlwaysSpawns(st, 0, first) == cn + AlwaysSpawns(st, j, next)
      ensures base + AlwaysSpawns(st, 0, first) == (cn + [CarData(next, sim.starts[j].0, sim.starts[j].1)]) + AlwaysSpawns(st, j + 1, next + 1)
    {
      var car := CarData(next, sim.starts[j].0, sim.starts[j].1);
      assert AlwaysSpawns(st, j, next) == [car] + AlwaysSpawns(st, j + 1, next + 1);
      assert cn + ([car] + AlwaysSpawns(st, j + 1, next + 1)) == (cn + [car]) + AlwaysSpawns(st, j + 1, next + 1);
    }

    lemma SpawnedCarsStep(j: nat, base: seq<CarData>, first: nat, st: seq<MoveStatus>, cn: seq<CarData>, next: nat)
      requires GridOk(grid, cars) && |st| == |cars| && sim.StartsOk() && j < |sim.starts|
      requires SpawnedCars(base, first, st, cn, next)
      requires next < sim.maxCars && IsSpotFree(st, sim.starts[j].0)
      ensures SpawnedCars(base, first, st, cn + [CarData(next, sim.starts[j].0, sim.starts[j].1)], next + 1)
    {
      var start := sim.starts[j];
      var car := CarData(next, start.0, start.1);
      assert start.0.Plus(start.1) == FromTile(sim.startCells[j].Step(start.1));
      assert (cn + [car])[..|base|] == base;
      assert (cn + [car])[|cn|] == car;
    }

    /** One pass of the `AddCars` loop: start `j` spawns the next car when
        its spot is free, the budget allows and the policy agrees. */
    method SpawnAt(j: nat, ghost base: seq<CarData>, ghost first: nat)
      requires SpawnInv(j, base, first) && j < |sim.starts|
      modifies this, sim
      ensures SpawnInv(j + 1, base, first)
      ensures status == old(status)
      ensures sim.cars == old(sim.cars) && sim.round == old(sim.round) && sim.stream == old(sim.stream)
      ensures sim.spawnPolicy == old(sim.spawnPolicy)
    {
      var start := sim.starts[j];
      var spawn := false;
      if sim.nextCar < sim.maxCars && IsSpotFree(status, start.0) {
        match sim.spawnPolicy {
          case Always =>
            spawn := true;
          case Random(n) =>
            spawn :| (n == 0 ==> !spawn) && (n == 8 ==> spawn);
        }
      }
      if spawn {
        SpawnOne(j, base, first, status, carsNew, sim.nextCar, sim.spawnPolicy);
        carsNew := carsNew + [CarData(sim.nextCar, start.0, start.1)];
        sim.nextCar := sim.nextCar + 1;
      } else {
        SpawnNone(j, base, first, status, carsNew, sim.nextCar, sim.spawnPolicy);
      }
    }

    /** Publishes the racing cars as the simulator's cars and reports the others. */
    method RemoveFinished()
      requires sim.StartsOk() && PolicyOk(sim.spawnPolicy) && sim.nextCar <= sim.maxCars
      requires forall k :: 0 <= k < |carsNew| ==> carsNew[k].TilePos().IsEven() && carsNew[k].id < sim.nextCar
      modifies sim
      ensures sim.cars == sim.Kept(carsNew)
      ensures sim.stream == old(sim.stream) + sim.Departures(carsNew)
      ensures sim.round == old(sim.round) && sim.nextCar == old(sim.nextCar) && sim.spawnPolicy == old(sim.spawnPolicy)
      ensures sim.Valid()
    {
      var cs := carsNew;
      sim.cars := [];
      ghost var before := sim.stream;
      for k := 0 to |cs|
        invariant sim.cars == sim.Kept(cs[..k])
        invariant sim.stream == before + sim.Departures(cs[..k])
        invariant sim.round == old(sim.round) && sim.nextCar == old(sim.nextCar) && sim.spawnPolicy == old(sim.spawnPolicy)
      {
        assert cs[..k + 1] == cs[..k] + [cs[k]];
        sim.Retire(before, cs[..k], cs[k]);
      }
      assert cs[..|cs|] == cs;
      sim.KeptBelow(cs, sim.nextCar);
    }
  }

  function UnknownCount(s: seq<MoveStatus>): nat {
    if |s| == 0 then 0 else (if s[0] == Unknown then 1 else 0) + UnknownCount(s[1..])
  }

  /** Deciding an undecided car lowers the number of undecided cars by one. */
  lemma {:induction false} UnknownCountDecided(s: seq<MoveStatus>, i: nat, v: MoveStatus)
    requires i < |s| && s[i] == Unknown && v != Unknown
    ensures UnknownCount(s[i := v]) == UnknownCount(s) - 1
  {
    if i > 0 {
      assert s[i := v][1..] == s[1..][i - 1 := v];
      UnknownCountDecided(s[1..], i - 1, v);
    } else {
      assert s[i := v][1..] == s[1..];
    }
  }

  /** The numbers below `n`. */
  function Below(n: nat): (r: set<nat>)
    ensures forall i: nat :: i in r <==> i < n
    ensures |r| == n
  {
    if n == 0 then {}
    else
      var r := Below(n - 1);
      assert n - 1 !in r;
      r + {n - 1}
  }

  /** The numbers listed in `s`. */
  function Elems(s: seq<nat>): set<nat> {
    set x | x in s
  }

  /** A duplicate-free list of numbers below `n` that holds all of them has length `n`. */
  lemma DistinctCovering(order: seq<nat>, n: nat)
    requires forall k :: 0 <= k < |order| ==> order[k] < n
    requires forall k, l :: 0 <= k < l < |order| ==> order[k] != order[l]
    requires forall i :: 0 <= i < n ==> i in order
    ensures |order| == n
  {
    assert Elems(order) == Below(n);
    DistinctSize(order);
  }

  lemma {:induction false} DistinctSize(s: seq<nat>)
    requires forall k, l :: 0 <= k < l < |s| ==> s[k] != s[l]
    ensures |Elems(s)| == |s|
  {
    if |s| > 0 {
      var front := s[..|s| - 1];
      var last := s[|s| - 1];
      DistinctSize(front);
      assert s == front + [last];
      assert last !in front;
      assert Elems(s) == Elems(front) + {last};
    } else {
      assert Elems(s) == {};
    }
  }
}
