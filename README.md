# race-game: a verified model of the road-tile engine

This project models the engine of *race-game*, a puzzle game: players lay road
tiles on a square grid, then watch cars drive the course round by round. The
model is written in Dafny and covers:

- **Directions and symmetries** (`direction.dfy`, module `Dihedral`). The four
  directions and the eight symmetries of the square are encoded as in the game,
  by an index, a sign and a shift. The module gives their action on directions
  and on grid coordinates, and the rigid isometries built from two anchor cells.
- **Tiles** (`tile.dfy`, `Tiles`). A tile is a tile type, a symmetry and a
  phase byte. The module holds the canonical entrance and exit tables of every
  tile type.
- **Car coordinates** (`carcoord.dfy`, `CarCoords`). Cars live on a half-tile
  grid: tile `t` has its centre at `2t`, and cars wait on edge middles.
- **Course editing** (`course.dfy`, `Courses`). A course is a map from cells to
  tiles that tracks at most one Finish cell. Edits go through transactions on
  an undo/redo history. A transaction pushes a new state only if something
  changed.
- **Tile combination** (`combine.dfy`, `Combine`). Drawing a Straight or a Turn
  over an existing tile yields a junction chosen from a fixed table. The first
  junction type that the level does not ban is used.
- **Drawn paths** (`path.dfy`, `Paths`). A mouse path of edge middles becomes
  Straight and Turn tiles. The path collapses when the player backtracks.
- **The simulator** (`simulator.dfy`, `Simulation`). It covers:
  - right of way at lights, yield signs and merges;
  - the memoised "can this car move" decision, which handles chains and cycles
    of cars;
  - spawning at Finish tiles;
  - finish and crash classification;
  - the event stream.
- **The tracker** (`tracker.dfy`, `Tracking`). It keeps one snapshot per round,
  detects repeated states, and records the finish order and crash flags.
- **Selection and dragging** (`selection.dfy`, `Selection`). The rectangle
  selection, and the drag state machine that moves, turns and toggles tiles
  through an isometry.
- **Small parts**:
  - best-score merging and banned-tile flags (`level.dfy`, `Levels`);
  - the finish-order text validator, the editor's transform tool and race
    stepping (`states.dfy`, `States`);
  - the demonstration course of the tile tooltips (`tooltip.dfy`, `Tooltip`).

How each kind of source code is modelled:

- Pure code (enum arithmetic, tile tables, tile combination) becomes datatypes,
  functions and lemmas.
- Code that mutates becomes classes whose methods have `modifies` clauses:
  - the undo/redo history, transactions and paths;
  - the simulator, the per-round runner and the tracker;
  - the selection state and the editor and race screens.
- Loops of the source stay loops with invariants: bounding rectangles, the
  rectangle selection, the banned-tile flags, the snapshot search, spawning,
  retiring cars, the finish-order scan and the tooltip course.
- Courses are Dafny maps. The game's hash tables become maps, sets and linear
  searches over sequences.

## Model

| member | source | states |
|---|---|---|
| Dihedral.DirectionOf | src/direction.rs:46-48 | The direction built from a 2-bit index has exactly that index, so the `from_repr(..).unwrap()` in `opposite` and `apply` never fails |
| Dihedral.ElementOf | src/direction.rs:112-119 | The symmetry built from a 3-bit index has exactly that index, so `from_repr` in composition never fails |
| Dihedral.OppositeLaws | src/direction.rs:46-48 | `opposite` is an involution, equals `Rot180` applied to the direction, never fixes a direction, and negates the unit step |
| Dihedral.CoordLaws | src/course.rs:23-62 | Adding then subtracting a direction or a coordinate gives the original back, negation is an involution, and stepping by a direction adds its unit coordinate |
| Dihedral.InverseLaws | src/direction.rs:89-95 | `e * e.inverse()` and `e.inverse() * e` are `Id`, and `inverse` is an involution |
| Dihedral.ApplyInverseLaw | src/direction.rs:84-87 | `apply_inverse(d)` equals `inverse() * d`, and it undoes `apply` in both orders |
| Dihedral.IdentityLaws | src/test.rs:49-58 | `Id` is a two-sided identity for composition and fixes every direction |
| Dihedral.ComposeActs | src/direction.rs:105-119 | Composition is a group action on directions: `(e1*e2)*d == e1*(e2*d)` |
| Dihedral.ComposeAssociative | src/test.rs:35-47 | Composition of symmetries is associative |
| Dihedral.ApplyOpposite | src/direction.rs:79-87 | Every symmetry, and its inverse action, commutes with taking the opposite direction |
| Dihedral.RotationFor | src/direction.rs:133-136 | `rotation_for(from, to)` is a rotation with sign +1 that maps `from` to `to` |
| Dihedral.RotationForUnique | src/test.rs:60-72 | For every rotation r and direction d, `rotation_for(d, r*d)` is r itself |
| Dihedral.DeterminedByOrthogonalPair | src/test.rs:83-94 | Two symmetries that agree on two orthogonal directions are equal |
| Dihedral.ReflectionAlongLaws | src/test.rs:74-81 | `reflection_along(d)` is not a rotation, has sign -1 and fixes d |
| Dihedral.TransForDirsMaps | src/test.rs:83-94 | For orthogonal source and target pairs, `trans_for_dirs` maps each source direction to its target |
| Dihedral.TransForDirsRecovers | src/test.rs:83-94 | For orthogonal f1, f2 and any e, `trans_for_dirs(f1, f2, e*f1, e*f2) == e` |
| Dihedral.TransForDirsEquivariant | src/test.rs:83-94 | Turning both target directions by k composes k onto the result of `trans_for_dirs` |
| Dihedral.ApplyKeepsOrthogonal | src/direction.rs:79-82 | Symmetries map orthogonal directions to orthogonal directions |
| Dihedral.ComposeInverse | src/direction.rs:89-119 | The inverse of a composition is the composition of the inverses in reverse order |
| Dihedral.ApplyToCoordTable | src/direction.rs:121-131 | The action on a grid coordinate, written out for each of the eight symmetries as a signed swap of x and y |
| Dihedral.ApplyToCoordLinear | src/direction.rs:121-131 | The action on coordinates is linear: it preserves sums, differences and negation |
| Dihedral.ApplyToCoordOfDirection | src/direction.rs:121-131 | Acting on a direction's unit step gives the unit step of the acted-on direction |
| Dihedral.ComposeActsOnCoords | src/direction.rs:112-131 | Composition is also a group action on grid coordinates |
| Dihedral.InverseUndoesOnCoords | src/direction.rs:121-131 | `e.inverse()` undoes `e` on coordinates, in both orders |
| Dihedral.FromAnchors | src/direction.rs:163-166 | `from_anchors(a, b, e)` keeps the symmetry e and sends a onto b |
| Dihedral.IsometryInverseLaws | src/direction.rs:144-161 | Both `apply_inverse` and `inverse()` undo the isometry, and they agree with each other |
| Dihedral.IsometryInjective | src/direction.rs:144-149 | An isometry never sends two cells to the same cell |
| Tiles.DefaultForType | src/tile.rs:59-65 | The default tile has transform `Id` and offset 0: applying (e, o) to it gives exactly the tile (type, e, o) |
| Tiles.ApplyTransformLaws | src/tile.rs:52-58 | `apply_transform` keeps the tile type, (`Id`, 0) is the identity, and applying the same offset twice restores the offset |
| Tiles.ApplyTransformUndo | src/tile.rs:52-58 | Applying (e, o) and then (e's inverse, o) gives the original tile back |
| Tiles.ApplyTransformComposes | src/tile.rs:52-58 | Applying (t1, o1) and then (t2, o2) is applying (t2*t1, o1 xor o2) |
| Tiles.EntranceExitDisjoint | src/simulator.rs:114-136 | No tile type both admits cars through the side opposite d and lets them leave travelling d |
| Tiles.NoOpposedEntrances | src/simulator.rs:114-125 | No canonical entrance set holds a direction together with its opposite |
| Tiles.UpIsAlwaysEntrance | src/simulator.rs:114-125 | Every tile type canonically admits cars travelling Up, and none admits cars travelling Down or Right |
| Tiles.CanonicalPairs | src/test.rs:100-110 | The Straight entrance and exit (Up, Up) and the Turn entrance and exit (Up, Left) are canonical entrances and exits of their types |
| Tiles.TransformMovesEntrances | src/simulator.rs:353-356 | Turning a tile by e turns its tile-level entrances and exits by e |
| CarCoords.CarCoord.DistanceSquared | src/simulator.rs:48-52 | The squared distance is non-negative and is zero exactly for equal points |
| CarCoords.FromTile | src/simulator.rs:30-34 | The centre of tile t is a point on the tile-centre grid that converts back to t |
| CarCoords.CarCoord.ToTile | src/simulator.rs:36-41 | Requires the even-coordinate assertion of the conversion; the result doubled is the point |
| CarCoords.TileRoundTrips | src/simulator.rs:30-41 | Tiles and tile centres correspond one to one |
| CarCoords.StepLaws | src/simulator.rs:16-46 | `+ d` and `- d` undo each other, `add_multiple` by 1, -1 and 0 is `+ d`, `- d` and no move, and one step has squared length 1 |
| CarCoords.PlusInjective | src/simulator.rs:16-21 | Two different directions lead from a point to two different points |
| CarCoords.FromTileStep | src/simulator.rs:30-46 | The centre of the neighbouring tile is two half-steps away from the centre of the tile |
| Courses.BoundingRect | src/course.rs:64-89 | Every point lies in both ranges, each bound is attained by some point, and empty input gives the empty ranges `MAX..=MIN` |
| Courses.CourseEditState.Remove | src/course.rs:98-108 | Reports true exactly when the cell was occupied. Deletes only that cell and keeps every other tile. Clears `finish` only if it pointed there. Changes nothing otherwise |
| Courses.CourseEditState.SetAsWritten | src/course.rs:110-125 | `set` exactly as written: reports a change exactly when the cell did not already hold the tile; after a change the cell holds the tile, or, when a Finish is re-placed on the tracked Finish cell, that tile turned into a Straight; the Finish cell stays a key |
| Courses.CourseEditState.Set | src/course.rs:110-125 | Reports a change exactly when the cell did not already hold the tile, and then the cell holds the tile. A new Finish becomes the tracked one and demotes a different previous Finish to Straight. A non-Finish placed on the tracked cell clears `finish`. Other tiles are kept. "The tracked cell holds a Finish" is preserved |
| Courses.SetAgreesOffTrackedFinish | src/course.rs:110-125 | For every state whose Finish cell is a key, the written `set` and the corrected one agree except when a Finish is placed on the cell already tracked as the Finish |
| Courses.SetAsWrittenLosesFinish | src/course.rs:116-119 | A Finish re-placed, turned, on the tracked Finish cell leaves that cell holding a Straight while it is still tracked as the Finish |
| Courses.OneFinishKept | src/course.rs:98-196 | `set`, `remove`, `toggle_lights` and `apply_transform` keep "the only Finish tile is the tracked one" |
| Courses.CourseEditState.ToggleLights | src/course.rs:179-190 | Changes something exactly when the cell holds a tile with lights, and then only that tile's offset is flipped; every other tile and the Finish cell are kept |
| Courses.CourseEditState.ApplyTransform | src/course.rs:191-196 | Changes something exactly when the cell is occupied, and then composes the symmetry on the left of that tile's transform; nothing else changes |
| Courses.FromCourse | src/course.rs:126-135 | The loaded course is kept, and a Finish cell is tracked exactly when the course has a Finish tile |
| Courses.CourseEdit.constructor | src/course.rs:201-208 | A new history holds the loaded course as its only state, at position 0 |
| Courses.CourseEdit.Push | src/course.rs:236-241 | `push` accepts any state whose Finish cell can be looked up. It discards the redo tail and puts the new state on top, with `pos == stack.len() - 1`. A history of valid states stays valid when the pushed state is valid |
| Courses.CourseEdit.Undo | src/course.rs:242-247 | `undo` steps back one state and is a no-op at position 0; the stack is kept |
| Courses.CourseEdit.Redo | src/course.rs:248-253 | `redo` steps forward one state and is a no-op at the top; the stack is kept |
| Courses.CourseEdit.SetCourse | src/course.rs:230-232 | The loaded course is pushed as the new current state, discarding the redo tail |
| Courses.Transaction.constructor | src/course.rs:159-166 | A transaction starts from a copy of the current state, with nothing changed yet |
| Courses.Transaction.Remove | src/course.rs:173-175 | The working state is the state after `remove`, and the changed flag ORs in `remove`'s report |
| Courses.Transaction.Set | src/course.rs:176-178 | The working state is the state after the corrected `set` of the Findings table, and the changed flag ORs in its report |
| Courses.Transaction.ToggleLights | src/course.rs:179-190 | Only a tile with lights has its offset flipped, and only then is the transaction marked changed |
| Courses.Transaction.ApplyTransform | src/course.rs:191-196 | An occupied cell has the symmetry composed onto its transform and marks the transaction changed; an empty cell changes nothing |
| Courses.Transaction.Modify | src/selection.rs:98-101 | An empty cell is left alone. An occupied cell is set, by the corrected `set`, to the function applied to its tile, and the changed flag ORs in the report |
| Courses.Transaction.Commit | src/course.rs:150-156 | Accepts any working state whose Finish cell can be looked up. A changed transaction pushes its state, discarding the redo tail; an unchanged one leaves the history exactly as it was. Valid states give a valid history |
| Combine.FirstAllowed | src/combine.rs:63-71 | `combine` returns the first option whose type is not banned, and `add` when every option is banned or there are none |
| Combine.CombineTiles | src/combine.rs:63-71 | The new tile is `add` or an unbanned combination option, and drawing anything other than a Straight or a Turn just places the drawn tile |
| Combine.IntersectionSides | src/combine.rs:31-45 | Both intersections built for orthogonal roads a and b admit cars, and let them out, travelling exactly a or b |
| Combine.MergeSides | src/combine.rs:47-53 | A Merge built for straight road a and joining road b admits cars travelling a or b and lets them out travelling a only |
| Combine.LightForwardTurnSides | src/combine.rs:55-61 | A forward-or-turn light built for straight a and turn b admits cars travelling a and lets them out travelling a or against b |
| Combine.PlacedTileRules | src/combine.rs:83-111 | No placed tile admits cars through a side and its opposite, so the (Entrance, Entrance) arm is unreachable |
| Combine.ClassifyInWorld | src/combine.rs:17-25 | The classification in `orig`'s frame of `trans * d` is the entrance/exit status of `orig` at the world direction `add.transform * d` |
| Combine.StraightOptionsInWorld | src/combine.rs:77-114 | For a Straight, (Entrance, Entrance) never arises. The options are `[orig]` when `orig` already carries the straight road; otherwise they come from the junction table on `orig`'s use of the left and right sides |
| Combine.TurnOptionsInWorld | src/combine.rs:115-144 | For a Turn, the options are `[orig]` when `orig` already carries the turn; otherwise they come from the junction table on `orig`'s use of the up and right sides |
| Combine.BuildersEquivariant | src/combine.rs:27-61 | Turning the requested directions by k turns the generated intersections, merge and forward-turn light by k |
| Combine.StraightJunctionsEquivariant | src/combine.rs:85-112 | The Straight junction table commutes with turning the frame by k |
| Combine.TurnJunctionsEquivariant | src/combine.rs:123-142 | The Turn junction table commutes with turning the frame by k |
| Combine.StraightOptionsEquivariant | src/combine.rs:77-114 | The Straight options commute with turning both tiles by k |
| Combine.TurnOptionsEquivariant | src/combine.rs:115-144 | The Turn options commute with turning both tiles by k |
| Combine.CombineOptionsEquivariant | src/combine.rs:73-147 | Turning both the existing and the added tile by k turns every combination option by k, in the same order |
| Combine.StraightConsistent | src/test.rs:173-207 | Every option for a Straight: d is an entrance iff (it is one of `orig` and `add` does not leave against it) or it is one of `add`; exits are symmetric |
| Combine.TurnConsistent | src/test.rs:173-207 | The same consistency rule for every option produced by a Turn |
| Combine.CombineConsistent | src/test.rs:173-207 | Every combination option for a Straight or a Turn obeys the consistency rule in every direction |
| Paths.DivFourRound | src/path.rs:11-17 | None exactly when x is 2 mod 4; otherwise the nearest integer to x/4 |
| Paths.CommonTile | src/path.rs:24-33 | A returned tile has both points on its edge middles |
| Paths.CommonTileExactly | src/path.rs:24-33 | `common_tile(p1, p2)` is t exactly when the points differ and both are edge middles of t |
| Paths.CommonTileSelf | src/path.rs:24-33 | `common_tile(p, p)` is always None |
| Paths.BoundaryIsEdgeMiddle | src/path.rs:19-22 | A point is on the boundary of a tile exactly when it is one step from its centre in the direction `direction_to` reports |
| Paths.DirectionToStep | src/path.rs:35-47 | `direction_to` recovers the direction of a unit step, and returns Up for equal points |
| Paths.TrackTile | src/path.rs:49-73 | Requires a common tile (the unwrap). Returns that tile's cell and a Straight or Turn with offset 0, and a Straight always has a rotation as its transform |
| Paths.TrackTileAdmits | src/path.rs:49-73 | The tile drawn for a segment admits a car coming from the first point and lets it out towards the second |
| Paths.TrackTileStraight | src/test.rs:96-141 | For every rotation r, the segment through the tile along r yields a Straight with transform r |
| Paths.TrackTileTurn | src/test.rs:96-141 | For every symmetry e, the segment from e*Down to e*Left yields a Turn with transform e |
| Paths.ChainedDistinct | src/path.rs:92-111 | In a chained path, consecutive points differ |
| Paths.Added | src/path.rs:92-111 | An empty path takes any point; a point sharing no tile with the last is ignored; returning to the second-to-last point pops the last; a point in the same tile as the previous segment replaces the last point; otherwise the point is pushed |
| Paths.AddedKeepsChain | src/path.rs:92-111 | `add` preserves "consecutive points are distinct and share a tile" |
| Paths.Path.constructor | src/path.rs:8-9 | A new path is empty |
| Paths.Path.Clear | src/path.rs:80-82 | `clear` empties the path |
| Paths.Path.SecondLast | src/path.rs:84-90 | Some exactly when there are two or more points, and then moving the pointer back onto it retraces the last step of a chained path |
| Paths.Path.Add | src/path.rs:92-111 | The new point list is the reference `Added` of the old one, and a chained path stays chained |
| Simulation.StartOf | src/simulator.rs:277-284 | A Finish at p with transform t starts cars at `2p + t*Up` facing `t*Up`, so their first tile is the one in front of the Finish |
| Simulation.StepTwiceIsEven | src/simulator.rs:36-41 | Two half-steps from a tile centre reach another tile centre |
| Simulation.LightAlternates | src/simulator.rs:170-172 | A light intersection holds back exactly one of canonical Up and Left each round, and the held one alternates |
| Simulation.LightPhaseAlternates | src/simulator.rs:307 | The phase bit of a light tile alternates from round to round |
| Simulation.OutDirIsExit | src/simulator.rs:306-332 | A car entering a non-Finish tile through an entrance leaves through one of its exits |
| Simulation.OutDirAlternates | src/simulator.rs:313-328 | LightTurns and LightForwardTurn send cars different ways in consecutive rounds |
| Simulation.BuildGrid | src/simulator.rs:139-145 | Every car's position is in the grid, each grid entry names a car standing at that position, and that car is never earlier in the list than any other car there |
| Simulation.Simulator.constructor | src/simulator.rs:274-296 | Round 0, no cars, no events, `Always` spawning, and exactly one start per Finish tile |
| Simulation.Simulator.SetSpawnPolicy | src/simulator.rs:302-304 | Only the spawn policy changes |
| Simulation.Simulator.Events | src/simulator.rs:298-300 | Returns the pending events in order and empties the stream |
| Simulation.Simulator.NewPos | src/simulator.rs:342-351 | A moved car keeps its id and again faces a tile centre |
| Simulation.Simulator.NewPosLeavesThroughExit | src/simulator.rs:342-351 | A moved car stands one half-step from its old tile, at the out position, facing away from it through one of that tile's exits |
| Simulation.Simulator.CheckFinish | src/simulator.rs:353-368 | Racing exactly when the tile ahead exists, is not a Finish and admits the car; Finished exactly when it is a Finish that admits it; Crashed otherwise |
| Simulation.Simulator.RetireSingle | src/simulator.rs:257-266 | One car is kept exactly when it is racing; otherwise it produces exactly its own Finished or Crashed event |
| Simulation.Simulator.RetireAppend | src/simulator.rs:257-266 | Retiring splits over concatenation, so with RetireSingle the kept cars are the racing cars in list order and the events come in the same order |
| Simulation.Simulator.RetireMembers | src/simulator.rs:257-266 | A car is kept exactly when it is racing. Every car that enters a Finish gets a Finished event, every crashed car a Crashed event, and every event reports such a car |
| Simulation.RoundRunner.constructor | src/simulator.rs:139-153 | The runner starts with every car Unknown, no new cars and the simulator's round and cars |
| Simulation.RoundRunner.CarAt | src/simulator.rs:155-157 | A car found is standing at the point; None means no car stands there |
| Simulation.RoundRunner.PriorityRoads | src/simulator.rs:159-186 | `is_blocked_incoming` with `is_entering_tile`: only lights, yield signs and merges hold cars back. A light blocks by the parity rule. A yield blocks canonical Up while a car enters from canonical Left. A merge blocks canonical Left while a car enters from canonical Up |
| Simulation.RoundRunner.CheckBlockedOutgoing | src/simulator.rs:188-195 | Blocked exactly when a car stands at the out position and its decision is Stop; that car is decided afterwards |
| Simulation.RoundRunner.CheckMove | src/simulator.rs:197-201 | Moving means not held back and the successor car, if any, moves; stopping means held back or the successor stops |
| Simulation.RoundRunner.TryMove | src/simulator.rs:203-220 | The car is decided. Every car decided during the call is justified and got the same decision. A car still being decided counts as moving, which resolves cycles |
| Simulation.RoundRunner.MoveCars | src/simulator.rs:222-226 | Every car is decided exactly once and justified, and exactly one entry per car is pushed, moved or unchanged |
| Simulation.RoundRunner.AddCars | src/simulator.rs:241-255 | Spawned cars get consecutive ids from `next_car`. `next_car` never exceeds `max_cars`. Cars spawn only at starts whose cell is empty or whose occupant moves (`is_spot_free`). Under `Always`, every such start spawns in order |
| Simulation.RoundRunner.RemoveFinished | src/simulator.rs:257-266 | The car list becomes `Kept` of the new cars and `Departures` of them is appended to the stream: the racing cars in order, and each other car's Finished or Crashed event in order |
| Simulation.Simulator.RunRound | src/simulator.rs:370-377 | `round` goes up by one and exactly one Round event comes first, holding the old cars plus the spawned ones. Only Finished/Crashed events follow, all for car ids below `max_cars`. `next_car` stays within `max_cars` |
| Tracking.CarDataLookup.constructor | src/tracker.rs:6-11 | A new lookup holds no snapshots |
| Tracking.CarDataLookup.Add | src/tracker.rs:26-39 | Appends the snapshot and reports a repeat exactly when an earlier snapshot at an index of the same parity holds an equal car list |
| Tracking.ComputeNotFinishing | src/tracker.rs:52-58 | Entry i is true exactly when car i does not occur in the finish list |
| Tracking.Tracker.constructor | src/tracker.rs:61-70 | One empty snapshot, no finishes, all crash flags false and no loop, so one round is available |
| Tracking.Tracker.AddRound | src/tracker.rs:94-96 | Appends one snapshot, ORs the repeat report into `loop_detected`, and adds one available round |
| Tracking.Tracker.ProcessEvent | src/tracker.rs:86-92 | A Round event appends one snapshot. A Finished event appends the id to the finish order. A Crashed event sets only that car's flag. `loop_detected` never goes back to false |
| Tracking.FinishedIdsMembers | src/tracker.rs:86-89 | The finish ids that a batch of events appends are exactly the cars with a Finished event in it |
| Tracking.CrashesMembers | src/tracker.rs:86-91 | After a batch of events, a car's crash flag is set exactly when it was set before or the batch reports that car crashed |
| Tracking.Tracker.ComputeFinalCrashes | src/tracker.rs:79-81 | The crash flags become "did not finish", one per car |
| Levels.SolveData.Combine | src/level.rs:36-41 | Each field of the result is the smaller of the two inputs' fields |
| Levels.SolveData.CombineOption | src/level.rs:42-47 | None leaves the data alone; Some gives fields no larger than either side |
| Levels.CombineLaws | src/level.rs:36-41 | `combine` is commutative, associative and idempotent |
| Levels.CombineOptionLaws | src/level.rs:42-47 | `combine_option(Some(d))` is `combine(d)`, combining with the same option twice is combining once, and combining with oneself changes nothing |
| Levels.DeserializeBanned | src/level.rs:8-17 | A tile type is flagged as banned exactly when it occurs in the ban list |
| States.RunLength | src/states.rs:402 | The leading digit run of a text is maximal: all digits, followed by a non-digit or the end |
| States.DigitRuns | src/states.rs:402 | The matches of `[0-9]+`, in order, each a non-empty run of digits |
| States.DigitRunsCoverDigits | src/states.rs:402 | The runs together hold exactly the digits of the text, in order |
| States.SplitAtSeparator | src/states.rs:402 | A non-digit character splits the runs: the runs of a text are the runs before it followed by the runs after it |
| States.Value | src/states.rs:424 | The decimal value of a run is below 10 to the power of its length |
| States.ParseFinish | src/states.rs:419-435 | Token i is Some(n) exactly when run i parses to an n below `cars` that no earlier run gave, otherwise None |
| States.VerdictsValid | src/states.rs:437-438 | The text is a valid finish order exactly when every token is Some |
| States.Collect | src/states.rs:441-443 | Collecting the tokens gives Some exactly when all are Some, and then their values in order |
| States.CustomSpecState.constructor | src/states.rs:411-417 | No cars, empty text, marked valid |
| States.CustomSpecState.CheckFinish | src/states.rs:437-439 | `finish_is_valid` holds exactly when the text is a valid finish order |
| States.CustomSpecState.GetFinish | src/states.rs:441-443 | Some exactly for a valid text: the run values in textual order, all below `cars` and distinct; empty text gives the empty list |
| States.TrackSelection.TileTypeOf | src/states.rs:33-38 | A tile type exactly for the Draw tool |
| States.TrackSelection.Select | src/states.rs:40-48 | The Draw tool ends up on the requested type. A fresh tile (`Id`, offset 0) is installed only when the type differs; otherwise nothing changes |
| States.Transformed | src/states.rs:189-196 | A drawn tile keeps its type, its offset changes exactly for ToggleLights, and its transform is kept for ToggleLights and Delete |
| States.TransformedUndo | src/states.rs:189-193 | RotCW and RotCCW undo each other, and Flip and ToggleLights are involutions |
| States.EditState.constructor | src/states.rs:112-127 | The editor starts on the Modify tool with an empty selection at rest |
| States.EditState.ProcessTransform | src/states.rs:187-215 | Draw transforms the tile to draw and leaves the course alone. Modify delegates to the selection: Delete at rest removes the selection, RotCW while dragging turns the drag. Erase and Path do nothing |
| States.RaceState.constructor | src/states.rs:242-258 | Round 0, Simulating, Paused, keys hidden, a fresh simulator on the course and a fresh tracker with one round available |
| States.RaceState.SimRound | src/states.rs:268-276 | Nothing happens once the race is finished or a loop is detected. Otherwise one round is simulated and its whole event batch is recorded: the batch's single Round event, which comes first, becomes the new snapshot; the loop flag also picks up a repeat of that snapshot; the finish order gains the batch's Finished ids in order; and the crash flags gain its Crashed cars. A detected loop stays detected |
| States.RaceState.Forward | src/states.rs:278-293 | The round rises by at most one and stays at most `rounds_available() - 1`. It rises whenever a later round is recorded or the race can still be simulated |
| States.RaceState.ProcessCommand | src/states.rs:301-340 | Seek, Start, StepBack (never below 0), Pause, Play, StepForward, FastForward, End (to `rounds_available() - 1`, pausing a finished race) and Keys each set the round, playback and key display as the game does |
| States.RaceState.CheckFinished | src/states.rs:367-377 | Once the race is finished, the level is PopupQueued exactly when the finish order equals the target, and Finished otherwise. The crash flags become "did not finish". Before that nothing changes |
| Selection.DragData.IsometryTo | src/selection.rs:27-29 | The isometry of a drag keeps its symmetry and sends the anchor onto the release cell |
| Selection.SelectionRect | src/selection.rs:44-49 | The rectangle spanned by two cells is non-empty and contains exactly the cells between them |
| Selection.Sources | src/selection.rs:189-214 | An internal drag takes exactly the selected cells with their tiles; an external drag takes the pasted course unchanged |
| Selection.DragTiles | src/selection.rs:217-232 | Each source cell lands at its image under the drag isometry, carrying its tile turned and toggled as the drag says, and nothing else lands |
| Selection.AnchorLandsOnRelease | src/selection.rs:217-232 | The anchor's tile lands on the release cell |
| Selection.VacatedAreNotDestinations | src/selection.rs:152-168 | For an internal drag, the erased cells are exactly the selected cells that no tile lands on |
| Selection.ModifyAll | src/selection.rs:98-101 | The cells stay the same. When the only Finish is the tracked one, every selected tile is mapped and the others are kept. The state is pushed exactly when some tile changed |
| Selection.ModifyEach | src/selection.rs:99-101 | The loop over the selection keeps the set of occupied cells, and an unchanged flag means an unchanged state. When the only Finish is the tracked one, every selected tile is mapped and the flag records exactly whether some tile changed |
| Selection.RemovedAll | src/selection.rs:110-112 | Removing a set of cells keeps every other tile and keeps the tracked cell a Finish |
| Selection.RemoveEach | src/selection.rs:110-112 | The loop leaves the course with every cell of the set removed, and marks a change exactly when one of them was occupied |
| Selection.RemoveAll | src/selection.rs:109-112 | Deleting a set of cells in one transaction removes exactly those cells, and pushes a state exactly when one of them was occupied |
| Selection.VacateEach | src/selection.rs:158-162 | The first loop of `apply_drag` removes exactly the vacated cells |
| Selection.DropEach | src/selection.rs:163-166 | The second loop of `apply_drag` sets every dragged tile. Each lands exactly, except a Finish that a later Finish may demote. Other cells keep their tiles, or are a displaced Finish turned into a Straight |
| Selection.DropLands | src/selection.rs:152-168 | Erasing the vacated cells and setting the dragged tiles lands the drag |
| Selection.ApplyDrag | src/selection.rs:152-168 | The new selection is exactly the destination cells. The vacated cells are erased and the dragged tiles land. Other cells keep their tiles, except that a displaced Finish may become a Straight. The result is pushed as one undo step or the history is untouched |
| Selection.SelectState.constructor | src/selection.rs:12-16 | Empty selection, no drag |
| Selection.SelectState.LoadExternal | src/selection.rs:170-183 | Starts dragging the pasted course, anchored at its centre, with `Id` and no toggles |
| Selection.SelectState.Clear | src/selection.rs:52-55 | Empty selection, no drag |
| Selection.SelectState.Select | src/selection.rs:57-61 | Adds the cell exactly when it holds a tile |
| Selection.SelectState.Click | src/selection.rs:63-82 | A click is ignored while dragging or selecting. With `retain`, or on an unselected cell, it starts Selecting there, clearing the selection unless `retain`. Otherwise it starts Dragging anchored there with `Id` and no toggles |
| Selection.SelectState.FinishRect | src/selection.rs:84-92 | Adds exactly the occupied cells of the rectangle to the selection |
| Selection.SelectState.ToggleLights | src/selection.rs:94-105 | While dragging, flips the drag's toggle. At rest, toggles every selected tile in one transaction, which pushes exactly one history state when a tile changed and leaves the history untouched otherwise. While selecting, does nothing |
| Selection.SelectState.Delete | src/selection.rs:107-115 | At rest, removes every selected cell and empties the selection, pushing exactly one history state when a selected cell was occupied and none otherwise; otherwise does nothing |
| Selection.SelectState.ReverseTrack | src/selection.rs:117-127 | While dragging, flips the drag's reverse flag; otherwise reverses every selected tile in one transaction, which pushes exactly one history state when a tile changed and none otherwise |
| Selection.SelectState.ApplyTransform | src/selection.rs:129-141 | While dragging, composes the symmetry on the left of the drag's transform. Otherwise it turns the tile only when exactly one cell is selected, pushing one history state when the tile changed and none otherwise |
| Selection.SelectState.Release | src/selection.rs:143-150 | Always ends with no drag. A drag is applied to the course, pushing one history state or leaving the history untouched. A rectangle adds exactly its occupied cells. Otherwise nothing changes |
| Tooltip.RotationsTurnUp | src/direction.rs:98-103 | The four rotations, in order, turn Up into Up, Right, Down and Left |
| Tooltip.PlaceRotation | src/tooltip.rs:29-58 | One pass of the loop places the tiles for one rotation, all on free cells, and keeps the tiles already placed |
| Tooltip.FreshCells | src/tooltip.rs:29-59 | The cells a rotation fills in front of an entrance or behind an exit are still empty and distinct from the centre, so no insertion overwrites another |
| Tooltip.CourseAround | src/tooltip.rs:18-61 | The centre holds the tile type with `Id` and offset 0. Each entrance gets a Straight and then a Finish in front of it, and each exit gets a Straight behind it. No insertion overwrites another |
| Tooltip.CourseFor | src/tooltip.rs:18-61 | The tooltip course is that demonstration course around (1, 1) |

## Left out

- Rendering, menus, tutorials, the file-export dialog and every other UI screen are not modelled: they are user interface and foreign libraries.
- Saving and loading are left out:
  - `CourseEdit::save`, `EditState::save_course` and `save_solve` are I/O and are treated as no-ops;
  - key-value storage and serialisation formats are not modelled.
- `random_8` is not modelled. A `Random(n)` spawn policy is a free choice for each start, forced off when n is 0 and on when n is 8. Every contract holds for every outcome.
- Hash tables (the car grid, the snapshot table, hash sets) and the structural sharing of the course map become Dafny maps, sets and linear searches.
  - Iteration order over a hash set is not modelled.
  - The order in which a drag's tiles are set is therefore unknown.
- `course_center` and the view centre are not modelled, because they use floating point. `LoadExternal` takes the already rounded centre as a parameter.
- The regular expression of `parse_finish` is replaced by a scan for maximal digit runs.
  - Decimal values are unbounded.
  - A run too large for `usize` fails to parse in the game; here its value is at least `cars`, so the verdict is None either way.
- Machine integers (`isize`, `usize`, `u8` round counters) are unbounded integers.
  - No overflow is modelled.
  - The light phases read only the lowest bit of the round, so truncating the round to a byte does not change them.
- Four helpers the selection code calls are not modelled: the one-argument `Tile::apply_transform`, `Tile::toggle_lights`, `Tile::reverse` and `Transaction::modify`.
  - The three tile helpers are parameters (`TileOps`), assumed only to turn neither a Finish into another type nor another type into a Finish.
  - `toggle_lights_if` and `reverse_if` apply them when their flag is set.
  - `modify` is "set the cell to the function of its tile".
- `TooltipState::new` and `advance` are not modelled: they only run the simulator with random spawning and animations. `course_for` is modelled.
- Playback timing is not modelled: `check_advance`, `check_playback_end`, `round_display_time` and the animations are driven by `Duration` and drawing.
- `EditState`'s other actions are not modelled: undo/redo with selection reset, `set_tile`, `remove_tile` and action routing are thin UI dispatch onto the history.
- `test_solutions` is not part of this model: it needs bundled level and solution data.
- States.RaceState.Forward: the `animate` flag and the animation list it fills are dropped.
- Every edit that goes through a transaction uses the corrected `set` of the Findings table, not `set` as written.
  - As written, `set` turns a Finish written onto the tracked Finish cell into a Straight that stays tracked (src/course.rs:116-119).
  - The game's edit history can therefore hold a state whose tracked cell is a Straight. `CourseEdit.Push` and `Transaction.Commit` accept such a state: `CourseEdit.Wf` asks only that the Finish cell can be looked up, which is what the `unwrap` in `set` needs.
  - The contracts below still describe the corrected outcome. Where the game would leave that Straight, they give the written Finish.
- Courses.Transaction.Set: models the corrected `set`, so a Finish rewritten onto the tracked cell stays a Finish.
- Courses.Transaction.Modify: sets through the corrected `set`, as for Transaction.Set.
- Selection.ModifyAll: uses the corrected `set`. Its exact new state is stated only when the course holds no Finish tile other than the tracked one.
  - Under that condition, the corrected `set` never demotes anything while modifying tiles. A modified tracked Finish stays a Finish, where the game leaves a Straight.
  - A course with several Finish tiles is not described cell by cell. Such a course comes from loading one that holds several, since `from_course` tracks only one of them (src/course.rs:126-135).
- Selection.ModifyEach: the same corrected-`set` outcome as ModifyAll.
- Selection.SelectState.ToggleLights: exact only when the tracked Finish is the only one, and it uses the corrected `set`, as for ModifyAll.
- Selection.SelectState.ReverseTrack: exact only when the tracked Finish is the only one, and it uses the corrected `set`, as for ModifyAll.
- Selection.SelectState.ApplyTransform: exact only when the tracked Finish is the only one, and it uses the corrected `set`, as for ModifyAll. Rotating a lone selected tracked Finish gives the turned Finish, where the game leaves a Straight.
- Selection.ApplyDrag: it drops the tiles through the corrected `set`, so a Finish dropped back onto its own tracked cell stays a Finish and the history stays valid; the game leaves a Straight there.
  - A landed Finish tile may have been demoted to a Straight by a later Finish.
  - Which Finish survives depends on hash-set iteration order, which is not modelled.
  - The contract therefore allows "exact or demoted" for every landed tile.
- Selection.SelectState.Release: for a drag it inherits ApplyDrag's corrected `set` and its "exact or demoted" allowance.
- Selection.DropEach: it inherits ApplyDrag's corrected `set` and its "exact or demoted" allowance.
- Simulation.Simulator.SetSpawnPolicy: requires a `Random` chance of at most 8, as does `Simulator.Valid`. The game's `gen_ratio` panics above 8 (src/simulator.rs:110-112). The model excludes that panic rather than modelling it.
- States.EditState.ProcessTransform: for the Modify tool it states only Delete at rest and RotCW while dragging. The other actions reach the same `SelectState` methods, whose contracts are stated there.
- Simulation.Simulator.RunRound: it states the event layout, the counts and the id bounds, not each car's new position. The positions are stated by MoveCars, AddCars and RemoveFinished.

## Findings

| source | as written | input that shows it | evidently intended | confidence | as-written member | corrected member |
|---|---|---|---|---|---|---|
| src/course.rs:116-119 | `set` with a Finish tile demotes the previously tracked Finish cell to Straight even when that cell is the one just written | A course whose only tile is a Finish at (0, 0), tracked. Draw a Finish turned by `Rot90` on (0, 0). The cell now holds a Straight but is still tracked as the Finish | Demote the previous Finish only when it is a different cell, so the tracked cell always holds a Finish | not executed | Courses.CourseEditState.SetAsWritten (exhibited by Courses.SetAsWrittenLosesFinish) | Courses.CourseEditState.Set |
