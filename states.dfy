/**
 * The game screens' own logic: the editor's tool choice and its handling of
 * turn, flip, light and delete commands; the race screen's stepping through
 * rounds and its verdict at the end; and the validation of the finish order
 * typed into the custom-level dialog.
 */
module States {
  import opened Wrappers
  import opened Dihedral
  import opened Tiles
  import opened Courses
  import opened Selection
  import Paths
  import Simulation
  import Tracking

  // ---------------------------------------------------------------------
  // The finish order typed into the custom-level dialog
  // ---------------------------------------------------------------------

  predicate IsDigit(c: char) {
    '0' <= c <= '9'
  }

  predicate AllDigits(s: string) {
    forall i :: 0 <= i < |s| ==> IsDigit(s[i])
  }

  /** The length of the run of digits at the front of `s`. */
  function RunLength(s: string): (n: nat)
    ensures n <= |s|
    ensures AllDigits(s[..n])
    ensures n < |s| ==> !IsDigit(s[n])
  {
    if s == [] || !IsDigit(s[0]) then 0 else 1 + RunLength(s[1..])
  }

  /** The maximal runs of decimal digits of `s`, in order. */
  function DigitRuns(s: string): (runs: seq<string>)
    ensures forall i :: 0 <= i < |runs| ==> |runs[i]| > 0 && AllDigits(runs[i])
    decreases |s|
  {
    if s == [] then []
    else if !IsDigit(s[0]) then DigitRuns(s[1..])
    else
      var n := RunLength(s);
      [s[..n]] + DigitRuns(s[n..])
  }

  /** The digits of `s`, in order. */
  function Digits(s: string): string {
    if s == [] then []
    else (if IsDigit(s[0]) then [s[0]] else []) + Digits(s[1..])
  }

  function Concat(runs: seq<string>): string {
    if runs == [] then [] else runs[0] + Concat(runs[1..])
  }

  lemma {:induction false} DigitsOfRun(s: string)
    requires AllDigits(s)
    ensures Digits(s) == s
  {
    if s != [] {
      DigitsOfRun(s[1..]);
    }
  }

  lemma {:induction false} DigitsAppend(a: string, b: string)
    ensures Digits(a + b) == Digits(a) + Digits(b)
  {
    if a == [] {
      assert a + b == b;
    } else {
      var ab := a + b;
      assert ab[0] == a[0];
      assert ab[1..] == a[1..] + b;
      DigitsAppend(a[1..], b);
      var h: string := if IsDigit(a[0]) then [a[0]] else [];
      calc {
        Digits(ab);
        h + Digits(ab[1..]);
        h + (Digits(a[1..]) + Digits(b));
        (h + Digits(a[1..])) + Digits(b);
      }
    }
  }

  /** The runs hold every digit of the text and nothing else. */
  lemma {:induction false} DigitRunsCoverDigits(s: string)
    ensures Concat(DigitRuns(s)) == Digits(s)
    decreases |s|
  {
    if s == [] {
    } else if !IsDigit(s[0]) {
      DigitRunsCoverDigits(s[1..]);
    } else {
      var n := RunLength(s);
      DigitRunsCoverDigits(s[n..]);
      DigitsOfRun(s[..n]);
      assert s == s[..n] + s[n..];
      DigitsAppend(s[..n], s[n..]);
      var runs := DigitRuns(s);
      assert runs[1..] == DigitRuns(s[n..]);
    }
  }

  /** Two digits separated by something else never share a run. */
  lemma {:induction false} RunLengthAppend(a: string, t: string)
    ensures RunLength(a) < |a| ==> RunLength(a + t) == RunLength(a)
    ensures RunLength(a) == |a| ==> RunLength(a + t) == |a| + RunLength(t)
  {
    if a == [] {
      assert a + t == t;
    } else {
      assert (a + t)[1..] == a[1..] + t;
      if IsDigit(a[0]) {
        RunLengthAppend(a[1..], t);
      }
    }
  }

  /** A non-digit splits the text: the runs of the whole are the runs of
      the part before it followed by those of the part after it. */
  lemma {:induction false} SplitAtSeparator(a: string, c: char, b: string)
    requires !IsDigit(c)
    ensures DigitRuns(a + [c] + b) == DigitRuns(a) + DigitRuns(b)
    decreases |a|
  {
    var s := a + [c] + b;
    if a == [] {
      assert s[1..] == b;
    } else if !IsDigit(a[0]) {
      assert s[1..] == a[1..] + [c] + b;
      SplitAtSeparator(a[1..], c, b);
    } else {
      RunLengthAppend(a, [c] + b);
      assert s == a + ([c] + b);
      var n := RunLength(a);
      if n == |a| {
        assert RunLength([c] + b) == 0;
        assert s[..n] == a && s[n..] == [c] + b;
        assert ([c] + b)[1..] == b;
        assert DigitRuns([c] + b) == DigitRuns(b);
        assert a[..n] == a && a[n..] == [];
        assert DigitRuns(a) == [a] + DigitRuns([]);
      } else {
        assert s[..n] == a[..n];
        assert s[n..] == a[n..] + [c] + b;
        SplitAtSeparator(a[n..], c, b);
      }
    }
  }

  /** The decimal value of a run of digits, as a parse of an unsigned number
      reads it (leading zeros allowed). */
  function Value(run: string): (v: nat)
    ensures v < Pow10(|run|)
  {
    if run == [] then 0
    else
      var d := run[|run| - 1] as int - '0' as int;
      var v := 10 * Value(run[..|run| - 1]) + (if 0 <= d <= 9 then d else 0);
      v
  }

  function Pow10(n: nat): (p: nat)
    ensures p >= 1
  {
    if n == 0 then 1 else 10 * Pow10(n - 1)
  }

  /** The finish order the text names: each number in it is a car below
      `cars`, and no car is named twice. */
  predicate ValidFinish(cars: nat, text: string) {
    var runs := DigitRuns(text);
    forall i :: 0 <= i < |runs| ==>
      && Value(runs[i]) < cars
      && forall j :: 0 <= j < i ==> Value(runs[j]) != Value(runs[i])
  }

  /** The verdict on run `i`: the car it names, or None when that number
      is not below `cars` or an earlier run already named it. */
  function Verdict(cars: nat, runs: seq<string>, i: nat): Option<nat>
    requires i < |runs|
  {
    var v := Value(runs[i]);
    if v < cars && forall j :: 0 <= j < i ==> Value(runs[j]) != v then Some(v) else None
  }

  /** The text is valid exactly when every run gets a car. */
  lemma VerdictsValid(cars: nat, text: string)
    ensures ValidFinish(cars, text) <==>
      forall i :: 0 <= i < |DigitRuns(text)| ==> Verdict(cars, DigitRuns(text), i).Some?
  {
    var runs := DigitRuns(text);
    if forall i :: 0 <= i < |runs| ==> Verdict(cars, runs, i).Some? {
      forall i | 0 <= i < |runs|
        ensures Value(runs[i]) < cars && forall j :: 0 <= j < i ==> Value(runs[j]) != Value(runs[i])
      {
        assert Verdict(cars, runs, i).Some?;
      }
      assert ValidFinish(cars, text);
    }
    if ValidFinish(cars, text) {
      forall i | 0 <= i < |runs|
        ensures Verdict(cars, runs, i).Some?
      {
        assert Value(runs[i]) < cars && forall j :: 0 <= j < i ==> Value(runs[j]) != Value(runs[i]);
      }
    }
  }

  /** The verdict on each digit run of the text, in order: the car it
      names, or None when that number is not below `cars` or already
      appeared. */
  method ParseFinish(cars: nat, text: string) returns (tokens: seq<Option<nat>>)
    ensures |tokens| == |DigitRuns(text)|
    ensures forall i :: 0 <= i < |tokens| ==> tokens[i] == Verdict(cars, DigitRuns(text), i)
  {
    var runs := DigitRuns(text);
    var seen := new bool[cars](_ => false);
    tokens := [];
    for k := 0 to |runs|
      invariant |tokens| == k
      invariant forall i :: 0 <= i < k ==> tokens[i] == Verdict(cars, runs, i)
      invariant forall n :: 0 <= n < cars ==> (seen[n] <==> exists j :: 0 <= j < k && Value(runs[j]) == n)
    {
      var n := Value(runs[k]);
      if n < cars && !seen[n] {
        seen[n] := true;
        tokens := tokens + [Some(n)];
      } else {
        tokens := tokens + [None];
      }
    }
  }

  /** All the values, or None as soon as one is missing. */
  function Collect(tokens: seq<Option<nat>>): (r: Option<seq<nat>>)
    ensures r.Some? <==> forall i :: 0 <= i < |tokens| ==> tokens[i].Some?
    ensures r.Some? ==> |r.value| == |tokens| && forall i :: 0 <= i < |tokens| ==> tokens[i] == Some(r.value[i])
  {
    if tokens == [] then Some([])
    else
      match Collect(tokens[..|tokens| - 1])
      case None => None
      case Some(front) =>
        match tokens[|tokens| - 1]
        case None => None
        case Some(v) => Some(front + [v])
  }

  /** The custom-level dialog: the number of cars and the typed finish order. */
  class CustomSpecState {
    var cars: nat
    var finish: string
    var finishIsValid: bool

    constructor()
      ensures cars == 0 && finish == "" && finishIsValid
    {
      cars := 0;
      finish := "";
      finishIsValid := true;
    }

    /** Records whether the typed order is valid. */
    method CheckFinish()
      modifies this
      ensures cars == old(cars) && finish == old(finish)
      ensures finishIsValid <==> ValidFinish(cars, finish)
    {
      var tokens := ParseFinish(cars, finish);
      VerdictsValid(cars, finish);
      finishIsValid := forall i | 0 <= i < |tokens| :: tokens[i].Some?;
    }

    /** The typed order, when valid: the cars it names in textual order,
        each below `cars` and none twice; empty text is the empty order. */
    method GetFinish() returns (r: Option<seq<nat>>)
      ensures r.Some? <==> ValidFinish(cars, finish)
      ensures r.Some? ==>
        var runs := DigitRuns(finish);
        && |r.value| == |runs|
        && (forall i :: 0 <= i < |runs| ==> r.value[i] == Value(runs[i]) && r.value[i] < cars)
        && (forall i, j :: 0 <= i < j < |runs| ==> r.value[i] != r.value[j])
      ensures finish == "" ==> r == Some([])
    {
      var tokens := ParseFinish(cars, finish);
      VerdictsValid(cars, finish);
      r := Collect(tokens);
    }
  }
  // ---------------------------------------------------------------------
  // The editor's tool
  // ---------------------------------------------------------------------

  /** The editor's current tool: drawing one tile, erasing, the selection
      tool, or drawing a path. */
  datatype TrackSelection =
    | Draw(tile: Tile)
    | Erase
    | Modify(sel: SelectState)
    | Path(path: Paths.Path)
  {
    function TileTypeOf(): (r: Option<TileType>)
      ensures r.Some? <==> Draw?
    {
      if Draw? then Some(tile.tileType) else None
    }

    /** Picks tile type `t` to draw: a fresh untransformed tile, unless that
        type is already being drawn, in which case its turn and phase stay. */
    function Select(t: TileType): (r: TrackSelection)
      ensures r.TileTypeOf() == Some(t)
      ensures TileTypeOf() == Some(t) ==> r == this
      ensures TileTypeOf() != Some(t) ==> r == Draw(Tile(t, Id, 0))
    {
      if TileTypeOf() != Some(t) then Draw(Tile(t, Id, 0)) else this
    }
  }

  /** The editor commands that turn, flip, toggle or delete. */
  datatype TransformAction = RotCW | RotCCW | Flip | ToggleLightsAction | Delete

  /** The tile being drawn after a command: turned a quarter clockwise or
      anticlockwise, or flipped, on the left of its symmetry; its phase
      flipped; or unchanged by Delete. */
  function Transformed(tile: Tile, action: TransformAction): (r: Tile)
    ensures r.tileType == tile.tileType
    ensures action == ToggleLightsAction <==> r.offset != tile.offset
    ensures action.ToggleLightsAction? || action.Delete? ==> r.transform == tile.transform
  {
    match action
    case RotCW => tile.(transform := Rot90.Compose(tile.transform))
    case RotCCW => tile.(transform := Rot270.Compose(tile.transform))
    case Flip => tile.(transform := Flip0.Compose(tile.transform))
    case ToggleLightsAction => tile.(offset := tile.offset ^ 1)
    case Delete => tile
  }

  /** Each command on the drawn tile is undone by its opposite: a clockwise
      turn by an anticlockwise one and back, a flip or a phase toggle by
      itself. */
  lemma TransformedUndo(tile: Tile)
    ensures Transformed(Transformed(tile, RotCW), RotCCW) == tile
    ensures Transformed(Transformed(tile, RotCCW), RotCW) == tile
    ensures Transformed(Transformed(tile, Flip), Flip) == tile
    ensures Transformed(Transformed(tile, ToggleLightsAction), ToggleLightsAction) == tile
  {
    var g := tile.transform;
    ComposeAssociative(Rot270, Rot90, g);
    ComposeAssociative(Rot90, Rot270, g);
    ComposeAssociative(Flip0, Flip0, g);
    InverseLaws(Rot90);
    InverseLaws(Flip0);
    IdentityLaws(g, Up);
    assert (tile.offset ^ 1) ^ 1 == tile.offset;
  }

  /** The editor screen: the edited course with its history, and the tool. */
  class EditState {
    const course: CourseEdit
    var trackSelection: TrackSelection

    /** Starts with the selection tool, nothing selected. */
    constructor(course: CourseEdit)
      ensures this.course == course
      ensures trackSelection.Modify? && fresh(trackSelection.sel)
      ensures trackSelection.sel.selection == {} && trackSelection.sel.drag == NoDrag
    {
      this.course := course;
      var sel := new SelectState();
      trackSelection := Modify(sel);
    }

    /** The selection tool's state, when it is the current tool. */
    function Tool(): set<SelectState>
      reads this
    {
      if trackSelection.Modify? then {trackSelection.sel} else {}
    }

    /** A turn, flip, toggle or delete command: it changes the drawn tile,
        or is handed to the selection tool; the eraser and the path tool
        ignore it. */
    method ProcessTransform(ops: TileOps, action: TransformAction)
      requires course.Valid() && ops.KeepsFinish()
      modifies this, course, Tool()
      ensures course.Valid()
      ensures old(trackSelection).Draw? ==>
        && trackSelection == Draw(Transformed(old(trackSelection).tile, action))
        && unchanged(course)
      ensures old(trackSelection).Modify? ==> trackSelection == old(trackSelection)
      ensures old(trackSelection).Modify? && action == Delete && old(trackSelection.sel.drag).NoDrag? ==>
        && trackSelection.sel.selection == {}
        && course.State() == RemovedAll(old(course.State()), old(trackSelection.sel.selection))
      ensures old(trackSelection).Modify? && old(trackSelection.sel.drag).Dragging? && action == RotCW ==>
        var d := old(trackSelection.sel.drag).data;
        trackSelection.sel.drag == Dragging(d.(transform := Rot90.Compose(d.transform)))
      ensures old(trackSelection).Erase? || old(trackSelection).Path? ==>
        trackSelection == old(trackSelection) && unchanged(course)
    {
      match trackSelection {
        case Draw(tile) =>
          trackSelection := Draw(Transformed(tile, action));
        case Modify(sel) =>
          match action {
            case RotCW => sel.ApplyTransform(ops, course, Rot90);
            case RotCCW => sel.ApplyTransform(ops, course, Rot270);
            case Flip => sel.ApplyTransform(ops, course, Flip0);
            case ToggleLightsAction => sel.ToggleLights(ops, course);
            case Delete => sel.Delete(course);
          }
        case Erase =>
        case Path(_) =>
      }
    }
  }

  // ---------------------------------------------------------------------
  // The race screen
  // ---------------------------------------------------------------------

  datatype RaceEndStatus = Simulating | PopupQueued | ShowingPopup | Finished

  datatype Playback = Paused | Playing | Fast

  /** The race screen's playback commands (`Seek` jumps to a round). */
  datatype RaceCommand =
    | Seek(n: nat) | Start | StepBack | Pause | Play | StepForward | FastForward | End | Keys
    | OtherCommand

  /** A race of `cars` cars on a course, simulated as far as it has been
      watched; `round` is the round on display. */
  class RaceState {
    const cars: nat
    /** The finish order that solves the level. */
    const target: seq<nat>
    const sim: Simulation.Simulator
    const tracker: Tracking.Tracker
    var round: nat
    var status: RaceEndStatus
    var playback: Playback
    var showKeys: bool

    /** The simulator has handed over all its events, the tracker has a
        crash flag per car and at least the opening snapshot, and every
        finish it lists is a car of the race. */
    ghost predicate Valid()
      reads this, sim, tracker, tracker.roundData
    {
      && sim.Valid() && sim.stream == [] && sim.maxCars == cars
      && |tracker.crashed| == cars
      && tracker.RoundsAvailable() >= 1
      && (forall k :: 0 <= k < |tracker.finished| ==> tracker.finished[k] < cars)
    }

    constructor(cars: nat, target: seq<nat>, course: Course)
      ensures Valid() && fresh(sim) && fresh(tracker) && fresh(tracker.roundData)
      ensures this.cars == cars && this.target == target && sim.course == course
      ensures round == 0 && status == Simulating && playback == Paused && !showKeys
      ensures RoundsAvailable() == 1
    {
      this.cars := cars;
      this.target := target;
      sim := new Simulation.Simulator(course, cars);
      tracker := new Tracking.Tracker(cars);
      round := 0;
      status := Simulating;
      playback := Paused;
      showKeys := false;
    }

    function RoundsAvailable(): nat
      reads this, tracker, tracker.roundData
    {
      tracker.RoundsAvailable()
    }

    /** The race is over: the simulator is done, or a repeated round showed
        that it never will be. */
    predicate IsFinished()
      reads this, sim, tracker
    {
      sim.IsFinished() || tracker.loopDetected
    }

    /** Simulates one more round and records its events, unless the race is
        over: `events` is the round's batch, its Round event's cars become the
        new snapshot, its finishes are appended in order and its crashes set
        their flags. */
    method SimRound() returns (ghost events: seq<Simulation.SimEvent>)
      requires Valid()
      modifies sim, tracker, tracker.roundData
      ensures Valid()
      ensures old(IsFinished()) ==> unchanged(sim, tracker, tracker.roundData) && events == []
      ensures !old(IsFinished()) ==>
        && sim.round == old(sim.round) + 1
        && |events| >= 1 && events[0].RoundEvent?
        && (forall k :: 0 < k < |events| ==> !events[k].RoundEvent?)
        && tracker.roundData.data == old(tracker.roundData.data) + [events[0].cars]
        && tracker.loopDetected ==
             (old(tracker.loopDetected) || Tracking.Repeats(old(tracker.roundData.data), events[0].cars))
        && tracker.finished == old(tracker.finished) + Tracking.FinishedIds(events)
        && tracker.crashed == Tracking.Crashes(old(tracker.crashed), events)
        && RoundsAvailable() == old(RoundsAvailable()) + 1
      ensures old(tracker.loopDetected) ==> tracker.loopDetected
    {
      if sim.IsFinished() || tracker.loopDetected {
        return [];
      }
      sim.RunRound();
      var batch := sim.Events();
      events := batch;
      for k := 0 to |batch|
        invariant sim.Valid() && sim.stream == [] && sim.round == old(sim.round) + 1
        invariant tracker.roundData.data == old(tracker.roundData.data) + (if k > 0 then [batch[0].cars] else [])
        invariant tracker.loopDetected ==
          (old(tracker.loopDetected) || (k > 0 && Tracking.Repeats(old(tracker.roundData.data), batch[0].cars)))
        invariant tracker.finished == old(tracker.finished) + Tracking.FinishedIds(batch[..k])
        invariant tracker.crashed == Tracking.Crashes(old(tracker.crashed), batch[..k])
        invariant |tracker.crashed| == cars
        invariant forall i :: 0 <= i < |tracker.finished| ==> tracker.finished[i] < cars
      {
        assert batch[..k + 1][..k] == batch[..k];
        tracker.ProcessEvent(batch[k]);
      }
      assert batch[..|batch|] == batch;
    }

    /** Moves the display one round on, simulating a round first when the
        display is at the last one: the round rises by at most one and, from
        a round on record, stays on record. */
    method Forward()
      requires Valid()
      modifies this, sim, tracker, tracker.roundData
      ensures Valid()
      ensures round == old(round) || round == old(round) + 1
      ensures round == old(round) + 1 ==> round <= RoundsAvailable() - 1
      ensures old(round) < old(RoundsAvailable()) - 1 ==> round == old(round) + 1
      ensures !old(IsFinished()) && old(round) == old(RoundsAvailable()) - 1 ==> round == old(round) + 1
      ensures old(round) <= old(RoundsAvailable()) - 1 ==> round <= RoundsAvailable() - 1
      ensures status == old(status) && playback == old(playback) && showKeys == old(showKeys)
    {
      if round >= tracker.RoundsAvailable() - 1 {
        ghost var _ := SimRound();
      }
      if round < tracker.RoundsAvailable() - 1 {
        round := round + 1;
      }
    }

    /** One playback command. */
    method ProcessCommand(cmd: RaceCommand)
      requires Valid()
      modifies this, sim, tracker, tracker.roundData
      ensures Valid() && status == old(status)
      ensures !cmd.Keys? ==> showKeys == old(showKeys)
      ensures cmd.Seek? ==> round == cmd.n && playback == old(playback)
      ensures cmd.Start? ==> round == 0 && playback == Paused
      ensures cmd.StepBack? ==> round == (if old(round) > 0 then old(round) - 1 else 0) && playback == Paused
      ensures cmd.Pause? ==> round == old(round) && playback == Paused
      ensures cmd.Play? ==> round == old(round) && playback == Playing
      ensures cmd.StepForward? ==>
        && (round == old(round) || round == old(round) + 1)
        && (old(round) <= old(RoundsAvailable()) - 1 ==> round <= RoundsAvailable() - 1)
        && playback == Paused
      ensures cmd.FastForward? ==> round == old(round) && playback == Fast
      ensures cmd.End? ==>
        && round == RoundsAvailable() - 1
        && playback == (if sim.IsFinished() then Paused else old(playback))
      ensures cmd.Keys? ==> showKeys == !old(showKeys) && round == old(round) && playback == old(playback)
      ensures cmd.OtherCommand? ==> round == old(round) && playback == old(playback)
    {
      match cmd {
        case Seek(n) =>
          round := n;
        case Start =>
          round := 0;
          playback := Paused;
        case StepBack =>
          if round > 0 {
            round := round - 1;
          }
          playback := Paused;
        case Pause =>
          playback := Paused;
        case Play =>
          playback := Playing;
        case StepForward =>
          Forward();
          playback := Paused;
        case FastForward =>
          playback := Fast;
        case End =>
          round := tracker.RoundsAvailable() - 1;
          if sim.IsFinished() {
            playback := Paused;
          }
        case Keys =>
          showKeys := !showKeys;
        case OtherCommand =>
      }
    }

    /** Once the race is over, counts every car that did not finish as
        crashed and judges it: solved (the win popup is queued) exactly when
        the cars finished in the level's order, finished otherwise. */
    method CheckFinished()
      requires Valid()
      modifies this, tracker
      ensures Valid() && round == old(round)
      ensures old(IsFinished()) ==>
        && (status == PopupQueued <==> tracker.finished == target)
        && (status == Finished <==> tracker.finished != target)
        && tracker.finished == old(tracker.finished)
        && (forall i :: 0 <= i < cars ==> (tracker.crashed[i] <==> i !in tracker.finished))
      ensures !old(IsFinished()) ==> status == old(status) && unchanged(tracker)
    {
      if sim.IsFinished() || tracker.loopDetected {
        tracker.ComputeFinalCrashes(cars);
        if target == tracker.finished {
          status := PopupQueued;
        } else {
          status := Finished;
        }
      }
    }
  }
}
