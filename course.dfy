/**
 * The course being edited: a map from grid cells to tiles that tracks at
 * most one Finish cell, and the undo/redo history of such courses.
 *
 * A `CourseEditState` is a value: the editor clones it into a transaction,
 * changes the clone and pushes the clone onto the history.  Its `Set` and
 * `Remove` therefore return the new state (and whether anything changed),
 * and the classes `Transaction` and `CourseEdit` hold and replace such
 * values in their fields.
 */
module Courses {
  import opened Wrappers
  import opened Dihedral
  import opened Tiles

  type Course = map<TileCoord, Tile>

  // ---------------------------------------------------------------------
  // Bounding rectangles
  // ---------------------------------------------------------------------

  /** The range of a signed machine word (`isize` on a 64-bit target). */
  const IsizeMin: int := -0x8000_0000_0000_0000
  const IsizeMax: int := 0x7fff_ffff_ffff_ffff

  predicate InIsize(x: int) {
    IsizeMin <= x <= IsizeMax
  }

  /** Two inclusive ranges `xmin..=xmax` and `ymin..=ymax`; a range whose start
      exceeds its end is empty. */
  datatype Rect = Rect(xmin: int, xmax: int, ymin: int, ymax: int) {
    predicate Contains(p: TileCoord) {
      xmin <= p.x <= xmax && ymin <= p.y <= ymax
    }
  }

  /** The smallest pair of ranges holding every cell, or the empty ranges
      `MAX..=MIN` when there is no cell. */
  method BoundingRect(squares: seq<TileCoord>) returns (r: Rect)
    requires forall i :: 0 <= i < |squares| ==> InIsize(squares[i].x) && InIsize(squares[i].y)
    ensures |squares| == 0 ==> r == Rect(IsizeMax, IsizeMin, IsizeMax, IsizeMin)
    ensures forall i :: 0 <= i < |squares| ==> r.Contains(squares[i])
    ensures |squares| > 0 ==>
      && (exists i :: 0 <= i < |squares| && squares[i].x == r.xmin)
      && (exists i :: 0 <= i < |squares| && squares[i].x == r.xmax)
      && (exists i :: 0 <= i < |squares| && squares[i].y == r.ymin)
      && (exists i :: 0 <= i < |squares| && squares[i].y == r.ymax)
  {
    var xmin, xmax, ymin, ymax := IsizeMax, IsizeMin, IsizeMax, IsizeMin;
    for k := 0 to |squares|
      invariant forall i :: 0 <= i < k ==> xmin <= squares[i].x <= xmax && ymin <= squares[i].y <= ymax
      invariant k == 0 ==> xmin == IsizeMax && xmax == IsizeMin && ymin == IsizeMax && ymax == IsizeMin
      invariant k > 0 ==>
        && (exists i :: 0 <= i < k && squares[i].x == xmin)
        && (exists i :: 0 <= i < k && squares[i].x == xmax)
        && (exists i :: 0 <= i < k && squares[i].y == ymin)
        && (exists i :: 0 <= i < k && squares[i].y == ymax)
      invariant InIsize(xmin) && InIsize(xmax) && InIsize(ymin) && InIsize(ymax)
    {
      var pos := squares[k];
      if pos.x < xmin {
        xmin := pos.x;
      }
      if pos.x > xmax {
        xmax := pos.x;
      }
      if pos.y < ymin {
        ymin := pos.y;
      }
      if pos.y > ymax {
        ymax := pos.y;
      }
    }
    r := Rect(xmin, xmax, ymin, ymax);
  }

  // ---------------------------------------------------------------------
  // One state of the edited course
  // ---------------------------------------------------------------------

  datatype CourseEditState = CourseEditState(course: Course, finish: Option<TileCoord>) {

    /** The tracked Finish cell, if any, is occupied (so looking it up cannot fail). */
    predicate FinishIsKey() {
      finish.Some? ==> finish.value in course
    }

    /** The tracked Finish cell, if any, holds a Finish tile. */
    predicate Valid() {
      finish.Some? ==> finish.value in course && course[finish.value].tileType == Finish
    }

    /** Every Finish tile of the course sits on the tracked cell. */
    predicate OneFinish() {
      forall p :: p in course && course[p].tileType == Finish ==> finish == Some(p)
    }

    /** Empties `pos`, forgetting it as the Finish cell; reports whether it was occupied. */
    function Remove(pos: TileCoord): (r: (CourseEditState, bool))
      ensures r.1 <==> pos in course
      ensures pos !in r.0.course
      ensures forall q :: q != pos ==> (q in r.0.course <==> q in course)
      ensures forall q :: q != pos && q in course ==> r.0.course[q] == course[q]
      ensures r.1 ==> r.0.finish == (if finish == Some(pos) then None else finish)
      ensures !r.1 ==> r.0 == this
      ensures FinishIsKey() ==> r.0.FinishIsKey()
      ensures Valid() ==> r.0.Valid()
    {
      if pos in course then
        var finish' := if finish == Some(pos) then None else finish;
        (CourseEditState(course - {pos}, finish'), true)
      else
        (this, false)
    }

    /** `set` as the game writes it: a Finish placed on the cell already
        tracked as the Finish is itself turned into a Straight. */
    function SetAsWritten(pos: TileCoord, tile: Tile): (r: (CourseEditState, bool))
      requires FinishIsKey()
      ensures r.1 <==> !(pos in course && course[pos] == tile)
      ensures r.1 ==> pos in r.0.course
      ensures r.1 ==>
        || r.0.course[pos] == tile
        || (tile.tileType == Finish && finish == Some(pos) && r.0.course[pos] == tile.(tileType := Straight))
      ensures r.0.FinishIsKey()
    {
      if pos in course && course[pos] == tile then
        (this, false)
      else
        var placed := course[pos := tile];
        if tile.tileType == Finish then
          var demoted := if finish.Some? then
            var prev := placed[finish.value];
            placed[finish.value := Tile(Straight, prev.transform, prev.offset)]
          else placed;
          (CourseEditState(demoted, Some(pos)), true)
        else if finish == Some(pos) then
          (CourseEditState(placed, None), true)
        else
          (CourseEditState(placed, finish), true)
    }

    /** Places `tile` at `pos` and reports whether anything changed.  A new
        Finish demotes the previous Finish cell, unless it is the same cell,
        to a Straight and becomes the tracked one. */
    function Set(pos: TileCoord, tile: Tile): (r: (CourseEditState, bool))
      requires FinishIsKey()
      ensures r.1 <==> !(pos in course && course[pos] == tile)
      ensures !r.1 ==> r.0 == this
      ensures r.1 ==> pos in r.0.course && r.0.course[pos] == tile
      ensures r.0.course.Keys == course.Keys + {pos}
      ensures forall q :: q in course && q != pos && Some(q) != finish ==> r.0.course[q] == course[q]
      ensures r.1 && tile.tileType == Finish ==> r.0.finish == Some(pos)
      ensures r.1 && tile.tileType == Finish && finish.Some? && finish.value != pos ==>
        r.0.course[finish.value] == course[finish.value].(tileType := Straight)
      ensures r.1 && tile.tileType != Finish ==> r.0.finish == (if finish == Some(pos) then None else finish)
      ensures r.1 && tile.tileType != Finish && finish.Some? && finish.value != pos ==>
        r.0.course[finish.value] == course[finish.value]
      ensures r.0.FinishIsKey()
      ensures Valid() ==> r.0.Valid()
    {
      if pos in course && course[pos] == tile then
        (this, false)
      else
        var placed := course[pos := tile];
        if tile.tileType == Finish then
          var demoted := if finish.Some? && finish.value != pos then
            var prev := placed[finish.value];
            placed[finish.value := Tile(Straight, prev.transform, prev.offset)]
          else placed;
          (CourseEditState(demoted, Some(pos)), true)
        else if finish == Some(pos) then
          (CourseEditState(placed, None), true)
        else
          (CourseEditState(placed, finish), true)
    }

    /** Flips the phase of the tile at `pos` when its type has lights. */
    function ToggleLights(pos: TileCoord): (r: (CourseEditState, bool))
      ensures r.1 <==> pos in course && course[pos].tileType.HasLights()
      ensures r.0.finish == finish && r.0.course.Keys == course.Keys
      ensures forall q :: q in course && q != pos ==> r.0.course[q] == course[q]
      ensures r.1 ==> r.0.course[pos] == course[pos].(offset := course[pos].offset ^ 1)
      ensures !r.1 ==> r.0 == this
      ensures Valid() ==> r.0.Valid()
    {
      if pos in course && course[pos].tileType.HasLights() then
        var tile := course[pos];
        (CourseEditState(course[pos := Tile(tile.tileType, tile.transform, tile.offset ^ 1)], finish), true)
      else
        (this, false)
    }

    /** Turns the tile at `pos` by `trans`, composed on the left. */
    function ApplyTransform(pos: TileCoord, trans: DihedralElement): (r: (CourseEditState, bool))
      ensures r.1 <==> pos in course
      ensures r.0.finish == finish && r.0.course.Keys == course.Keys
      ensures forall q :: q in course && q != pos ==> r.0.course[q] == course[q]
      ensures r.1 ==> r.0.course[pos] == course[pos].(transform := trans.Compose(course[pos].transform))
      ensures Valid() ==> r.0.Valid()
    {
      if pos in course then
        var tile := course[pos];
        (CourseEditState(course[pos := Tile(tile.tileType, trans.Compose(tile.transform), tile.offset)], finish), true)
      else
        (this, false)
    }
  }

  /** The written `set` and the corrected one differ only when a Finish is
      placed on the cell already tracked as the Finish. */
  lemma SetAgreesOffTrackedFinish(st: CourseEditState, pos: TileCoord, tile: Tile)
    requires st.FinishIsKey()
    requires !(tile.tileType == Finish && st.finish == Some(pos))
    ensures st.SetAsWritten(pos, tile) == st.Set(pos, tile)
  {
  }

  /** Re-placing a Finish, turned, on the tracked Finish cell leaves that cell
      holding a Straight while it is still tracked as the Finish. */
  lemma SetAsWrittenLosesFinish()
    ensures var p := TileCoord(0, 0);
      var st := CourseEditState(map[p := Tile(Finish, Id, 0)], Some(p));
      var r := st.SetAsWritten(p, Tile(Finish, Rot90, 0));
      && st.Valid()
      && r.1
      && r.0.finish == Some(p)
      && r.0.course[p] == Tile(Straight, Rot90, 0)
      && !r.0.Valid()
  {
  }

  /** Placing and removing tiles keep "the only Finish is the tracked one". */
  lemma OneFinishKept(st: CourseEditState, pos: TileCoord, tile: Tile, trans: DihedralElement)
    requires st.Valid() && st.OneFinish()
    ensures st.Set(pos, tile).0.OneFinish()
    ensures st.Remove(pos).0.OneFinish()
    ensures st.ToggleLights(pos).0.OneFinish()
    ensures st.ApplyTransform(pos, trans).0.OneFinish()
  {
  }

  /** The state the editor builds for a loaded course: any Finish cell of the course is tracked. */
  method FromCourse(course: Course) returns (st: CourseEditState)
    ensures st.course == course
    ensures st.Valid()
    ensures st.finish.None? <==> (forall p :: p in course ==> course[p].tileType != Finish)
  {
    if p :| p in course && course[p].tileType == Finish {
      st := CourseEditState(course, Some(p));
    } else {
      st := CourseEditState(course, None);
    }
  }

  // ---------------------------------------------------------------------
  // History and transactions
  // ---------------------------------------------------------------------

  /** The undo/redo history: `stack[pos]` is the current state. */
  class CourseEdit {
    var stack: seq<CourseEditState>
    var pos: nat

    /** The position is on the stack, and every state can look up its Finish cell. */
    predicate Wf()
      reads this
    {
      && 0 <= pos < |stack|
      && (forall i :: 0 <= i < |stack| ==> stack[i].FinishIsKey())
    }

    /** Moreover every tracked Finish cell holds a Finish tile. */
    predicate Valid()
      reads this
    {
      && Wf()
      && (forall i :: 0 <= i < |stack| ==> stack[i].Valid())
    }

    function State(): CourseEditState
      requires Wf()
      reads this
    {
      stack[pos]
    }

    constructor(course: Course)
      ensures Valid()
      ensures |stack| == 1 && pos == 0 && State().course == course
    {
      var st := FromCourse(course);
      stack := [st];
      pos := 0;
    }

    /** Drops the redo tail and makes `st` the current state. */
    method Push(st: CourseEditState)
      requires Wf() && st.FinishIsKey()
      modifies this
      ensures Wf()
      ensures old(Valid()) && st.Valid() ==> Valid()
      ensures stack == old(stack[..pos + 1]) + [st]
      ensures pos == old(pos) + 1 == |stack| - 1
      ensures State() == st
    {
      stack := stack[..pos + 1];
      stack := stack + [st];
      pos := pos + 1;
    }

    method Undo()
      requires Wf()
      modifies this
      ensures Wf() && stack == old(stack)
      ensures old(Valid()) ==> Valid()
      ensures pos == if old(pos) > 0 then old(pos) - 1 else old(pos)
    {
      if pos > 0 {
        pos := pos - 1;
      }
    }

    method Redo()
      requires Wf()
      modifies this
      ensures Wf() && stack == old(stack)
      ensures old(Valid()) ==> Valid()
      ensures pos == if old(pos) < |stack| - 1 then old(pos) + 1 else old(pos)
    {
      if pos < |stack| - 1 {
        pos := pos + 1;
      }
    }

    method SetCourse(course: Course)
      requires Wf()
      modifies this
      ensures Wf()
      ensures old(Valid()) ==> Valid()
      ensures stack[..|stack| - 1] == old(stack[..pos + 1])
      ensures pos == old(pos) + 1 == |stack| - 1
      ensures State().course == course
    {
      var st := FromCourse(course);
      Push(st);
    }
  }

  /** A batch of edits on a copy of the current state.  The copy is pushed
      onto the history when the batch ends, and only if some edit changed it. */
  class Transaction {
    const edit: CourseEdit
    var state: CourseEditState
    var changed: bool

    constructor(edit: CourseEdit)
      requires edit.Wf()
      ensures this.edit == edit && state == edit.State() && !changed
    {
      this.edit := edit;
      state := edit.State();
      changed := false;
    }

    method Remove(pos: TileCoord)
      modifies this
      ensures state == old(state).Remove(pos).0
      ensures changed == (old(changed) || old(state).Remove(pos).1)
    {
      var r := state.Remove(pos);
      state := r.0;
      changed := changed || r.1;
    }

    method Set(pos: TileCoord, tile: Tile)
      requires state.FinishIsKey()
      modifies this
      ensures state == old(state).Set(pos, tile).0
      ensures changed == (old(changed) || old(state).Set(pos, tile).1)
    {
      var r := state.Set(pos, tile);
      state := r.0;
      changed := changed || r.1;
    }

    method ToggleLights(pos: TileCoord)
      modifies this
      ensures state == old(state).ToggleLights(pos).0
      ensures changed == (old(changed) || old(state).ToggleLights(pos).1)
    {
      var r := state.ToggleLights(pos);
      state := r.0;
      changed := changed || r.1;
    }

    method ApplyTransform(pos: TileCoord, trans: DihedralElement)
      modifies this
      ensures state == old(state).ApplyTransform(pos, trans).0
      ensures changed == (old(changed) || old(state).ApplyTransform(pos, trans).1)
    {
      var r := state.ApplyTransform(pos, trans);
      state := r.0;
      changed := changed || r.1;
    }

    /** Replaces the tile at `pos`, if there is one, by `f` of it. */
    method Modify(pos: TileCoord, f: Tile -> Tile)
      requires state.FinishIsKey()
      modifies this
      ensures pos !in old(state.course) ==> state == old(state) && changed == old(changed)
      ensures pos in old(state.course) ==>
        && state == old(state).Set(pos, f(old(state.course[pos]))).0
        && changed == (old(changed) || old(state).Set(pos, f(old(state.course[pos]))).1)
    {
      if pos in state.course {
        Set(pos, f(state.course[pos]));
      }
    }

    /** Ends the batch. */
    method Commit()
      requires edit.Wf() && state.FinishIsKey()
      modifies edit
      ensures edit.Wf()
      ensures old(edit.Valid()) && state.Valid() ==> edit.Valid()
      ensures changed ==> edit.stack == old(edit.stack[..edit.pos + 1]) + [state] && edit.State() == state
      ensures !changed ==> edit.stack == old(edit.stack) && edit.pos == old(edit.pos)
    {
      if changed {
        edit.Push(state);
      }
    }
  }
}
