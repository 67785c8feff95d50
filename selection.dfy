/**
 * The selection tool of the editor: a set of selected cells and a drag in
 * progress, either a rubber-band rectangle or a move of tiles through an
 * isometry.
 *
 * The one-argument tile operations the tool applies (turning a tile by a
 * symmetry, toggling its lights, reversing its track) are not part of this
 * model; they are passed in as a `TileOps` value, and the tool relies only
 * on their keeping a tile's type.
 */
module Selection {
  import opened Wrappers
  import opened Dihedral
  import opened Tiles
  import opened Courses

  datatype TileOps = TileOps(
    turn: (Tile, DihedralElement) -> Tile,
    toggleLights: Tile -> Tile,
    reverse: Tile -> Tile)
  {
    /** None of the operations makes a Finish of another tile, or another
        tile of a Finish. */
    ghost predicate KeepsFinish() {
      && (forall t, e :: (turn(t, e).tileType == Finish) == (t.tileType == Finish))
      && (forall t :: (toggleLights(t).tileType == Finish) == (t.tileType == Finish))
      && (forall t :: (reverse(t).tileType == Finish) == (t.tileType == Finish))
    }
  }

  /** A move of tiles in progress: the cell grabbed, the symmetry and the
      toggles to apply, and the course being pasted when the tiles come
      from outside the edited course. */
  datatype DragData = DragData(
    anchor: TileCoord,
    transform: DihedralElement,
    toggleLights: bool,
    reverse: bool,
    external: Option<Course>)
  {
    /** The isometry that puts the anchor on `pos`. */
    function IsometryTo(pos: TileCoord): (iso: Isometry)
      ensures iso.dihedral == transform && iso.Apply(anchor) == pos
    {
      FromAnchors(anchor, pos, transform)
    }

    /** A dragged tile as it lands: turned, then its lights toggled and its
        track reversed when asked. */
    function Moved(ops: TileOps, tile: Tile): Tile {
      var turned := ops.turn(tile, transform);
      var lit := if toggleLights then ops.toggleLights(turned) else turned;
      if reverse then ops.reverse(lit) else lit
    }
  }

  datatype DragState = Selecting(start: TileCoord) | Dragging(data: DragData) | NoDrag

  predicate InIsizeCoord(p: TileCoord) {
    InIsize(p.x) && InIsize(p.y)
  }

  /** The cells spanned by the rectangle with corners `start` and `pos`. */
  predicate InSpan(start: TileCoord, pos: TileCoord, p: TileCoord) {
    && (start.x <= p.x <= pos.x || pos.x <= p.x <= start.x)
    && (start.y <= p.y <= pos.y || pos.y <= p.y <= start.y)
  }

  /** The rectangle of a rubber-band selection. */
  method SelectionRect(start: TileCoord, pos: TileCoord) returns (r: Rect)
    requires InIsizeCoord(start) && InIsizeCoord(pos)
    ensures r.xmin <= r.xmax && r.ymin <= r.ymax
    ensures forall p :: r.Contains(p) <==> InSpan(start, pos, p)
  {
    var corners := [start, pos];
    r := BoundingRect(corners);
    assert r.xmin == start.x || r.xmin == pos.x by {
      var i :| 0 <= i < 2 && corners[i].x == r.xmin;
    }
    assert r.xmax == start.x || r.xmax == pos.x by {
      var i :| 0 <= i < 2 && corners[i].x == r.xmax;
    }
    assert r.ymin == start.y || r.ymin == pos.y by {
      var i :| 0 <= i < 2 && corners[i].y == r.ymin;
    }
    assert r.ymax == start.y || r.ymax == pos.y by {
      var i :| 0 <= i < 2 && corners[i].y == r.ymax;
    }
    assert r.Contains(corners[0]) && r.Contains(corners[1]);
  }

  /** The tiles a drag takes along: the pasted course, or the selected
      cells of the edited course. */
  function Sources(selection: set<TileCoord>, drag: DragData, course: Course): (src: Course)
    requires drag.external.None? ==> selection <= course.Keys
    ensures drag.external.None? ==> src.Keys == selection && forall p :: p in src ==> src[p] == course[p]
    ensures drag.external.Some? ==> src == drag.external.value
  {
    match drag.external
    case Some(c) => c
    case None => map p | p in selection :: course[p]
  }

  /** The image of a set of cells under an isometry. */
  function Image(iso: Isometry, cells: set<TileCoord>): (r: set<TileCoord>)
    ensures forall p :: p in cells ==> iso.Apply(p) in r
    ensures forall q :: q in r ==> iso.ApplyInverse(q) in cells
  {
    forall p | p in cells
      ensures iso.ApplyInverse(iso.Apply(p)) == p
    {
      IsometryInverseLaws(iso, p);
    }
    set p | p in cells :: iso.Apply(p)
  }

  /** Where the dragged tiles land when the anchor is released on `pos`:
      each source cell is carried by the isometry that puts the anchor on
      `pos`, and its tile is turned and toggled as the drag says. */
  function DragTiles(ops: TileOps, selection: set<TileCoord>, drag: DragData, course: Course, pos: TileCoord): (r: map<TileCoord, Tile>)
    requires drag.external.None? ==> selection <= course.Keys
    ensures var iso := drag.IsometryTo(pos);
      var src := Sources(selection, drag, course);
      && (forall p :: p in src ==> iso.Apply(p) in r && r[iso.Apply(p)] == drag.Moved(ops, src[p]))
      && (forall q :: q in r ==> iso.ApplyInverse(q) in src)
  {
    var iso := drag.IsometryTo(pos);
    var src := Sources(selection, drag, course);
    var dests := Image(iso, src.Keys);
    forall p | p in src
      ensures iso.ApplyInverse(iso.Apply(p)) == p
    {
      IsometryInverseLaws(iso, p);
    }
    map q | q in dests :: drag.Moved(ops, src[iso.ApplyInverse(q)])
  }

  /** The anchor's own tile lands on the release cell. */
  lemma AnchorLandsOnRelease(ops: TileOps, selection: set<TileCoord>, drag: DragData, course: Course, pos: TileCoord)
    requires drag.external.None? ==> selection <= course.Keys
    requires drag.anchor in Sources(selection, drag, course)
    ensures pos in DragTiles(ops, selection, drag, course, pos)
    ensures DragTiles(ops, selection, drag, course, pos)[pos] == drag.Moved(ops, Sources(selection, drag, course)[drag.anchor])
  {
  }

  /** The selected cells a drag empties: those whose preimage is not selected. */
  function Vacated(iso: Isometry, selection: set<TileCoord>): (r: set<TileCoord>)
    ensures r <= selection
    ensures forall p :: p in r <==> p in selection && iso.ApplyInverse(p) !in selection
  {
    set p | p in selection && iso.ApplyInverse(p) !in selection
  }

  /** In a move of selected tiles, a selected cell is emptied exactly when no
      selected tile lands on it. */
  lemma VacatedAreNotDestinations(ops: TileOps, selection: set<TileCoord>, drag: DragData, course: Course, pos: TileCoord)
    requires drag.external.None? && selection <= course.Keys
    ensures Vacated(drag.IsometryTo(pos), selection) == selection - DragTiles(ops, selection, drag, course, pos).Keys
  {
    var iso := drag.IsometryTo(pos);
    var src := Sources(selection, drag, course);
    var d := DragTiles(ops, selection, drag, course, pos);
    assert src.Keys == selection;
    forall p | p in selection
      ensures p in Vacated(iso, selection) <==> p !in d
    {
      IsometryInverseLaws(iso, p);
      var a := iso.ApplyInverse(p);
      if a in selection {
        assert iso.Apply(a) in d;
      }
    }
    var v := Vacated(iso, selection);
    assert v <= selection - d.Keys;
    assert selection - d.Keys <= v;
  }

  /** `tile` with its type replaced by Straight, as a displaced Finish becomes. */
  function Demoted(tile: Tile): Tile {
    tile.(tileType := Straight)
  }

  /** `course` with `f` applied to the tiles on `cells`. */
  function Mapped(course: Course, cells: set<TileCoord>, f: Tile -> Tile): (r: Course)
    ensures r.Keys == course.Keys
    ensures forall p :: p in course ==> r[p] == if p in cells then f(course[p]) else course[p]
  {
    map p | p in course :: if p in cells then f(course[p]) else course[p]
  }

  /** Does `f` change some tile of `course` on `cells`? */
  ghost predicate Changes(course: Course, cells: set<TileCoord>, f: Tile -> Tile) {
    exists p :: p in cells && p in course && f(course[p]) != course[p]
  }

  /** One transaction applying `f` to every tile on `cells`.  When the course
      holds no Finish besides the tracked one, the new state is the old one
      with those tiles mapped, and it is pushed onto the history exactly when
      some tile changed. */
  method ModifyAll(edit: CourseEdit, cells: set<TileCoord>, f: Tile -> Tile)
    requires edit.Valid()
    requires forall t :: (f(t).tileType == Finish) == (t.tileType == Finish)
    modifies edit
    ensures edit.Valid()
    ensures edit.State().course.Keys == old(edit.State().course.Keys)
    ensures old(edit.State()).OneFinish() ==>
      && edit.State() == CourseEditState(Mapped(old(edit.State().course), cells, f), old(edit.State().finish))
      && (Changes(old(edit.State().course), cells, f) ==>
            edit.stack == old(edit.stack[..edit.pos + 1]) + [edit.State()])
      && (!Changes(old(edit.State().course), cells, f) ==>
            edit.stack == old(edit.stack) && edit.pos == old(edit.pos))
  {
    var tx := new Transaction(edit);
    ModifyEach(tx, cells, f);
    tx.Commit();
  }

  /** The loop of `ModifyAll`: `f` applied, through the transaction, to
      each tile on `cells` in turn. */
  method ModifyEach(tx: Transaction, cells: set<TileCoord>, f: Tile -> Tile)
    requires tx.state.Valid()
    requires forall t :: (f(t).tileType == Finish) == (t.tileType == Finish)
    modifies tx
    ensures tx.state.Valid()
    ensures tx.state.course.Keys == old(tx.state.course.Keys)
    ensures !tx.changed ==> tx.state == old(tx.state)
    ensures old(tx.state).OneFinish() ==>
      && tx.state == CourseEditState(Mapped(old(tx.state.course), cells, f), old(tx.state.finish))
      && (tx.changed <==> old(tx.changed) || Changes(old(tx.state.course), cells, f))
  {
    ghost var st0 := tx.state;
    ghost var changed0 := tx.changed;
    var todo := cells;
    assert Mapped(st0.course, {}, f) == st0.course;
    while todo != {}
      invariant todo <= cells
      invariant EachInv(st0, changed0, cells - todo, f, tx.state, tx.changed)
      decreases |todo|
    {
      var p :| p in todo;
      ghost var done := cells - todo;
      ModifyOne(tx, st0, changed0, done, p, f);
      todo := todo - {p};
      assert cells - todo == done + {p};
    }
  }

  /** What `ModifyEach` keeps once the cells `done` are visited. */
  ghost predicate EachInv(st0: CourseEditState, changed0: bool, done: set<TileCoord>, f: Tile -> Tile,
                          state: CourseEditState, changed: bool) {
    && state.Valid()
    && state.course.Keys == st0.course.Keys
    && (!changed ==> state == st0)
    && (st0.OneFinish() ==>
      && state == CourseEditState(Mapped(st0.course, done, f), st0.finish)
      && (changed <==> changed0 || Changes(st0.course, done, f)))
  }

  /** One pass of `ModifyEach`'s loop. */
  method ModifyOne(tx: Transaction, ghost st0: CourseEditState, ghost changed0: bool, ghost done: set<TileCoord>,
                   p: TileCoord, f: Tile -> Tile)
    requires forall t :: (f(t).tileType == Finish) == (t.tileType == Finish)
    requires st0.Valid() && p !in done
    requires EachInv(st0, changed0, done, f, tx.state, tx.changed)
    modifies tx
    ensures EachInv(st0, changed0, done + {p}, f, tx.state, tx.changed)
  {
    ghost var before := tx.state;
    tx.Modify(p, f);
    if st0.OneFinish() {
      ModifyStep(st0, done, p, f, before, tx.state);
      assert Changes(st0.course, done + {p}, f) <==>
        Changes(st0.course, done, f) || (p in st0.course && f(st0.course[p]) != st0.course[p]);
    }
  }

  /** One pass of `ModifyAll`'s loop keeps the state equal to the old one
      with the visited tiles mapped. */
  lemma ModifyStep(st0: CourseEditState, done: set<TileCoord>, p: TileCoord,
                   f: Tile -> Tile, before: CourseEditState, after: CourseEditState)
    requires forall t :: (f(t).tileType == Finish) == (t.tileType == Finish)
    requires st0.Valid() && st0.OneFinish() && p !in done
    requires before == CourseEditState(Mapped(st0.course, done, f), st0.finish)
    requires p !in st0.course ==> after == before
    requires p in st0.course ==> after == before.Set(p, f(before.course[p])).0
    ensures after == CourseEditState(Mapped(st0.course, done + {p}, f), st0.finish)
  {
    var m := Mapped(st0.course, done + {p}, f);
    if p in st0.course {
      var tile := f(st0.course[p]);
      assert before.course[p] == st0.course[p];
      if tile != st0.course[p] {
        assert m == before.course[p := tile];
        if tile.tileType == Finish {
          assert st0.finish == Some(p);
        } else {
          assert st0.finish != Some(p);
        }
      } else {
        assert m == before.course;
      }
    } else {
      assert m == before.course;
    }
  }

  /** `st` with the tiles on `cells` removed; the Finish is forgotten when
      its cell is one of them. */
  function RemovedAll(st: CourseEditState, cells: set<TileCoord>): (r: CourseEditState)
    ensures r.course.Keys == st.course.Keys - cells
    ensures forall p :: p in r.course ==> r.course[p] == st.course[p]
    ensures st.Valid() ==> r.Valid()
  {
    CourseEditState(st.course - cells, if st.finish.Some? && st.finish.value in cells then None else st.finish)
  }

  /** Removing one more cell is removing the larger set. */
  lemma RemoveStep(st0: CourseEditState, done: set<TileCoord>, p: TileCoord)
    requires st0.FinishIsKey()
    ensures RemovedAll(st0, done).Remove(p).0 == RemovedAll(st0, done + {p})
    ensures RemovedAll(st0, done).Remove(p).1 <==> p in st0.course && p !in done
    ensures (done + {p}) * st0.course.Keys != {} <==> done * st0.course.Keys != {} || p in st0.course
  {
    if p in st0.course {
      assert p in (done + {p}) * st0.course.Keys;
    }
    if q :| q in done * st0.course.Keys {
      assert q in (done + {p}) * st0.course.Keys;
    }
    var st := RemovedAll(st0, done);
    if p in st.course {
      assert st.course - {p} == st0.course - (done + {p});
    } else {
      assert st0.course - (done + {p}) == st0.course - done;
    }
  }

  /** One transaction removing every tile on `cells`: the new state is the
      old one without those tiles, pushed exactly when one of them was there. */
  method RemoveAll(edit: CourseEdit, cells: set<TileCoord>)
    requires edit.Valid()
    modifies edit
    ensures edit.Valid()
    ensures edit.State() == RemovedAll(old(edit.State()), cells)
    ensures cells * old(edit.State().course.Keys) != {} ==>
      edit.stack == old(edit.stack[..edit.pos + 1]) + [edit.State()]
    ensures cells * old(edit.State().course.Keys) == {} ==>
      edit.stack == old(edit.stack) && edit.pos == old(edit.pos)
  {
    var tx := new Transaction(edit);
    RemoveEach(tx, cells);
    if !tx.changed {
      RemoveNothing(old(edit.State()), cells);
    }
    tx.Commit();
  }

  /** The loop of `RemoveAll`: each tile on `cells` removed in turn. */
  method RemoveEach(tx: Transaction, cells: set<TileCoord>)
    requires tx.state.FinishIsKey()
    modifies tx
    ensures RemoveInv(old(tx.state), old(tx.changed), cells, tx.state, tx.changed)
  {
    ghost var st0 := tx.state;
    ghost var changed0 := tx.changed;
    var todo := cells;
    ghost var done: set<TileCoord> := {};
    RemoveNone(st0);
    while todo != {}
      invariant done + todo == cells && done !! todo
      invariant RemoveInv(st0, changed0, done, tx.state, tx.changed)
      decreases |todo|
    {
      var p :| p in todo;
      RemoveOne(tx, st0, changed0, done, p);
      todo := todo - {p};
      done := done + {p};
    }
    assert done == cells;
  }

  ghost predicate RemoveInv(st0: CourseEditState, changed0: bool, done: set<TileCoord>,
                            state: CourseEditState, changed: bool)
  {
    state == RemovedAll(st0, done) && (changed <==> changed0 || Hit(done, st0.course))
  }

  /** Some cell of `cells` holds a tile of `course`. */
  predicate Hit(cells: set<TileCoord>, course: Course) { cells * course.Keys != {} }

  /** One pass of `RemoveEach`'s loop. */
  method RemoveOne(tx: Transaction, ghost st0: CourseEditState, ghost changed0: bool,
                   ghost done: set<TileCoord>, p: TileCoord)
    requires st0.FinishIsKey()
    requires RemoveInv(st0, changed0, done, tx.state, tx.changed)
    modifies tx
    ensures RemoveInv(st0, changed0, done + {p}, tx.state, tx.changed)
  {
    RemoveStep(st0, done, p);
    tx.Remove(p);
  }

  /** Removing no cell changes nothing. */
  lemma RemoveNone(st: CourseEditState)
    ensures RemovedAll(st, {}) == st
  {
    assert st.course - {} == st.course;
  }

  /** Removing cells that hold no tile changes nothing. */
  lemma RemoveNothing(st: CourseEditState, cells: set<TileCoord>)
    requires st.FinishIsKey() && cells * st.course.Keys == {}
    ensures RemovedAll(st, cells) == st
  {
    forall q | q in st.course
      ensures q !in cells
    {
      assert q !in cells * st.course.Keys;
    }
    assert st.course - cells == st.course;
    if st.finish.Some? {
      assert st.finish.value in st.course.Keys;
    }
  }

  /** Which cells a move has already filled, and how: every occupied cell
      is `DropCell`-correct. */
  ghost predicate DropInv(st1: CourseEditState, tiles: map<TileCoord, Tile>, done: set<TileCoord>, st: CourseEditState) {
    && done <= tiles.Keys
    && st.Valid()
    && st.course.Keys == st1.course.Keys + done
    && forall q :: q in st.course ==> DropCell(st1.course, tiles, done, st.course, q)
  }

  /** A dropped tile stays as dropped, except that a dropped Finish may since
      have been displaced by another Finish and turned into a Straight; a cell
      not dropped on holds what it held before the drops, or that tile turned
      into a Straight if it was a displaced Finish. */
  predicate DropCell(before: Course, tiles: map<TileCoord, Tile>, done: set<TileCoord>, after: Course, q: TileCoord)
    requires q in after
  {
    if q in done then
      && q in tiles
      && (tiles[q].tileType != Finish ==> after[q] == tiles[q])
      && (after[q] == tiles[q] || after[q] == Demoted(tiles[q]))
    else
      && q in before
      && (|| after[q] == before[q]
          || (before[q].tileType == Finish && after[q] == Demoted(before[q])))
  }

  /** One more drop keeps `DropInv`. */
  lemma DropStep(st1: CourseEditState, tiles: map<TileCoord, Tile>, done: set<TileCoord>, q: TileCoord,
                 st: CourseEditState)
    requires q in tiles && q !in done
    requires DropInv(st1, tiles, done, st)
    ensures DropInv(st1, tiles, done + {q}, st.Set(q, tiles[q]).0)
  {
    var r := st.Set(q, tiles[q]);
    var st' := r.0;
    forall p | p in st'.course
      ensures DropCell(st1.course, tiles, done + {q}, st'.course, p)
    {
      if p != q {
        assert p in st.course && DropCell(st1.course, tiles, done, st.course, p);
        if r.1 && st.finish == Some(p) && tiles[q].tileType == Finish {
          assert st'.course[p] == st.course[p].(tileType := Straight);
        }
      }
    }
  }

  /** The selected cells emptied by a move, removed one at a time while
      going through the selection, as the drop does before placing tiles. */
  method VacateEach(tx: Transaction, iso: Isometry, selection: set<TileCoord>)
    requires tx.state.FinishIsKey()
    modifies tx
    ensures RemoveInv(old(tx.state), old(tx.changed), Vacated(iso, selection), tx.state, tx.changed)
  {
    ghost var st0 := tx.state;
    ghost var changed0 := tx.changed;
    ghost var vacated := Vacated(iso, selection);
    var todo := selection;
    ghost var removed: set<TileCoord> := {};
    RemoveNone(st0);
    while todo != {}
      invariant todo <= selection
      invariant removed <= vacated && vacated <= removed + todo
      invariant RemoveInv(st0, changed0, removed, tx.state, tx.changed)
      decreases |todo|
    {
      var p :| p in todo;
      if iso.ApplyInverse(p) !in selection {
        RemoveOne(tx, st0, changed0, removed, p);
        removed := removed + {p};
      }
      todo := todo - {p};
    }
    assert removed == vacated;
  }

  /** Sets every tile of `tiles` in turn; returns the cells set. */
  method DropEach(tx: Transaction, tiles: map<TileCoord, Tile>) returns (dropped: set<TileCoord>)
    requires tx.state.Valid()
    modifies tx
    ensures dropped == tiles.Keys
    ensures DropInv(old(tx.state), tiles, tiles.Keys, tx.state)
    ensures !tx.changed ==> !old(tx.changed) && tx.state == old(tx.state)
  {
    ghost var st1 := tx.state;
    ghost var changed1 := tx.changed;
    var todo := tiles.Keys;
    dropped := {};
    DropStart(st1, changed1, tiles);
    while todo != {}
      invariant DropLoop(st1, changed1, tiles, dropped, todo, tx.state, tx.changed)
      decreases |todo|
    {
      dropped, todo := DropOne(tx, st1, changed1, tiles, dropped, todo);
    }
  }

  /** What `DropEach`'s loop keeps: the cells set so far are those of
      `tiles` not left to do, the state is as `DropInv` says, and it is
      the starting one as long as no change is recorded. */
  ghost predicate DropLoop(st1: CourseEditState, changed1: bool, tiles: map<TileCoord, Tile>, dropped: set<TileCoord>,
                           todo: set<TileCoord>, st: CourseEditState, changed: bool) {
    && todo <= tiles.Keys
    && dropped == tiles.Keys - todo
    && DropInv(st1, tiles, dropped, st)
    && (!changed ==> !changed1 && st == st1)
  }

  lemma DropStart(st1: CourseEditState, changed1: bool, tiles: map<TileCoord, Tile>)
    requires st1.Valid()
    ensures DropLoop(st1, changed1, tiles, {}, tiles.Keys, st1, changed1)
  {
    assert st1.course.Keys + {} == st1.course.Keys;
  }

  /** One pass of `DropEach`'s loop: some cell still to do gets its tile. */
  method DropOne(tx: Transaction, ghost st1: CourseEditState, ghost changed1: bool, tiles: map<TileCoord, Tile>,
                 dropped: set<TileCoord>, todo: set<TileCoord>)
    returns (dropped': set<TileCoord>, todo': set<TileCoord>)
    requires todo != {}
    requires DropLoop(st1, changed1, tiles, dropped, todo, tx.state, tx.changed)
    modifies tx
    ensures DropLoop(st1, changed1, tiles, dropped', todo', tx.state, tx.changed)
    ensures |todo'| < |todo|
  {
    var q :| q in todo;
    DropStep(st1, tiles, dropped, q, tx.state);
    tx.Set(q, tiles[q]);
    dropped' := dropped + {q};
    todo' := todo - {q};
  }

  /** How a drop leaves the course `before` once the cells `vacated` are
      emptied and `tiles` are set: the occupied cells are the old ones less
      the emptied ones plus the destinations; a tile that is not a Finish
      lands exactly as given; a Finish lands as given or turned into a
      Straight; any other cell keeps its tile, or is a displaced Finish
      turned into a Straight. */
  predicate Landed(before: Course, vacated: set<TileCoord>, tiles: map<TileCoord, Tile>, after: Course) {
    && after.Keys == (before.Keys - vacated) + tiles.Keys
    && (forall q :: q in tiles && tiles[q].tileType != Finish ==> q in after && after[q] == tiles[q])
    && (forall q :: q in tiles ==> q in after && (after[q] == tiles[q] || after[q] == Demoted(tiles[q])))
    && (forall q :: q in after && q !in tiles ==>
          && q in before
          && (|| after[q] == before[q]
              || (before[q].tileType == Finish && after[q] == Demoted(before[q]))))
  }

  /** Emptying `vacated` and then dropping every tile of `tiles` lands them. */
  lemma DropLands(st0: CourseEditState, vacated: set<TileCoord>, tiles: map<TileCoord, Tile>, st: CourseEditState)
    requires DropInv(RemovedAll(st0, vacated), tiles, tiles.Keys, st)
    ensures Landed(st0.course, vacated, tiles, st.course)
  {
  }

  /** Drops a move released on `pos`, in one transaction: the selected cells
      no moved tile lands on are emptied, then every moved tile is set on its
      destination (`Landed`), and the destinations become the new selection. */
  method ApplyDrag(ops: TileOps, edit: CourseEdit, selection: set<TileCoord>, drag: DragData, pos: TileCoord)
    returns (newSelection: set<TileCoord>)
    requires edit.Valid()
    requires drag.external.None? ==> selection <= edit.State().course.Keys
    modifies edit
    ensures edit.Valid()
    ensures newSelection == DragTiles(ops, selection, drag, old(edit.State().course), pos).Keys
    ensures Landed(old(edit.State().course), Vacated(drag.IsometryTo(pos), selection),
                   DragTiles(ops, selection, drag, old(edit.State().course), pos), edit.State().course)
    ensures || (edit.stack == old(edit.stack) && edit.pos == old(edit.pos))
            || edit.stack == old(edit.stack[..edit.pos + 1]) + [edit.State()]
  {
    var iso := drag.IsometryTo(pos);
    ghost var st0 := edit.State();
    var oldCourse := edit.State().course;
    var tx := new Transaction(edit);
    VacateEach(tx, iso, selection);
    var tiles := DragTiles(ops, selection, drag, oldCourse, pos);
    newSelection := DropEach(tx, tiles);
    DropLands(st0, Vacated(iso, selection), tiles, tx.state);
    if !tx.changed {
      RemoveNothing(st0, Vacated(iso, selection));
    }
    tx.Commit();
  }

  // ---------------------------------------------------------------------
  // The tool
  // ---------------------------------------------------------------------

  /** The selection tool: the selected cells and the drag in progress. */
  class SelectState {
    var selection: set<TileCoord>
    var drag: DragState

    /** The tool at rest, with nothing selected. */
    constructor()
      ensures selection == {} && drag == NoDrag
    {
      selection := {};
      drag := NoDrag;
    }

    /** The tool holding a pasted course, grabbed at `center` (the course's
        centre rounded to a cell, which is computed outside this model). */
    constructor LoadExternal(course: Course, center: TileCoord)
      ensures selection == {}
      ensures drag == Dragging(DragData(center, Id, false, false, Some(course)))
    {
      selection := {};
      drag := Dragging(DragData(center, Id, false, false, Some(course)));
    }

    method Clear()
      modifies this
      ensures selection == {} && drag == NoDrag
    {
      selection := {};
      drag := NoDrag;
    }

    /** Adds `pos` to the selection when it holds a tile. */
    method Select(course: Course, pos: TileCoord)
      modifies this
      ensures selection == if pos in course then old(selection) + {pos} else old(selection)
      ensures drag == old(drag)
    {
      if pos in course {
        selection := selection + {pos};
      }
    }

    /** A press of the mouse on `pos`: a press on a selected cell (without
        `retain`) grabs the selection, any other press starts a rectangle,
        dropping the old selection unless `retain`.  Ignored mid-drag. */
    method Click(pos: TileCoord, retain: bool)
      modifies this
      ensures !old(drag).NoDrag? ==> selection == old(selection) && drag == old(drag)
      ensures old(drag).NoDrag? && (retain || pos !in old(selection)) ==>
        && drag == Selecting(pos)
        && selection == (if retain then old(selection) else {})
      ensures old(drag).NoDrag? && !retain && pos in old(selection) ==>
        && drag == Dragging(DragData(pos, Id, false, false, None))
        && selection == old(selection)
    {
      if !drag.NoDrag? {
        return;
      }
      if retain || pos !in selection {
        if !retain {
          selection := {};
        }
        drag := Selecting(pos);
      } else {
        drag := Dragging(DragData(pos, Id, false, false, None));
      }
    }

    /** Ends a rubber-band selection: every occupied cell of the rectangle
        spanned by `start` and `pos` joins the selection, and nothing else. */
    method FinishRect(course: Course, start: TileCoord, pos: TileCoord)
      requires InIsizeCoord(start) && InIsizeCoord(pos)
      modifies this
      ensures drag == old(drag)
      ensures forall p :: p in selection <==> p in old(selection) || (p in course && InSpan(start, pos, p))
    {
      var r := SelectionRect(start, pos);
      for y := r.ymin to r.ymax + 1
        invariant drag == old(drag)
        invariant forall p :: p in selection <==>
          p in old(selection) || (p in course && r.Contains(p) && p.y < y)
      {
        for x := r.xmin to r.xmax + 1
          invariant drag == old(drag)
          invariant forall p :: p in selection <==>
            p in old(selection) || (p in course && r.Contains(p) && (p.y < y || (p.y == y && p.x < x)))
        {
          Select(course, TileCoord(x, y));
        }
      }
    }

    /** Toggles the lights of the grabbed tiles (mid-move) or of the
        selected tiles (at rest); does nothing while drawing a rectangle. */
    method ToggleLights(ops: TileOps, edit: CourseEdit)
      requires edit.Valid() && ops.KeepsFinish()
      modifies this, edit
      ensures edit.Valid() && selection == old(selection)
      ensures old(drag).Dragging? ==>
        && drag == Dragging(old(drag).data.(toggleLights := !old(drag).data.toggleLights))
        && unchanged(edit)
      ensures old(drag).Selecting? ==> drag == old(drag) && unchanged(edit)
      ensures old(drag).NoDrag? ==>
        && drag == NoDrag
        && edit.State().course.Keys == old(edit.State().course.Keys)
        && (old(edit.State()).OneFinish() ==>
              edit.State() == CourseEditState(Mapped(old(edit.State().course), selection, ops.toggleLights),
                                              old(edit.State().finish)))
        && (old(edit.State()).OneFinish() && Changes(old(edit.State().course), selection, ops.toggleLights) ==>
              edit.stack == old(edit.stack[..edit.pos + 1]) + [edit.State()])
        && (old(edit.State()).OneFinish() && !Changes(old(edit.State().course), selection, ops.toggleLights) ==>
              edit.stack == old(edit.stack) && edit.pos == old(edit.pos))
    {
      match drag {
        case Dragging(d) =>
          drag := Dragging(d.(toggleLights := !d.toggleLights));
        case NoDrag =>
          ModifyAll(edit, selection, ops.toggleLights);
        case Selecting(_) =>
      }
    }

    /** Empties the selected cells and clears the selection; only at rest. */
    method Delete(edit: CourseEdit)
      requires edit.Valid()
      modifies this, edit
      ensures edit.Valid() && drag == old(drag)
      ensures old(drag).NoDrag? ==>
        && selection == {}
        && edit.State() == RemovedAll(old(edit.State()), old(selection))
        && (old(selection) * old(edit.State().course.Keys) != {} ==>
              edit.stack == old(edit.stack[..edit.pos + 1]) + [edit.State()])
        && (old(selection) * old(edit.State().course.Keys) == {} ==>
              edit.stack == old(edit.stack) && edit.pos == old(edit.pos))
      ensures !old(drag).NoDrag? ==> selection == old(selection) && unchanged(edit)
    {
      if drag.NoDrag? {
        RemoveAll(edit, selection);
        selection := {};
      }
    }

    /** Reverses the track of the grabbed tiles (mid-move) or of the
        selected tiles (otherwise). */
    method ReverseTrack(ops: TileOps, edit: CourseEdit)
      requires edit.Valid() && ops.KeepsFinish()
      modifies this, edit
      ensures edit.Valid() && selection == old(selection)
      ensures old(drag).Dragging? ==>
        && drag == Dragging(old(drag).data.(reverse := !old(drag).data.reverse))
        && unchanged(edit)
      ensures !old(drag).Dragging? ==>
        && drag == old(drag)
        && edit.State().course.Keys == old(edit.State().course.Keys)
        && (old(edit.State()).OneFinish() ==>
              edit.State() == CourseEditState(Mapped(old(edit.State().course), selection, ops.reverse),
                                              old(edit.State().finish)))
        && (old(edit.State()).OneFinish() && Changes(old(edit.State().course), selection, ops.reverse) ==>
              edit.stack == old(edit.stack[..edit.pos + 1]) + [edit.State()])
        && (old(edit.State()).OneFinish() && !Changes(old(edit.State().course), selection, ops.reverse) ==>
              edit.stack == old(edit.stack) && edit.pos == old(edit.pos))
    {
      match drag {
        case Dragging(d) =>
          drag := Dragging(d.(reverse := !d.reverse));
        case _ =>
          ModifyAll(edit, selection, ops.reverse);
      }
    }

    /** Turns the grabbed tiles (mid-move, composing `trans` on the left), or
        the selected tile when exactly one is selected. */
    method ApplyTransform(ops: TileOps, edit: CourseEdit, trans: DihedralElement)
      requires edit.Valid() && ops.KeepsFinish()
      modifies this, edit
      ensures edit.Valid() && selection == old(selection)
      ensures old(drag).Dragging? ==>
        && drag == Dragging(old(drag).data.(transform := trans.Compose(old(drag).data.transform)))
        && unchanged(edit)
      ensures !old(drag).Dragging? && |selection| != 1 ==> drag == old(drag) && unchanged(edit)
      ensures !old(drag).Dragging? && |selection| == 1 ==>
        && drag == old(drag)
        && edit.State().course.Keys == old(edit.State().course.Keys)
        && (old(edit.State()).OneFinish() ==>
              edit.State() == CourseEditState(Mapped(old(edit.State().course), selection, t => ops.turn(t, trans)),
                                              old(edit.State().finish)))
        && (old(edit.State()).OneFinish() && Changes(old(edit.State().course), selection, t => ops.turn(t, trans)) ==>
              edit.stack == old(edit.stack[..edit.pos + 1]) + [edit.State()])
        && (old(edit.State()).OneFinish() && !Changes(old(edit.State().course), selection, t => ops.turn(t, trans)) ==>
              edit.stack == old(edit.stack) && edit.pos == old(edit.pos))
    {
      match drag {
        case Dragging(d) =>
          drag := Dragging(d.(transform := trans.Compose(d.transform)));
        case _ =>
          if |selection| == 1 {
            ModifyAll(edit, selection, t => ops.turn(t, trans));
          }
      }
    }

    /** A release of the mouse on `pos` ends the drag: a move is dropped
        there and its destinations become the selection, a rectangle adds
        its occupied cells to the selection. */
    method Release(ops: TileOps, edit: CourseEdit, pos: TileCoord)
      requires edit.Valid()
      requires drag.Dragging? && drag.data.external.None? ==> selection <= edit.State().course.Keys
      requires drag.Selecting? ==> InIsizeCoord(drag.start) && InIsizeCoord(pos)
      modifies this, edit
      ensures drag == NoDrag && edit.Valid()
      ensures old(drag).Dragging? ==>
        var d := old(drag).data;
        var tiles := DragTiles(ops, old(selection), d, old(edit.State().course), pos);
        && selection == tiles.Keys
        && Landed(old(edit.State().course), Vacated(d.IsometryTo(pos), old(selection)), tiles, edit.State().course)
        && (|| (edit.stack == old(edit.stack) && edit.pos == old(edit.pos))
            || edit.stack == old(edit.stack[..edit.pos + 1]) + [edit.State()])
      ensures old(drag).Selecting? ==>
        && unchanged(edit)
        && forall p :: p in selection <==>
             p in old(selection) || (p in old(edit.State().course) && InSpan(old(drag).start, pos, p))
      ensures old(drag).NoDrag? ==> selection == old(selection) && unchanged(edit)
    {
      var oldDrag := drag;
      drag := NoDrag;
      match oldDrag {
        case Dragging(d) =>
          selection := ApplyDrag(ops, edit, selection, d, pos);
        case Selecting(start) =>
          FinishRect(edit.State().course, start, pos);
        case NoDrag =>
      }
    }
  }
}
