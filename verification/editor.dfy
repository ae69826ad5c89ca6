/** The editor's controller (`RBEditorViewController`): it turns events of
    the pattern view and the toolbars into changes of the pattern's cells and
    pushes the undo history after each committed edit. Calls it makes into
    the pattern view and the toolbar are recorded, in order, in `viewCalls`;
    the one view call whose delegate callback is a fixed step (clearing the
    selection) is followed by that callback. */
module Editor {
  import opened Base
  import opened RBData
  import Grid
  import Scroll

  /** `RBMode`, the toolbar the action view has selected. */
  datatype Mode = RecordMode | RhythmMode | ArpMode | RatchetMode | VelocityMode | TransposeMode | SnapshotsMode

  /** Calls the controller makes into its views. `Reload` is the controller's
      `reload()`: reload the cells, fix overlaps and snap the rangehead.
      `SetRangehead` places the view's rangehead. The rangehead is the view's
      state; a handler that reads it takes it as a parameter. */
  datatype ViewCall =
    | Reload
    | ReloadData
    | SetRangehead(position: real)
    | UnselectCells
    | QuantizeView
    | UpdateDurationOfCell(index: int, duration: real)
    | SnapRangeheadToLastCell
    | UpdateToolbar

  /** Every cell with the given velocity; nothing else changes. */
  function WithVelocity(cells: seq<RhythmData>, velocity: int): (r: seq<RhythmData>)
    ensures |r| == |cells|
    ensures forall i :: 0 <= i < |r| ==> r[i].velocity == velocity
    ensures forall i :: 0 <= i < |r| ==> r[i] == cells[i].(velocity := r[i].velocity)
  {
    seq(|cells|, i requires 0 <= i < |cells| => cells[i].(velocity := velocity))
  }

  /** Setting the velocity twice keeps the second; setting it to what every
      cell already has changes nothing. */
  lemma WithVelocityFacts(cells: seq<RhythmData>, v: int, w: int)
    ensures WithVelocity(WithVelocity(cells, v), w) == WithVelocity(cells, w)
    ensures (forall i :: 0 <= i < |cells| ==> cells[i].velocity == v) ==> WithVelocity(cells, v) == cells
  {
    if forall i :: 0 <= i < |cells| ==> cells[i].velocity == v {
      assert forall i :: 0 <= i < |cells| ==> WithVelocity(cells, v)[i] == cells[i];
    }
  }

  /** A cell list with the entry at `index` removed. */
  function RemovedAt(cells: seq<RhythmData>, index: nat): (r: seq<RhythmData>)
    requires index < |cells|
    ensures |r| == |cells| - 1
    ensures forall i :: 0 <= i < index ==> r[i] == cells[i]
    ensures forall i :: index <= i < |r| ==> r[i] == cells[i + 1]
    ensures multiset(r) + multiset{cells[index]} == multiset(cells)
  {
    assert cells == cells[..index] + [cells[index]] + cells[index + 1..];
    cells[..index] + cells[index + 1..]
  }

  /** The pattern view's cell for each cell of the pattern, as the data
      source builds it: the same start and length, not selected. */
  function ViewCells(cells: seq<RhythmData>): (r: seq<Grid.GridCell>)
    ensures |r| == |cells|
    ensures forall i :: 0 <= i < |cells| ==>
      r[i].id == cells[i].id && r[i].position == cells[i].position && r[i].duration == cells[i].duration
  {
    seq(|cells|, i requires 0 <= i < |cells| => Grid.GridCell(cells[i].id, cells[i].position, cells[i].duration, false))
  }

  /** Where `reload()` leaves the view's rangehead: the view takes the
      pattern's cells, fixes their overlaps as written, and snaps the
      rangehead to the latest cell end (0 without cells). */
  function ReloadedRangehead(cells: seq<RhythmData>): real
  {
    Grid.LastCellEnd(Scroll.FixedOverlaps(ViewCells(cells), Scroll.AbsoluteEnd))
  }

  /** With one cell there is nothing to fix, so a reload puts the rangehead
      at that cell's end; without cells, at 0. */
  lemma ReloadedRangeheadFew(cells: seq<RhythmData>)
    requires |cells| <= 1
    ensures |cells| == 0 ==> ReloadedRangehead(cells) == 0.0
    ensures |cells| == 1 ==> ReloadedRangehead(cells) == cells[0].position + cells[0].duration
  {
    var v := ViewCells(cells);
    assert Scroll.FixedOverlaps(v, Scroll.AbsoluteEnd) == v;
    if |cells| == 1 {
      assert v == [v[0]];
      assert Grid.End(v[0]) == cells[0].position + cells[0].duration;
    }
  }

  class EditorController {
    const projectData: PatternData
    const history: History
    var mode: Mode
    var selectedRhythmData: Option<RhythmData>
    var viewCalls: seq<ViewCall>

    /** The history records the controller's own pattern. */
    ghost predicate Valid()
      reads this, history
    {
      history.dataRef == projectData && history.Valid()
    }

    /** The history state. */
    ghost function Hist(): (seq<seq<RhythmData>>, int, nat)
      reads history
    {
      (history.stack, history.cursor, history.limit)
    }

    /** A push of the current cells onto the history state `stack, cursor`. */
    ghost predicate PushedFrom(stack: seq<seq<RhythmData>>, cursor: int, freshIds: seq<Id>)
      reads this, history, projectData
      requires |freshIds| == |projectData.cells|
    {
      history.stack == PushedStack(stack, cursor, CopyCells(projectData.cells, freshIds), history.limit) &&
      history.cursor == |history.stack| - 1
    }

    /** `intialize()`: a new history holding a copy of the pattern's cells,
        the view reloaded and the rangehead at the pattern's end. */
    constructor (data: PatternData, freshIds: seq<Id>)
      requires |freshIds| == |data.cells|
      ensures Valid() && projectData == data && fresh(history)
      ensures history.stack == [CopyCells(data.cells, freshIds)] && history.cursor == 0 && history.limit == 20
      ensures data.cells == old(data.cells) && data.duration == old(data.duration)
      ensures data.snapshots == old(data.snapshots)
      ensures mode == RhythmMode && selectedRhythmData == None
      ensures viewCalls == [ReloadData, SetRangehead(data.duration)]
    {
      var h := NewHistory(data, freshIds);
      projectData := data;
      history := h;
      mode := RhythmMode;
      selectedRhythmData := None;
      viewCalls := [ReloadData, SetRangehead(data.duration)];
    }

    /** The `.clear` action: no selection, no cells, one history push. */
    method Clear()
      requires Valid()
      modifies this, projectData, history
      ensures projectData.id == old(projectData.id)
      ensures Valid() && history.limit == old(history.limit)
      ensures selectedRhythmData == None && projectData.cells == []
      ensures PushedFrom(old(history.stack), old(history.cursor), [])
      ensures viewCalls == old(viewCalls) + [Reload, UpdateToolbar]
      ensures projectData.duration == old(projectData.duration) && projectData.snapshots == old(projectData.snapshots)
      ensures mode == old(mode)
    {
      selectedRhythmData := None;
      projectData.cells := [];
      history.Push([]);
      viewCalls := viewCalls + [Reload, UpdateToolbar];
    }

    /** The `.quantize` action: hand over to the pattern view. */
    method Quantize()
      requires Valid()
      modifies this
      ensures Valid()
      ensures viewCalls == old(viewCalls) + [QuantizeView]
      ensures selectedRhythmData == old(selectedRhythmData) && mode == old(mode)
    {
      viewCalls := viewCalls + [QuantizeView];
    }

    /** The `.undo` action: the cells become the history's previous entry, or
        stay as they are when there is nothing to undo. */
    method Undo()
      requires Valid()
      modifies this, projectData, history
      ensures projectData.id == old(projectData.id)
      ensures Valid() && history.stack == old(history.stack) && history.limit == old(history.limit)
      ensures old(history.CanUndo()) ==>
        history.cursor == old(history.cursor) - 1 && projectData.cells == history.stack[history.cursor]
      ensures !old(history.CanUndo()) ==> history.cursor == old(history.cursor) && projectData.cells == old(projectData.cells)
      ensures viewCalls == old(viewCalls) + [Reload]
      ensures projectData.duration == old(projectData.duration) && projectData.snapshots == old(projectData.snapshots)
      ensures selectedRhythmData == old(selectedRhythmData) && mode == old(mode)
    {
      var r := history.Undo();
      projectData.cells := if r.Some? then r.value else projectData.cells;
      viewCalls := viewCalls + [Reload];
    }

    /** The `.redo` action: the cells become the history's next entry, or
        stay as they are when there is nothing to redo. */
    method Redo()
      requires Valid()
      modifies this, projectData, history
      ensures projectData.id == old(projectData.id)
      ensures Valid() && history.stack == old(history.stack) && history.limit == old(history.limit)
      ensures old(history.CanRedo()) ==>
        history.cursor == old(history.cursor) + 1 && projectData.cells == history.stack[history.cursor]
      ensures !old(history.CanRedo()) ==> history.cursor == old(history.cursor) && projectData.cells == old(projectData.cells)
      ensures viewCalls == old(viewCalls) + [Reload]
      ensures projectData.duration == old(projectData.duration) && projectData.snapshots == old(projectData.snapshots)
      ensures selectedRhythmData == old(selectedRhythmData) && mode == old(mode)
    {
      var r := history.Redo();
      projectData.cells := if r.Some? then r.value else projectData.cells;
      viewCalls := viewCalls + [Reload];
    }

    /** `actionView(_:didSelect mode:)`. */
    method SelectMode(m: Mode)
      requires Valid()
      modifies this
      ensures Valid()
      ensures mode == m && viewCalls == old(viewCalls) + [UpdateToolbar]
      ensures selectedRhythmData == old(selectedRhythmData)
    {
      mode := m;
      viewCalls := viewCalls + [UpdateToolbar];
    }

    /** `rbScrollView(_:didUpdate:at:)`: copy the view cell's position and
        duration into the cell at that index; no history push. */
    method DidUpdate(index: int, position: real, duration: real)
      requires Valid() && 0 <= index < |projectData.cells|
      modifies projectData
      ensures projectData.id == old(projectData.id)
      ensures Valid()
      ensures projectData.cells ==
        old(projectData.cells)[index := old(projectData.cells)[index].(position := position, duration := duration)]
      ensures projectData.duration == old(projectData.duration) && projectData.snapshots == old(projectData.snapshots)
    {
      projectData.cells := projectData.cells[index := projectData.cells[index].(position := position)];
      projectData.cells := projectData.cells[index := projectData.cells[index].(duration := duration)];
    }

    /** `rbScrollView(_:didDelete:at:)`: remove the cell at that index, then
        push the history once. */
    method DidDelete(index: int, freshIds: seq<Id>)
      requires Valid() && 0 <= index < |projectData.cells| && |freshIds| == |projectData.cells| - 1
      modifies projectData, history
      ensures Valid() && history.limit == old(history.limit)
      ensures projectData.cells == RemovedAt(old(projectData.cells), index)
      ensures PushedFrom(old(history.stack), old(history.cursor), freshIds)
      ensures projectData.duration == old(projectData.duration) && projectData.snapshots == old(projectData.snapshots)
      ensures projectData.id == old(projectData.id)
    {
      projectData.cells := RemovedAt(projectData.cells, index);
      history.Push(freshIds);
    }

    /** `rbScrollView(_:didSelect:at:)`: remember the selected cell. */
    method DidSelect(index: int)
      requires Valid() && 0 <= index < |projectData.cells|
      modifies this
      ensures Valid()
      ensures selectedRhythmData == Some(projectData.cells[index])
      ensures viewCalls == old(viewCalls) + [UpdateToolbar]
      ensures mode == old(mode)
    {
      selectedRhythmData := Some(projectData.cells[index]);
      viewCalls := viewCalls + [UpdateToolbar];
    }

    /** `rbScrollViewDidUnselectCells`. */
    method DidUnselectCells()
      requires Valid()
      modifies this
      ensures Valid()
      ensures selectedRhythmData == None && viewCalls == old(viewCalls) + [UpdateToolbar]
      ensures mode == old(mode)
    {
      selectedRhythmData := None;
      viewCalls := viewCalls + [UpdateToolbar];
    }

    /** `rbScrollViewDidUpdateRangehead`: the pattern ends where the view's
        rangehead now is; the record toolbar is refreshed. */
    method DidUpdateRangehead(position: real)
      requires Valid()
      modifies this, projectData
      ensures projectData.id == old(projectData.id)
      ensures Valid()
      ensures projectData.duration == position
      ensures projectData.cells == old(projectData.cells) && projectData.snapshots == old(projectData.snapshots)
      ensures viewCalls == old(viewCalls) + if mode == RecordMode then [UpdateToolbar] else []
      ensures mode == old(mode) && selectedRhythmData == old(selectedRhythmData)
    {
      projectData.duration := position;
      if mode == RecordMode {
        viewCalls := viewCalls + [UpdateToolbar];
      }
    }

    /** The end of a move, a resize or a quantize in the view, and a
        transpose from the toolbar: push the history once. */
    method CommitEdit(freshIds: seq<Id>)
      requires Valid() && |freshIds| == |projectData.cells|
      modifies history
      ensures Valid() && history.limit == old(history.limit)
      ensures PushedFrom(old(history.stack), old(history.cursor), freshIds)
    {
      history.Push(freshIds);
    }

    /** An edit from the rhythm, arp or ratchet toolbar (which change the
        selected cell themselves): push the history once and reload the view. */
    method CommitAndReload(freshIds: seq<Id>)
      requires Valid() && |freshIds| == |projectData.cells|
      modifies this, history
      ensures Valid() && history.limit == old(history.limit)
      ensures PushedFrom(old(history.stack), old(history.cursor), freshIds)
      ensures viewCalls == old(viewCalls) + [Reload]
      ensures mode == old(mode) && selectedRhythmData == old(selectedRhythmData)
    {
      history.Push(freshIds);
      viewCalls := viewCalls + [Reload];
    }

    /** `recordToolbarDidAddRecording`: reload the view's cells. */
    method RecordDidAddRecording()
      requires Valid()
      modifies this
      ensures Valid()
      ensures viewCalls == old(viewCalls) + [ReloadData]
      ensures mode == old(mode) && selectedRhythmData == old(selectedRhythmData)
    {
      viewCalls := viewCalls + [ReloadData];
    }

    /** `recordToolbarDidUpdateRecording(duration:)`: resize the last cell in
        the view; nothing at all without cells. */
    method RecordDidUpdateRecording(duration: real)
      requires Valid()
      modifies this
      ensures Valid()
      ensures |projectData.cells| == 0 ==> viewCalls == old(viewCalls)
      ensures |projectData.cells| > 0 ==>
        viewCalls == old(viewCalls) + [UpdateDurationOfCell(|projectData.cells| - 1, duration)]
      ensures mode == old(mode) && selectedRhythmData == old(selectedRhythmData)
    {
      var index := |projectData.cells| - 1;
      if index < 0 {
        return;
      }
      viewCalls := viewCalls + [UpdateDurationOfCell(index, duration)];
    }

    /** `recordToolbarDidEndRecording`: snap the rangehead, push the history
        once and refresh the toolbar. */
    method RecordDidEndRecording(freshIds: seq<Id>)
      requires Valid() && |freshIds| == |projectData.cells|
      modifies this, history
      ensures Valid() && history.limit == old(history.limit)
      ensures PushedFrom(old(history.stack), old(history.cursor), freshIds)
      ensures viewCalls == old(viewCalls) + [SnapRangeheadToLastCell, UpdateToolbar]
      ensures mode == old(mode) && selectedRhythmData == old(selectedRhythmData)
    {
      viewCalls := viewCalls + [SnapRangeheadToLastCell];
      history.Push(freshIds);
      viewCalls := viewCalls + [UpdateToolbar];
    }

    /** `rhythmToolbar(didAdd:)`: the new cell starts at the view's
        rangehead and is appended; the view is reloaded and the history
        pushed once. */
    method RhythmDidAdd(rhythm: RhythmData, rangehead: real, freshIds: seq<Id>)
      requires Valid() && |freshIds| == |projectData.cells| + 1
      modifies this, projectData, history
      ensures projectData.id == old(projectData.id)
      ensures Valid() && history.limit == old(history.limit)
      ensures projectData.cells == old(projectData.cells) + [rhythm.(position := rangehead)]
      ensures PushedFrom(old(history.stack), old(history.cursor), freshIds)
      ensures viewCalls == old(viewCalls) + [Reload]
      ensures projectData.duration == old(projectData.duration) && projectData.snapshots == old(projectData.snapshots)
      ensures mode == old(mode) && selectedRhythmData == old(selectedRhythmData)
    {
      var placed := rhythm.(position := rangehead);
      projectData.cells := projectData.cells + [placed];
      viewCalls := viewCalls + [Reload];
      history.Push(freshIds);
    }

    /** `velocityToolbar(didUpdate:globally:)`: a global change sets every
        cell's velocity; either way the history is pushed once. */
    method VelocityDidUpdate(velocity: int, globally: bool, freshIds: seq<Id>)
      requires Valid() && |freshIds| == |projectData.cells|
      modifies projectData, history
      ensures Valid() && history.limit == old(history.limit)
      ensures globally ==> projectData.cells == WithVelocity(old(projectData.cells), velocity)
      ensures !globally ==> projectData.cells == old(projectData.cells)
      ensures PushedFrom(old(history.stack), old(history.cursor), freshIds)
      ensures projectData.duration == old(projectData.duration) && projectData.snapshots == old(projectData.snapshots)
      ensures projectData.id == old(projectData.id)
    {
      ghost var stack, cursor := history.stack, history.cursor;
      if globally {
        projectData.cells := WithVelocity(projectData.cells, velocity);
      }
      history.Push(freshIds);
      assert PushedFrom(stack, cursor, freshIds);
    }

    /** `snapshotToolbarDidPressAddButton`: save a copy of the cells in the
        snapshot bank. */
    method SnapshotDidAdd(freshIds: seq<Id>)
      requires Valid() && |freshIds| == |projectData.cells|
      modifies this, projectData
      ensures projectData.id == old(projectData.id)
      ensures Valid()
      ensures projectData.cells == old(projectData.cells) && projectData.duration == old(projectData.duration)
      ensures projectData.snapshots ==
        old(projectData.snapshots).(cells := old(projectData.snapshots.cells) + [CopyCells(projectData.cells, freshIds)])
      ensures viewCalls == old(viewCalls) + [UpdateToolbar]
      ensures mode == old(mode) && selectedRhythmData == old(selectedRhythmData)
    {
      projectData.Snapshot(freshIds);
      viewCalls := viewCalls + [UpdateToolbar];
    }

    /** `snapshotToolbarDidSelectSnapshot(at:)`: nothing for an index outside
        the bank; otherwise the cells become a copy of that snapshot, the
        view's selection is cleared (and its callback clears ours), and the
        view is reloaded. The history is not pushed. */
    method SelectSnapshot(index: int, freshIds: seq<Id>)
      requires Valid()
      requires 0 <= index < |projectData.snapshots.cells| ==> |freshIds| == |projectData.snapshots.cells[index]|
      modifies this, projectData
      ensures projectData.id == old(projectData.id)
      ensures Valid()
      ensures projectData.duration == old(projectData.duration) && projectData.snapshots == old(projectData.snapshots)
      ensures !(0 <= index < |old(projectData.snapshots.cells)|) ==>
        projectData.cells == old(projectData.cells) && viewCalls == old(viewCalls) &&
        selectedRhythmData == old(selectedRhythmData)
      ensures 0 <= index < |old(projectData.snapshots.cells)| ==>
        projectData.cells == CopyCells(projectData.snapshots.cells[index], freshIds) &&
        SameCells(projectData.cells, projectData.snapshots.cells[index]) &&
        selectedRhythmData == None &&
        viewCalls == old(viewCalls) + [UnselectCells, UpdateToolbar, Reload, UpdateToolbar]
      ensures mode == old(mode)
    {
      if !(0 <= index < |projectData.snapshots.cells|) {
        return;
      }
      projectData.cells := CopyCells(projectData.snapshots.cells[index], freshIds);
      viewCalls := viewCalls + [UnselectCells];
      DidUnselectCells();
      viewCalls := viewCalls + [Reload, UpdateToolbar];
    }
  }

  /** Add a cell, undo, then redo, on a fresh controller over an empty
      pattern: undo brings back the empty pattern, redo a copy of the added
      cell at the rangehead. */
  method AddUndoRedoScenario(rhythm: RhythmData, duration: real)
    returns (afterUndo: seq<RhythmData>, afterRedo: seq<RhythmData>, canRedo: bool)
    ensures afterUndo == []
    ensures |afterRedo| == 1 && SameContent(afterRedo[0], rhythm.(position := duration))
    ensures !canRedo
  {
    var data := new PatternData("pattern", [], SnapshotData("bank", [], 0), duration);
    var editor := new EditorController(data, []);
    assert editor.history.stack == [[]];
    editor.RhythmDidAdd(rhythm, duration, ["copy"]);
    assert data.cells == [rhythm.(position := duration)];
    var added := CopyCells([rhythm.(position := duration)], ["copy"]);
    assert Prefix([[]], 1) + [added] == [[], added];
    assert editor.history.stack == [[], added];
    editor.Undo();
    afterUndo := data.cells;
    editor.Redo();
    afterRedo := data.cells;
    canRedo := editor.history.CanRedo();
  }

  /** Two adds on a fresh controller over an empty pattern. The first cell
      starts where `intialize` put the view's rangehead, at the pattern's
      duration; the reload after it snaps the rangehead to that cell's end,
      which is where the second cell starts. */
  method TwoAddsScenario(first: RhythmData, second: RhythmData, duration: real)
    returns (cells: seq<RhythmData>, calls: seq<ViewCall>)
    ensures |cells| == 2
    ensures cells[0] == first.(position := duration)
    ensures cells[1] == second.(position := duration + first.duration)
    ensures calls == [ReloadData, SetRangehead(duration), Reload, Reload]
  {
    var placed := first.(position := duration);
    ReloadedRangeheadFew([placed]);
    cells, calls := AddTwice(first, second, duration, ReloadedRangehead([placed]));
  }

  /** Two adds on a fresh controller over an empty pattern, the second with
      the view's rangehead at `secondAt`. */
  method AddTwice(first: RhythmData, second: RhythmData, duration: real, secondAt: real)
    returns (cells: seq<RhythmData>, calls: seq<ViewCall>)
    ensures cells == [first.(position := duration), second.(position := secondAt)]
    ensures calls == [ReloadData, SetRangehead(duration), Reload, Reload]
  {
    var data := new PatternData("pattern", [], SnapshotData("bank", [], 0), duration);
    var editor := new EditorController(data, []);
    editor.RhythmDidAdd(first, duration, ["first"]);
    editor.RhythmDidAdd(second, secondAt, ["first", "second"]);
    cells := data.cells;
    calls := editor.viewCalls;
  }
}
