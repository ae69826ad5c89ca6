# Rhythm editor timeline: a verified Dafny model

This project models the editing core of an iOS rhythm-pattern editor
(`RBEditorViewController`). The editor holds a pattern of rhythm cells. Each
cell has a position and a duration in bars, a velocity, an arpeggio mode and
a ratchet mode. The user adds, moves, resizes, deletes and quantizes cells on
a zoomable timeline, undoes and redoes edits, and saves snapshots.

The model has six modules, one file each:

| file | module | models |
|---|---|---|
| `base.dfy` | `Base` | `Option`, Swift's `ceil`/`round` on exact reals, `prefix`/`suffix` |
| `rb_data.dfy` | `RBData` | rhythm data, note-length tables, the pattern and its snapshot bank, the bounded undo/redo history (`RBData.swift`) |
| `grid_view.dfy` | `Grid` | the timeline view of the current revision, `RBGridView` |
| `scroll_view.dfy` | `Scroll` | the older timeline view, `RBScrollView`, which the controller drives |
| `editor.dfy` | `Editor` | the controller, `RBEditorViewController` |
| `tap_record.dfy` | `TapRecord` | the tap-to-record pad, `RBTapRecordView` |

How the model is built:

- Cells are values (datatypes) that carry their identity.
  - `RBData` cells carry a UUID `id`.
  - The views' cell objects become `GridCell` values with an `id`. The
    views look cells up by identity (`firstIndex(of:)`).
- Objects whose fields the source updates in place are classes.
  - `PatternData`, `History`, `GridView`, `ScrollView`, `EditorController`
    and `TapRecordView` are classes.
  - Each has a `Valid()` invariant, and its methods state the whole new
    state.
  - A cell callback receives the view's own cell object. The handlers
    therefore require the argument to be the live cell with that identity,
    when the view holds one (`Grid.IsLive`).
- Delegate calls are appended to an `events` log.
- The controller's calls into its views are appended to `viewCalls`.
- Fresh UUIDs are method parameters.
- Display-link timestamps are method parameters.
- Points and bars are exact reals.

Three facts about the code that shape the model:

- A cell has no transpose field. The transpose toolbar only triggers a
  history push.
- A snapshot holds only the cells, not the pattern's duration.
- Restoring a snapshot does not push the history.

The scroll view class runs `RBScrollView.swift` as written, including the
three defects listed under "## Findings": its overlap fix, its quantize
step and its drag conversion are the as-written ones. The corrected
versions are separate functions, and their intended properties are proved
about them; no class method calls them.

The rangehead belongs to the pattern view. The controller reads it as a
parameter where the source reads `patternView.rangeheadView.position`;
`ReloadedRangehead` states where a reload leaves it.

## Model

Source paths are relative to the repository root.

| member | source | states |
|---|---|---|
| Base.Ceil | RBEditorViewController/RBGridView/RBGridView.swift:162-164 | `ceil` is the least integer at or above its argument |
| Base.RoundHalfAway | RBEditorViewController/RBGridView/RBGridView.swift:377 | `round` is within one half of its argument; halves go away from zero |
| Base.Prefix | RBEditorViewController/RBEditor/RBData.swift:33 | `prefix(n)` is a prefix of length `min(n, count)` (0 for negative `n`) |
| Base.Suffix | RBEditorViewController/RBEditor/RBData.swift:33 | `suffix(n)` holds the last `min(n, count)` elements, in order |
| RBData.Copy | RBEditorViewController/RBEditor/RBData.swift:240-247 | a copy has the fresh id and is `==` to the original in both directions; it is the same value only if the id is unchanged |
| RBData.CopyCells | RBEditorViewController/RBEditor/RBData.swift:32 | `cells.map { $0.copy() }` is `==` to the cells element-wise; each copy carries its own fresh id |
| RBData.SameCellsEquivalence | RBEditorViewController/RBEditor/RBData.swift:251-257 | the source's `==` on rhythm arrays is reflexive, symmetric and transitive |
| RBData.DurationValueIsPowerOfTwo | RBEditorViewController/RBEditor/RBData.swift:94-105 | the note-length table is exactly `2 / 2^rawValue` |
| RBData.DurationHalves | RBEditorViewController/RBEditor/RBData.swift:84-105 | each note length is half of the one declared before it |
| RBData.ModifierValue | RBEditorViewController/RBEditor/RBData.swift:127-134 | every modifier factor is in [1, 2); the factor is 1 exactly for `none` |
| RBData.PatternData.Snapshot | RBEditorViewController/RBEditor/RBData.swift:326-329 | appends one deep copy of the cells to the bank; the earlier snapshots and the cells are kept |
| RBData.PushedStackShape | RBEditorViewController/RBEditor/RBData.swift:31-35 | after a push the stack has at most `limit` entries, with the new snapshot last; before it come the newest entries at or below the cursor, in order (the redo branch is gone) |
| RBData.PushOntoEmpty | RBEditorViewController/RBEditor/RBData.swift:31-35 | the first push onto an empty history leaves just the new snapshot |
| RBData.History.constructor | RBEditorViewController/RBEditor/RBData.swift:25-29 | empty stack, cursor 0, limit 20 |
| RBData.History.Push | RBEditorViewController/RBEditor/RBData.swift:31-35 | the stack becomes the pushed stack of a deep copy of the cells; the cursor is on the newest entry; nothing can be redone; the newest entry is `==` to the cells |
| RBData.History.Undo | RBEditorViewController/RBEditor/RBData.swift:37-41 | returns an entry exactly when `cursor > 0`; the entry is the one at the decremented cursor; the stack never changes |
| RBData.History.Redo | RBEditorViewController/RBEditor/RBData.swift:43-47 | returns an entry exactly when the cursor is below the top; the entry is the one at the incremented cursor; the stack never changes |
| RBData.NewHistory | RBEditorViewController/RBEditor/RBEditorViewController.swift:81-82 | a new history of the pattern with one push holds exactly one copy of the cells, with the cursor on it and limit 20 |
| RBData.EmptyHistory | Tests/Tests.swift:23-25 | the unit test's setup: an empty pattern and its history with limit 5 and nothing pushed |
| RBData.HistoryScenarioFirst | Tests/Tests.swift:23-31 | the first push gives cursor 0 and one entry, with no cells |
| RBData.HistoryScenarioStart | Tests/Tests.swift:23-48 | three pushes give cursor 2 and three entries of 0, 1 and 2 cells |
| RBData.HistoryScenarioFill | Tests/Tests.swift:23-69 | five pushes fill the history to its limit, entry `k` holding `k` cells, with the cursor on the last |
| RBData.PushRamp | Tests/Tests.swift:29-92 | one push of the history unit test: below the limit the stack grows by one; at the limit the oldest entry drops out |
| RBData.HistoryScenarioPushes | Tests/Tests.swift:22-94 | six pushes with limit 5 keep the five newest states, with the cursor on the last |
| RBData.HistoryScenarioUndos | Tests/Tests.swift:96-117 | four undos from the newest of five entries walk the cursor from 4 to 0 with the stack unchanged; a fifth undo returns nothing |
| RBData.HistoryScenarioRedos | Tests/Tests.swift:119-140 | four redos walk the cursor from 0 to 4 with the stack unchanged; a fifth redo returns nothing |
| RBData.HistoryScenario | Tests/Tests.swift:96-157 | the unit test's undos, redos and branch-cutting push end with cursor 3, four entries and nothing to redo |
| Grid.ZoomFromRaw | RBEditorViewController/RBGridView/RBGridView.swift:57-60 | `RBZoomLevel(rawValue:)` exists exactly for 0, 1 and 2 and gives that raw value back |
| Grid.ZoomIn | RBEditorViewController/RBGridView/RBGridView.swift:62-64 | the next finer level; nothing exactly at `subbeat` |
| Grid.ZoomOut | RBEditorViewController/RBGridView/RBGridView.swift:66-68 | the next coarser level; nothing exactly at `bar` |
| Grid.ZoomInOutInverse | RBEditorViewController/RBGridView/RBGridView.swift:62-68 | zooming in and then out (or out and then in) returns to the same level |
| Grid.MultiplierSteps | RBEditorViewController/RBGridView/RBGridView.swift:70-79 | columns per bar: 1 at `bar`; zooming in multiplies by `beats` and then by 4 |
| Grid.IndexOfId | RBEditorViewController/RBGridView/RBGridView.swift:408 | `firstIndex(of:)` finds the first cell with the identity, or reports that none has it |
| Grid.IndexOfIdUnique | RBEditorViewController/RBGridView/RBGridView.swift:506 | with distinct identities, a cell's index is the index found by identity |
| Grid.IntersectsFacts | RBEditorViewController/RBGridView/RBGridView.swift:387-397 | intersection is symmetric; equal starts intersect; touching cells do not; otherwise cells intersect exactly when the earlier one runs past the later one's start |
| Grid.Adjusted | RBEditorViewController/RBGridView/RBGridView.swift:420-441 | the trim moves a cell's start to the edited cell's end and keeps its end (move right, resize); or it ends the cell at the edited cell's start (move left); a cell the trim does not touch is unchanged |
| Grid.Resolve | RBEditorViewController/RBGridView/RBGridView.swift:405-450 | the `fixOverlaps` loop gives exactly the specified cells and delegate calls |
| Grid.FixOverlapsClearsEditedCell | RBEditorViewController/RBGridView/RBGridView.swift:399-451 | when the edited cell has a positive duration, it comes out unchanged and no other cell intersects it; a resize can leave it with a duration of zero or less (line 544 has no clamp), and then this is not promised |
| Grid.ContainedCellDeleted | RBEditorViewController/RBGridView/RBGridView.swift:411-418 | a cell strictly inside the edited cell is removed with exactly one `didDelete` call |
| Grid.UntouchedCellKept | RBEditorViewController/RBGridView/RBGridView.swift:405 | a cell that does not intersect the edited cell comes out unchanged |
| Grid.FixedCellsShape | RBEditorViewController/RBGridView/RBGridView.swift:399-451 | `fixOverlaps` never adds a cell, and it keeps identities distinct and drawn from the input |
| Grid.RemovedDistinct | RBEditorViewController/RBGridView/RBGridView.swift:568-578 | removing one cell keeps identities distinct |
| Grid.OutcomeEventsConcern | RBEditorViewController/RBGridView/RBGridView.swift:407-450 | every call one turn of the loop makes is an update or a deletion of that turn's cell, at its live index |
| Grid.EventsAboutAfter | RBEditorViewController/RBGridView/RBGridView.swift:407-450 | the calls about a cell are exactly the ones its own turn of the loop makes |
| Grid.QuantizeRange | RBEditorViewController/RBGridView/RBGridView.swift:364-375 | the grid step is positive |
| Grid.QuantizeStepIsOneColumn | RBEditorViewController/RBGridView/RBGridView.swift:364-375 | the grid step of a level is exactly one ruler column of that level |
| Grid.SnapFacts | RBEditorViewController/RBGridView/RBGridView.swift:376-380 | snapping moves a position by at most half a step; snapping is idempotent |
| Grid.SnapAllIdempotent | RBEditorViewController/RBGridView/RBGridView.swift:376-380 | snapping a track twice equals snapping it once; it keeps identities, durations and order |
| Grid.SnapCells | RBEditorViewController/RBGridView/RBGridView.swift:376-380 | the loop snaps every cell's position to the grid and changes nothing else |
| Grid.FixSeriesShape | RBEditorViewController/RBGridView/RBGridView.swift:382 | the per-cell overlap pass never adds cells and keeps identities distinct |
| Grid.TranslationRoundTrip | RBEditorViewController/RBGridView/RBGridView.swift:357-360 | a drag converted to bars and laid out again gives the drag back, and the other way round |
| Grid.GridLabelTicks | RBEditorViewController/RBGridView/RBGridView.swift:229-259 | the ruler label counter starts at `1`, `1.1` or `1.1.1`; each column ticks it once |
| Grid.CountLabels | RBEditorViewController/RBGridView/RBGridView.swift:226-260 | `drawMeasure` makes `measureCount + 1` labels; label `i` is the closed-form label of column `i` |
| Grid.MeasureCountLeast | RBEditorViewController/RBGridView/RBGridView.swift:160-172 | the new measure count covers the cells (plus one), the rangehead (plus one) and the frame, and is the least count that does |
| Grid.FarMostBar | RBEditorViewController/RBGridView/RBGridView.swift:458-460 | 0 without cells; otherwise the rounded-up end of some cell, at or past every cell's end |
| Grid.LastCellEnd | RBEditorViewController/RBGridView/RBGridView.swift:453-456 | 0 without cells; otherwise the end of some cell, at or past every cell's end |
| Grid.LoadCells | RBEditorViewController/RBGridView/RBGridView.swift:309-321 | the `reloadData` loop flags exactly the selected index and tracks the furthest end, never below 0 |
| Grid.SelectionIsUnique | RBEditorViewController/RBGridView/RBGridView.swift:464-477 | after a selection at most one cell is flagged: the one with that identity |
| Grid.MarkSelected | RBEditorViewController/RBGridView/RBGridView.swift:466-473 | the `selectCell` loop flags exactly the cell with the identity, and reports its index exactly when it is present |
| Grid.ClampedPosition | RBEditorViewController/RBGridView/RBGridView.swift:511 | a position dragged below zero is held at zero; any other position is kept |
| Grid.ScaledWidthInBounds | RBEditorViewController/RBGridView/RBGridView.swift:331-338 | the pinch-scaled measure width stays between the minimum and the maximum |
| Grid.PinchKeepsBounds | RBEditorViewController/RBGridView/RBGridView.swift:326-353 | a pinch keeps the width within the bounds and moves at most one zoom level |
| Grid.PinchBarWidth | RBEditorViewController/RBGridView/RBGridView.swift:339-346 | a switch between bar and beat keeps the on-screen bar width; a switch between beat and sub-beat keeps it exactly when a bar has four beats |
| Grid.ZoomInBarWidth | RBEditorViewController/RBGridView/RBGridView.swift:339-342 | zooming in at the maximum width keeps the drawn bar width from `bar` to `beat`, and from `beat` to `subbeat` exactly when a bar has four beats |
| Grid.ZoomOutBarWidth | RBEditorViewController/RBGridView/RBGridView.swift:343-346 | zooming out at the minimum width keeps the drawn bar width from `beat` to `bar`, and from `subbeat` to `beat` exactly when a bar has four beats |
| Grid.PinchStep | RBEditorViewController/RBGridView/RBGridView.swift:329-352 | one `didZoom` step computes the specified pinch |
| Grid.GridView.constructor | RBEditorViewController/RBGridView/RBGridView.swift:83-117 | the stored property defaults: width 200 in 100...300, level `bar`, 4 beats, zoom speed 1 |
| Grid.GridView.FixOverlaps | RBEditorViewController/RBGridView/RBGridView.swift:399-451 | with no edited cell in range nothing changes; otherwise the cells and calls are the specified fix around it |
| Grid.GridView.Quantize | RBEditorViewController/RBGridView/RBGridView.swift:362-385 | snap every cell, then fix overlaps with each index in turn, then report `didQuantize` once; `isQuantizing` is off again afterwards |
| Grid.GridView.DidZoom | RBEditorViewController/RBGridView/RBGridView.swift:326-353 | only a two-finger pinch that began or changed changes the zoom, and it gives the specified pinch |
| Grid.GridView.DrawMeasure | RBEditorViewController/RBGridView/RBGridView.swift:226-294 | one label per column boundary, each the closed-form label |
| Grid.GridView.Layout | RBEditorViewController/RBGridView/RBGridView.swift:160-172 | the measure count becomes the least covering count; the ruler is redrawn only when the count changes |
| Grid.GridView.SelectCell | RBEditorViewController/RBGridView/RBGridView.swift:464-477 | flags exactly the cell with the identity; the selected index and the `didSelect` call follow whether it is present |
| Grid.GridView.SelectCellAt | RBEditorViewController/RBGridView/RBGridView.swift:479-482 | an index in range selects that cell; any other index changes nothing |
| Grid.GridView.UnselectCells | RBEditorViewController/RBGridView/RBGridView.swift:484-488 | clears every flag and the selected index, and reports once |
| Grid.GridView.CalculateFarMostCellPosition | RBEditorViewController/RBGridView/RBGridView.swift:458-460 | the far-most position is the far-most rounded-up cell end |
| Grid.GridView.SnapRangeheadToLastCell | RBEditorViewController/RBGridView/RBGridView.swift:453-456 | the rangehead moves to the last cell end and is reported |
| Grid.GridView.UpdateDurationOfCell | RBEditorViewController/RBGridView/RBGridView.swift:296-299 | only that cell's duration changes |
| Grid.GridView.ReloadData | RBEditorViewController/RBGridView/RBGridView.swift:301-322 | the cells are the source's cells; a selected index past the end is dropped; only the selected cell is flagged |
| Grid.GridView.EndMove | RBEditorViewController/RBGridView/RBGridView.swift:519-525 | the end of a move fixes overlaps around the selected cell, clears the drag state and reports `didMoveCell` |
| Grid.GridView.EndResize | RBEditorViewController/RBGridView/RBGridView.swift:550-555 | the end of a resize fixes overlaps around the selected cell, clears the direction tag and reports `didResizeCell` |
| Grid.GridView.MoveCellBy | RBEditorViewController/RBGridView/RBGridView.swift:510-516 | the cell moves by the drag, never before zero; it is reported; the direction is set from the start position when there is one |
| Grid.GridView.ResizeCellBy | RBEditorViewController/RBGridView/RBGridView.swift:544-547 | only that cell's duration grows by the drag; it is reported; the drag state is kept |
| Grid.GridView.CellDidMove | RBEditorViewController/RBGridView/RBGridView.swift:496-528 | select on begin (flags, index and `didSelect`) and record the start; while changing, move by the drag (never before zero) and set the direction from the start position; on end, fix overlaps; outside the begin phase the selected index is kept |
| Grid.GridView.CellDidResize | RBEditorViewController/RBGridView/RBGridView.swift:530-558 | select on begin (flags, index and `didSelect`) and tag a resize; grow by the drag while changing; fix overlaps on end; outside the begin phase the selected index is kept |
| Grid.GridView.CellDidTap | RBEditorViewController/RBGridView/RBGridView.swift:560-566 | a tap on a selected cell clears the flags and the index and reports once; any other tap flags the cell, sets the index found by identity and reports `didSelect` |
| Grid.GridView.CellDidDelete | RBEditorViewController/RBGridView/RBGridView.swift:568-578 | removes the cell found by identity and reports it (after clearing the selection if it was selected); an unknown cell changes nothing |
| Grid.GridView.HeadDidPan | RBEditorViewController/RBGridView/RBGridView.swift:582-603 | a head moves by the drag, never before zero, while inside the content; the end of the pan is reported for that head |
| Scroll.ColumnsPerBar | RBEditorViewController/RBScrollView/RBScrollView.swift:158-166 | at least one ruler column per bar |
| Scroll.BarsForTranslationScales | RBEditorViewController/RBScrollView/RBScrollView.swift:363-371 | corrected conversion: the drag is the result times the bar width the layout draws with; 1 for an unknown level |
| Scroll.BarsForTranslationRoundTrip | RBEditorViewController/RBScrollView/RBScrollView.swift:158-171 | converting the drawn width of `d` bars gives `d` back |
| Scroll.DurationForTranslationAsWritten | RBEditorViewController/RBScrollView/RBScrollView.swift:363-371 | as written, the drag is divided by the bar width at the bar and beat levels, but at the sub-beat level by `measureWidth * beats / 4`, not the drawn `measureWidth * beats * 4` (16 times too far, see `Scroll.AsWrittenTranslationOvershoots`); other levels give one bar |
| Scroll.AsWrittenTranslationOvershoots | RBEditorViewController/RBScrollView/RBScrollView.swift:363-371 | as written, the conversion agrees with the layout except at the sub-beat level, where it is 16 times too large |
| Scroll.QuantizeRangeAsWritten | RBEditorViewController/RBScrollView/RBScrollView.swift:373-384 | the step as written is positive |
| Scroll.AsWrittenQuantizeRangeIsSixteenColumns | RBEditorViewController/RBScrollView/RBScrollView.swift:373-384 | the corrected step is one column; the as-written one equals it except at the sub-beat level, where it is sixteen columns |
| Scroll.SnapCalls | RBEditorViewController/RBScrollView/RBScrollView.swift:386-390 | one `didUpdate` per cell, in index order, with the snapped cell |
| Scroll.InsertByPosition | RBEditorViewController/RBScrollView/RBScrollView.swift:396 | inserting an index adds exactly that index |
| Scroll.PositionOrder | RBEditorViewController/RBScrollView/RBScrollView.swift:396 | the sort lists exactly the indexes below `n` |
| Scroll.InsertKeepsOrder | RBEditorViewController/RBScrollView/RBScrollView.swift:396 | insertion keeps the list duplicate-free and sorted by position |
| Scroll.PositionOrderIsSorted | RBEditorViewController/RBScrollView/RBScrollView.swift:396 | `sorted { $0.position < $1.position }` lists every cell once, by position |
| Scroll.PairsTrimmedFrame | RBEditorViewController/RBScrollView/RBScrollView.swift:397-409 | the pair loop changes only durations, and only of cells already visited |
| Scroll.PairsTrimmedStep | RBEditorViewController/RBScrollView/RBScrollView.swift:397-409 | one more pair changes at most its first cell, and only when it runs past the second cell's start |
| Scroll.PairsTrimmedEnds | RBEditorViewController/RBScrollView/RBScrollView.swift:397-409 | with the corrected cut, every visited cell ends no later than the next one in the order starts |
| Scroll.PairsTrimmedShortens | RBEditorViewController/RBScrollView/RBScrollView.swift:402-405 | corrected half of the `fixOverlaps` finding: with the relative cut, a cut cell gets shorter but not negative and every other cell is unchanged (as written, a cut can leave the duration as it is or lengthen it; see `Scroll.AsWrittenFixExamples`) |
| Scroll.PairsTrimmedSeparates | RBEditorViewController/RBScrollView/RBScrollView.swift:397-409 | with the corrected cut, every visited cell ends no later than the next one starts; a cut cell gets shorter but not negative |
| Scroll.FixedPairsDoNotOverlap | RBEditorViewController/RBScrollView/RBScrollView.swift:395-410 | after the corrected fix, no cell runs past the start of the next one in position order |
| Scroll.AbsoluteTrimKeepsOverlap | RBEditorViewController/RBScrollView/RBScrollView.swift:401-405 | as written, a cut cell that starts after zero still runs past its neighbour's start |
| Scroll.PairsTrimmedClosedForm | RBEditorViewController/RBScrollView/RBScrollView.swift:399-407 | with either cut, each visited cell is cut against the original start of the next cell in the order, whatever was cut before it |
| Scroll.FixedOverlapsClosedForm | RBEditorViewController/RBScrollView/RBScrollView.swift:395-410 | the fix the view runs, read cell by cell: in position order each cell is cut against the next one's start exactly when it runs into it; the last cell is kept |
| Scroll.FixedOverlapsKeepsCells | RBEditorViewController/RBScrollView/RBScrollView.swift:395-410 | with either cut, identities and starts are kept, only durations change, and distinct identities stay distinct |
| Scroll.AsWrittenFixExamples | RBEditorViewController/RBScrollView/RBScrollView.swift:402-405 | as written, a cell at 1 lasting 2 before a cell at 2 keeps duration 2 and still overlaps; before a cell at 2.5 it grows to 2.5; the corrected cut gives 1 and 1.5 |
| Scroll.RankOf | RBEditorViewController/RBScrollView/RBScrollView.swift:396 | every cell index has a place in the position order |
| Scroll.FixedOverlapsFacts | RBEditorViewController/RBScrollView/RBScrollView.swift:395-410 | the corrected fix keeps identities and starts and never lengthens a cell; a cell that starts earlier than another ends no later than the other starts |
| Scroll.MeasureBarCount | RBEditorViewController/RBScrollView/RBScrollView.swift:206-208 | the new bar count never shrinks and is at least the frame's rounded-up bar count and the far-most cell bar; it is one of the three candidates |
| Scroll.MeasureBarCountFillsFrame | RBEditorViewController/RBScrollView/RBScrollView.swift:206-208 | the new bar count fills the frame |
| Scroll.MeasureBarCountReachesCells | RBEditorViewController/RBScrollView/RBScrollView.swift:206-208 | the new bar count reaches every cell end |
| Scroll.MeasureBarCountLeast | RBEditorViewController/RBScrollView/RBScrollView.swift:206-208 | it is the least count with those three properties |
| Scroll.ScrollLabelTicks | RBEditorViewController/RBScrollView/RBScrollView.swift:225-289 | the zero-based label counter starts at `0`, `0.0` or `0.0.0`; each column ticks it once |
| Scroll.ScrollLabels | RBEditorViewController/RBScrollView/RBScrollView.swift:231 | one label per column boundary |
| Scroll.CountLabelsFromZero | RBEditorViewController/RBScrollView/RBScrollView.swift:225-289 | the label loop of `updateMeasure` makes exactly the closed-form labels |
| Scroll.LevelPinchKeepsBounds | RBEditorViewController/RBScrollView/RBScrollView.swift:312-355 | a pinch keeps the level in `0...maxZoomLevel` and the width within its bounds; it moves at most one level; without a switch the width is the scaled width |
| Scroll.LevelPinchBarWidth | RBEditorViewController/RBScrollView/RBScrollView.swift:325-349 | between levels 0, 1 and 2 a level switch keeps the on-screen bar width |
| Scroll.LevelPinchStep | RBEditorViewController/RBScrollView/RBScrollView.swift:315-350 | one `didZoom` step computes the specified pinch |
| Scroll.TrimPairs | RBEditorViewController/RBScrollView/RBScrollView.swift:397-409 | the pair loop as written (duration := the next cell's start) gives the specified cells and update calls |
| Scroll.ScrollView.constructor | RBEditorViewController/RBScrollView/RBScrollView.swift:49-82 | the stored property defaults: 4 bars, width 100 in 50...150, levels 0...2, zoom speed 0.4 |
| Scroll.ScrollView.UpdateMeasure | RBEditorViewController/RBScrollView/RBScrollView.swift:204-290 | the bar count grows to the least covering count; the column count is bars times columns per bar; the labels are redrawn |
| Scroll.ScrollView.UpdateDurationOfCell | RBEditorViewController/RBScrollView/RBScrollView.swift:292-294 | only that cell's duration changes |
| Scroll.ScrollView.ReloadData | RBEditorViewController/RBScrollView/RBScrollView.swift:296-308 | the cells are the source's cells; only the cell at the selected index is flagged |
| Scroll.ScrollView.DidZoom | RBEditorViewController/RBScrollView/RBScrollView.swift:312-355 | only a two-finger pinch that began or changed zooms; it gives the specified pinch and then updates the measure |
| Scroll.ScrollView.Quantize | RBEditorViewController/RBScrollView/RBScrollView.swift:373-393 | every position snaps to the step as written (16 columns at level 2); one update per cell |
| Scroll.ScrollView.FixOverlaps | RBEditorViewController/RBScrollView/RBScrollView.swift:395-410 | the cells become the as-written overlap fix of the old cells (see `Scroll.FixedOverlapsClosedForm`), with its update calls; identities stay distinct |
| Scroll.ScrollView.SelectCell | RBEditorViewController/RBScrollView/RBScrollView.swift:414-427 | flags exactly the cell with the identity; the index and the `didSelect` call follow whether it is present |
| Scroll.ScrollView.UnselectCells | RBEditorViewController/RBScrollView/RBScrollView.swift:429-433 | clears every flag and the selected index, and reports once |
| Scroll.ScrollView.MoveCellBy | RBEditorViewController/RBScrollView/RBScrollView.swift:454-458 | only that cell moves, by the as-written conversion and never before zero; it is reported |
| Scroll.ScrollView.ResizeCellBy | RBEditorViewController/RBScrollView/RBScrollView.swift:479-482 | only that cell's duration grows by the as-written conversion; it is reported |
| Scroll.ScrollView.MoveAndSettle | RBEditorViewController/RBScrollView/RBScrollView.swift:454-463 | the move, followed on the end of the drag by the as-written overlap fix of the moved cells |
| Scroll.ScrollView.ResizeAndSettle | RBEditorViewController/RBScrollView/RBScrollView.swift:479-487 | the resize, followed on the end of the drag by the as-written overlap fix of the resized cells |
| Scroll.ScrollView.SelectOnBegin | RBEditorViewController/RBScrollView/RBScrollView.swift:445-447 | on begin the cell is selected (flags, index, `didSelect`); lookups by identity are unchanged |
| Scroll.ScrollView.CellDidMove | RBEditorViewController/RBScrollView/RBScrollView.swift:441-464 | select on begin (flags, index and `didSelect`); inside the content, move by the as-written conversion (never before zero) and report it; on end, the as-written overlap fix |
| Scroll.ScrollView.CellDidResize | RBEditorViewController/RBScrollView/RBScrollView.swift:466-488 | select on begin (flags, index and `didSelect`); inside the content, grow by the as-written conversion and report it; on end, the as-written overlap fix |
| Scroll.ScrollView.CellDidTap | RBEditorViewController/RBScrollView/RBScrollView.swift:490-496 | a tap on a selected cell clears the flags and the index and reports once; any other tap flags the cell, sets the index found by identity and reports `didSelect` |
| Scroll.ScrollView.CellDidDelete | RBEditorViewController/RBScrollView/RBScrollView.swift:498-508 | removes the cell found by identity and reports it; an unknown cell changes nothing |
| Scroll.ScrollView.HeadDidPan | RBEditorViewController/RBScrollView/RBScrollView.swift:512-533 | a head moves by the as-written conversion of the drag, never before zero, while inside the content; the end of the drag is reported for that head |
| Editor.WithVelocity | RBEditorViewController/RBEditor/RBEditorViewController.swift:301-303 | every cell gets the new velocity; nothing else changes |
| Editor.WithVelocityFacts | RBEditorViewController/RBEditor/RBEditorViewController.swift:300-306 | a second global velocity overrides the first; setting the velocity every cell already has changes nothing |
| Editor.RemovedAt | RBEditorViewController/RBEditor/RBEditorViewController.swift:212 | `remove(at:)` keeps the cells before the index, shifts the later ones down by one, and loses exactly that cell |
| Editor.ViewCells | RBEditorViewController/RBEditor/RBEditorViewController.swift:196-201 | the data source's view cells have the pattern cells' identities, starts and lengths |
| Editor.ReloadedRangeheadFew | RBEditorViewController/RBEditor/RBEditorViewController.swift:91-95 | a reload puts the view's rangehead at 0 without cells and at the end of a single cell |
| Editor.EditorController.constructor | RBEditorViewController/RBEditor/RBEditorViewController.swift:81-89 | `intialize`: the history holds one copy of the cells; the view is reloaded and its rangehead set to the pattern's duration |
| Editor.EditorController.Clear | RBEditorViewController/RBEditor/RBEditorViewController.swift:167-172 | no selection and no cells; one push; then reload and toolbar refresh; the pattern's id, duration and snapshots stay |
| Editor.EditorController.Quantize | RBEditorViewController/RBEditor/RBEditorViewController.swift:173-174 | hands quantizing over to the view, and nothing else |
| Editor.EditorController.Undo | RBEditorViewController/RBEditor/RBEditorViewController.swift:175-177 | the cells become the previous history entry, or stay as they are; the view is reloaded |
| Editor.EditorController.Redo | RBEditorViewController/RBEditor/RBEditorViewController.swift:178-180 | the cells become the next history entry, or stay as they are; the view is reloaded |
| Editor.EditorController.SelectMode | RBEditorViewController/RBEditor/RBEditorViewController.swift:184-187 | sets the mode and refreshes the toolbar |
| Editor.EditorController.DidUpdate | RBEditorViewController/RBEditor/RBEditorViewController.swift:205-209 | copies only the position and the duration into that cell; no push |
| Editor.EditorController.DidDelete | RBEditorViewController/RBEditor/RBEditorViewController.swift:211-215 | removes that cell and pushes once |
| Editor.EditorController.DidSelect | RBEditorViewController/RBEditor/RBEditorViewController.swift:217-220 | the selected rhythm is that cell |
| Editor.EditorController.DidUnselectCells | RBEditorViewController/RBEditor/RBEditorViewController.swift:222-225 | no selected rhythm |
| Editor.EditorController.DidUpdateRangehead | RBEditorViewController/RBEditor/RBEditorViewController.swift:231-236 | the pattern's duration follows the rangehead; the toolbar is refreshed only in record mode |
| Editor.EditorController.CommitEdit | RBEditorViewController/RBEditor/RBEditorViewController.swift:238-321 | a move, resize or quantize in the view (lines 238-251), or a transpose (lines 318-321), pushes the history once |
| Editor.EditorController.CommitAndReload | RBEditorViewController/RBEditor/RBEditorViewController.swift:284-314 | an edit from the rhythm or arp toolbar (lines 284-296) or from the ratchet toolbar (lines 310-314) pushes once and reloads |
| Editor.EditorController.RecordDidAddRecording | RBEditorViewController/RBEditor/RBEditorViewController.swift:255-258 | reloads the view's cells |
| Editor.EditorController.RecordDidUpdateRecording | RBEditorViewController/RBEditor/RBEditorViewController.swift:260-265 | resizes the last cell in the view; without cells nothing happens |
| Editor.EditorController.RecordDidEndRecording | RBEditorViewController/RBEditor/RBEditorViewController.swift:267-272 | snaps the rangehead, pushes once and refreshes the toolbar |
| Editor.EditorController.RhythmDidAdd | RBEditorViewController/RBEditor/RBEditorViewController.swift:276-282 | the new cell is appended at the view's rangehead (a parameter); reload; one push |
| Editor.EditorController.VelocityDidUpdate | RBEditorViewController/RBEditor/RBEditorViewController.swift:300-306 | a global change sets every velocity; either way one push |
| Editor.EditorController.SnapshotDidAdd | RBEditorViewController/RBEditor/RBEditorViewController.swift:325-328 | appends a copy of the cells to the bank, whose other fields stay; the cells, the duration and the pattern's id are unchanged |
| Editor.EditorController.SelectSnapshot | RBEditorViewController/RBEditor/RBEditorViewController.swift:334-341 | an index outside the bank changes nothing; otherwise the cells become a copy of that snapshot, the selection is cleared and the view reloaded, with no push |
| Editor.TwoAddsScenario | RBEditorViewController/RBEditor/RBEditorViewController.swift:276-282 | on an empty pattern, the first add starts at the pattern's duration and the second at the end of the first cell, where the reload snapped the rangehead |
| Editor.AddTwice | RBEditorViewController/RBEditor/RBEditorViewController.swift:276-282 | on a fresh controller over an empty pattern, two adds append the two cells at the given rangeheads, in order, each followed by a reload |
| Editor.AddUndoRedoScenario | RBEditorViewController/RBEditor/RBEditorViewController.swift:175-180 | on an empty pattern, add then undo gives the empty pattern; redo gives a copy of the added cell at the rangehead; nothing is left to redo |
| TapRecord.PositionAt | RBEditorViewController/RBScrollView/RBTapRecordView.swift:53-54 | the reported position times `bpm / 60` is the elapsed time; it is non-negative exactly when the elapsed time is |
| TapRecord.ElapsedAt | RBEditorViewController/RBScrollView/RBTapRecordView.swift:53-54 | the inverse conversion keeps the sign |
| TapRecord.PositionElapsedRoundTrip | RBEditorViewController/RBScrollView/RBTapRecordView.swift:53-54 | positions and elapsed times correspond one to one |
| TapRecord.PositionAtMonotoneAndShiftFree | RBEditorViewController/RBScrollView/RBTapRecordView.swift:53-58 | later frames report later positions; a reported duration depends only on the time between the frames |
| TapRecord.PositionAtTempoScaling | RBEditorViewController/RBScrollView/RBTapRecordView.swift:54 | as written, a tempo `k` times faster reports a position `k` times smaller |
| TapRecord.TapRecordView.constructor | RBEditorViewController/RBScrollView/RBTapRecordView.swift:20-47 | nothing recorded; the display link is running |
| TapRecord.TapRecordView.Frame | RBEditorViewController/RBScrollView/RBTapRecordView.swift:51-60 | nothing before the first touch; then the position follows the clock and never goes back; while touching, the duration since the touch is reported |
| TapRecord.TapRecordView.DonePressed | RBEditorViewController/RBScrollView/RBTapRecordView.swift:64-67 | stops the display link and reports; every other field, including the tempo, the clock and the touch's start, is kept |
| TapRecord.TapRecordView.CancelPressed | RBEditorViewController/RBScrollView/RBTapRecordView.swift:69-72 | stops the display link and reports; every other field, including the tempo, the clock and the touch's start, is kept |
| TapRecord.TapRecordView.TouchesBegan | RBEditorViewController/RBScrollView/RBTapRecordView.swift:74-85 | only the first touch starts the clock; every touch records from the current position and reports it |
| TapRecord.TapRecordView.TouchesEnded | RBEditorViewController/RBScrollView/RBTapRecordView.swift:87-91 | lifts the finger and reports the latest duration |
| TapRecord.TwoTapsScenario | RBEditorViewController/RBScrollView/RBTapRecordView.swift:51-91 | two held taps report their start positions and held durations; the second tap starts at the position of the frame before it |

## Left out

- Drawing is not modelled: layer frames, colours, fonts, measure lines, content size, and the cell and head frames. Only the numbers they are computed from are kept.
- Gesture recognisers, UIKit touches and the display link are not modelled. Their phase, touch count, translation, scale and timestamps are method parameters. Frame tests (`frame.minX >= 0`, `maxX < contentSize.width`) are boolean parameters.
- UUID generation is not modelled; fresh identifiers are parameters.
- Floating point is not modelled: `CGFloat`/`Double` are exact reals, and `Int(round(x))` and `ceil` are exact.
- Object identity of cells is modelled by an `id` field. Aliasing between objects is not modelled:
  - History entries and the live cells become the same objects after an undo, and the source can then edit history entries in place.
  - The toolbars change the selected `RBRhythmData` object in place.
  - The model copies values instead.
- Editor.EditorController: the arp, ratchet, rhythm-edit and transpose toolbars change the selected cell themselves; that change is not part of the model. Only the controller's push and reload are modelled.
- Editor.EditorController: the playhead callback and the MIDI CC button are empty in the source and are not modelled. Neither are the data-source callbacks, `updateToolbar`'s construction of toolbar views, or `projectDataDidChange`.
- Editor.EditorController: the calls the view makes back synchronously are not fed back into the controller. These are the `didUpdate` calls of `fixOverlaps` while it runs `reload()`, which appear only as the `Reload` view call, and the per-cell `didUpdate` calls of `RBScrollView.quantize` (`RBScrollView.swift` lines 386-390), which appear only as the `QuantizeView` view call of `Editor.EditorController.Quantize`; the controller's cells keep their positions in the model. The one synchronous callback that is modelled is `unselectCells` inside `SelectSnapshot`.
- RBData.PatternData: `duration` is not in this revision of `RBData.swift`, but the controller reads and writes `projectData.duration`, so the model adds the field. `RBMode` here lacks the `record` and `transpose` cases, and `RBAction` lacks `undo` and `redo`, which the controller uses. The model follows the controller.
- Editor.ReloadedRangehead: `RBScrollView.swift` has no `snapRangeheadToLastCell`, yet `reload()` and `recordToolbarDidEndRecording` call it on the pattern view. The model uses the grid view's definition (the latest cell end, `RBGridView.swift` lines 453-456), applied after the scroll view's as-written overlap fix.
- Codable encoding and decoding of rhythm, snapshot and pattern data is not modelled (persistence).
- The `description` strings of the enums are display text and are not modelled.
- TapRecord.TapRecordView: the tempo is a positive constructor argument. The source sets `bpm` once, right after creating the view; a tempo of zero would divide by zero in floating point.
- TapRecord.PositionAt: stated as written, `elapsed / (bpm / 60)`. The unit it is meant to produce (bars or beats) is not fixed by the source, so no corrected form is claimed.
- Grid.PinchBarWidth: between beat and sub-beat, a level switch keeps the drawn bar width only in 4/4. The lemma states exactly that. It is not listed as a defect, because nothing in the source ties the new level's bounds to the bar width.
- Other toolbar modes, the action view, the picker and localisation are outside the editing core and not modelled.

## Findings

| source | as written | input that shows it | evidently intended | confidence | as-written member | corrected member |
|---|---|---|---|---|---|---|
| RBEditorViewController/RBScrollView/RBScrollView.swift:402-405 | `fixOverlaps` sets an overlapping cell's duration to the next cell's position, an absolute time | cells A (position 1, duration 2) and B (position 2, duration 1): A gets duration 2, ends at 3 and still overlaps B | duration = next position minus the cell's own position, so the cell ends where the next starts | high (not executed) | Scroll.AbsoluteTrimKeepsOverlap | Scroll.FixedOverlapsFacts |
| RBEditorViewController/RBScrollView/RBScrollView.swift:363-371 | at zoom level 2, `durationForTranslation` divides by `beats / 4`, while the layout draws a bar `beats * 4` columns wide | 4 beats, measure width 100, drag of 1600 points (one drawn bar): 16 bars instead of 1 | divide by the drawn bar width at every level | high (not executed) | Scroll.AsWrittenTranslationOvershoots | Scroll.BarsForTranslationRoundTrip |
| RBEditorViewController/RBScrollView/RBScrollView.swift:373-384 | at zoom level 2, `quantize` uses the step `1 / (beats / 4)`, sixteen sub-beat columns | 4 beats, a cell at position 0.25 at level 2: it snaps to 0 instead of staying on its column | the step of one sub-beat column, `1 / beats / 4`, as the grid view uses | high (not executed) | Scroll.AsWrittenQuantizeRangeIsSixteenColumns | Grid.QuantizeStepIsOneColumn |
