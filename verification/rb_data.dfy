/** The pattern data of the editor: rhythm cells, the pattern that owns them
    with its snapshot bank, the note-length tables, and the bounded undo/redo
    history of deep-copied cell lists. */
module RBData {
  import opened Base

  /** Identifiers are UUID strings; fresh ones are supplied by the caller. */
  type Id = string

  datatype Arp = NoArp | Up | Down | UpDown | Random | HighFirst | LowFirst

  datatype Ratchet = NoRatchet | Two | Three | Four

  /** One rhythm cell. Positions and durations are in whole bars. */
  datatype RhythmData = RhythmData(
    id: Id,
    position: real,
    duration: real,
    velocity: int,
    arp: Arp,
    ratchet: Ratchet)

  /** A cell built with the source's defaults for everything but position and duration. */
  function NewRhythm(id: Id, position: real, duration: real): RhythmData
  {
    RhythmData(id, position, duration, 90, NoArp, NoRatchet)
  }

  /** The source's `==` on rhythm data: every field except `id`. */
  predicate SameContent(a: RhythmData, b: RhythmData)
  {
    a.position == b.position && a.duration == b.duration && a.velocity == b.velocity &&
    a.arp == b.arp && a.ratchet == b.ratchet
  }

  /** `==` lifted to arrays of rhythm data: same length, element-wise `SameContent`. */
  predicate SameCells(xs: seq<RhythmData>, ys: seq<RhythmData>)
  {
    |xs| == |ys| && forall i :: 0 <= i < |xs| ==> SameContent(xs[i], ys[i])
  }

  /** `copy()`: a new cell with a fresh id and every other field kept. */
  function Copy(c: RhythmData, freshId: Id): (r: RhythmData)
    ensures SameContent(r, c) && SameContent(c, r)
    ensures r.id == freshId
    ensures r == c <==> c.id == freshId
  {
    RhythmData(freshId, c.position, c.duration, c.velocity, c.arp, c.ratchet)
  }

  /** `cells.map { $0.copy() }`, one fresh id per cell. */
  function CopyCells(cells: seq<RhythmData>, freshIds: seq<Id>): (r: seq<RhythmData>)
    requires |freshIds| == |cells|
    ensures SameCells(r, cells) && SameCells(cells, r)
    ensures forall i :: 0 <= i < |r| ==> r[i].id == freshIds[i]
  {
    seq(|cells|, i requires 0 <= i < |cells| => Copy(cells[i], freshIds[i]))
  }

  /** `SameCells` is an equivalence: it is reflexive, symmetric and transitive. */
  lemma SameCellsEquivalence(xs: seq<RhythmData>, ys: seq<RhythmData>, zs: seq<RhythmData>)
    ensures SameCells(xs, xs)
    ensures SameCells(xs, ys) ==> SameCells(ys, xs)
    ensures SameCells(xs, ys) && SameCells(ys, zs) ==> SameCells(xs, zs)
  {
  }

  // ---------------------------------------------------------------------
  // Note-length tables

  datatype DurationType = DoubleWhole | Whole | Half | Quarter | Eighth | Sixteenth | ThirtySecond | SixtyFourth

  /** The enum's raw value (declaration order). */
  function DurationRaw(d: DurationType): (n: nat)
    ensures n < 8
  {
    match d
    case DoubleWhole => 0
    case Whole => 1
    case Half => 2
    case Quarter => 3
    case Eighth => 4
    case Sixteenth => 5
    case ThirtySecond => 6
    case SixtyFourth => 7
  }

  function Pow2(n: nat): (r: real)
    ensures r >= 1.0
  {
    if n == 0 then 1.0 else 2.0 * Pow2(n - 1)
  }

  /** `RBDurationType.value`, the note length in whole notes. */
  function DurationValue(d: DurationType): real
  {
    match d
    case DoubleWhole => 2.0
    case Whole => 1.0
    case Half => 1.0 / 2.0
    case Quarter => 1.0 / 4.0
    case Eighth => 1.0 / 8.0
    case Sixteenth => 1.0 / 16.0
    case ThirtySecond => 1.0 / 32.0
    case SixtyFourth => 1.0 / 64.0
  }

  /** The table is exactly `2 / 2^rawValue`. */
  lemma DurationValueIsPowerOfTwo(d: DurationType)
    ensures DurationValue(d) * Pow2(DurationRaw(d)) == 2.0
  {
    match d
    case DoubleWhole =>
    case Whole =>
    case Half => assert Pow2(2) == 4.0 by { assert Pow2(1) == 2.0; }
    case Quarter => assert Pow2(3) == 8.0 by { assert Pow2(2) == 4.0 by { assert Pow2(1) == 2.0; } }
    case Eighth => Pow2At(4);
    case Sixteenth => Pow2At(5);
    case ThirtySecond => Pow2At(6);
    case SixtyFourth => Pow2At(7);
  }

  lemma Pow2At(n: nat)
    requires 4 <= n <= 7
    ensures n == 4 ==> Pow2(n) == 16.0
    ensures n == 5 ==> Pow2(n) == 32.0
    ensures n == 6 ==> Pow2(n) == 64.0
    ensures n == 7 ==> Pow2(n) == 128.0
  {
    assert Pow2(1) == 2.0;
    assert Pow2(2) == 4.0;
    assert Pow2(3) == 8.0;
    assert Pow2(4) == 16.0;
    if n >= 5 { assert Pow2(5) == 32.0; }
    if n >= 6 { assert Pow2(6) == 64.0; }
  }

  /** Each case is half as long as the one before it. */
  lemma DurationHalves(longer: DurationType, shorter: DurationType)
    requires DurationRaw(shorter) == DurationRaw(longer) + 1
    ensures DurationValue(shorter) * 2.0 == DurationValue(longer)
  {
    DurationValueIsPowerOfTwo(longer);
    DurationValueIsPowerOfTwo(shorter);
    assert Pow2(DurationRaw(shorter)) == 2.0 * Pow2(DurationRaw(longer));
  }

  datatype ModifierType = NoModifier | Dotted | Triplet | Quintuplet

  /** `RBModifierType.value`: the factor a modifier applies to a note length. */
  function ModifierValue(m: ModifierType): (r: real)
    ensures 1.0 <= r < 2.0
    ensures r == 1.0 <==> m == NoModifier
  {
    match m
    case NoModifier => 1.0
    case Dotted => 1.5
    case Triplet => 1.63
    case Quintuplet => 1.4
  }

  // ---------------------------------------------------------------------
  // Pattern and snapshot bank

  /** `RBSnapshotData`: saved cell lists and the MIDI CC number of the bank. */
  datatype SnapshotData = SnapshotData(id: Id, cells: seq<seq<RhythmData>>, cc: int)

  /** `RBPatternData`: the live cells of a pattern and its snapshot bank.
      `duration` is the end-of-pattern marker the controller reads and writes. */
  class PatternData {
    var id: Id
    var cells: seq<RhythmData>
    var snapshots: SnapshotData
    var duration: real

    constructor (id: Id, cells: seq<RhythmData>, snapshots: SnapshotData, duration: real)
      ensures this.id == id && this.cells == cells && this.snapshots == snapshots
      ensures this.duration == duration
    {
      this.id := id;
      this.cells := cells;
      this.snapshots := snapshots;
      this.duration := duration;
    }

    /** `snapshot()`: append a deep copy of the current cells to the bank. */
    method Snapshot(freshIds: seq<Id>)
      requires |freshIds| == |cells|
      modifies this
      ensures cells == old(cells) && id == old(id) && duration == old(duration)
      ensures snapshots == old(snapshots).(cells := old(snapshots.cells) + [CopyCells(cells, freshIds)])
      ensures |snapshots.cells| == |old(snapshots.cells)| + 1
      ensures snapshots.cells[..|old(snapshots.cells)|] == old(snapshots.cells)
      ensures SameCells(snapshots.cells[|snapshots.cells| - 1], cells)
    {
      var snap := CopyCells(cells, freshIds);
      snapshots := snapshots.(cells := snapshots.cells + [snap]);
    }
  }

  // ---------------------------------------------------------------------
  // Undo/redo history

  /** The stack after a push: the redo branch beyond `cursor` is cut off,
      the snapshot is appended and only the last `limit` entries are kept. */
  function PushedStack<T>(stack: seq<T>, cursor: int, snap: T, limit: nat): seq<T>
  {
    Suffix(Prefix(stack, cursor + 1) + [snap], limit)
  }

  /** The first push onto an empty history leaves just the new snapshot. */
  lemma PushOntoEmpty<T>(snap: T, limit: nat)
    requires limit > 0
    ensures PushedStack([], 0, snap, limit) == [snap]
  {
    assert Prefix([], 1) + [snap] == [snap];
  }

  /** How many entries survive the cut at the cursor. */
  function KeptBelow(stackLength: nat, cursor: int): (k: nat)
    ensures k <= stackLength
  {
    if cursor + 1 < 0 then 0 else if cursor + 1 < stackLength then cursor + 1 else stackLength
  }

  /** What a push keeps: at most `limit` entries, the new snapshot last, and
      before it the newest entries at or below the cursor, in order, so that
      nothing from the discarded redo branch survives. */
  lemma PushedStackShape<T>(stack: seq<T>, cursor: int, snap: T, limit: nat)
    ensures var r := PushedStack(stack, cursor, snap, limit);
      var kept := KeptBelow(|stack|, cursor);
      |r| <= limit &&
      |r| == (if kept + 1 < limit then kept + 1 else limit) &&
      (limit > 0 ==> r[|r| - 1] == snap && r[..|r| - 1] == stack[kept + 1 - |r|..kept])
  {
    PrefixIsSlice(stack, cursor);
    PushedStackIsSuffix(stack, cursor, snap, limit);
    var r := PushedStack(stack, cursor, snap, limit);
    var kept := KeptBelow(|stack|, cursor);
    if limit > 0 {
      assert r[..|r| - 1] == (stack[..kept] + [snap])[kept + 1 - |r|..kept];
    }
  }

  /** The pushed stack is the last entries of the kept slice followed by the
      snapshot. */
  lemma PushedStackIsSuffix<T>(stack: seq<T>, cursor: int, snap: T, limit: nat)
    requires Prefix(stack, cursor + 1) == stack[..KeptBelow(|stack|, cursor)]
    ensures var r := PushedStack(stack, cursor, snap, limit);
      var kept := KeptBelow(|stack|, cursor);
      |r| == (if kept + 1 < limit then kept + 1 else limit) &&
      r == (stack[..kept] + [snap])[kept + 1 - |r|..]
  {
  }

  /** The cut at the cursor is a slice of the stack. */
  lemma PrefixIsSlice<T>(stack: seq<T>, cursor: int)
    ensures Prefix(stack, cursor + 1) == stack[..KeptBelow(|stack|, cursor)]
  {
  }

  /** `RBHistory`: a bounded stack of deep-copied cell lists of `dataRef` with a cursor. */
  class History {
    const dataRef: PatternData
    var stack: seq<seq<RhythmData>>
    var cursor: int
    var limit: nat

    /** The cursor points into the stack; it is 0 (before any push) or -1
        (after a push with `limit == 0`) only when the stack is empty. */
    ghost predicate Valid()
      reads this
    {
      (|stack| == 0 ==> -1 <= cursor <= 0) &&
      (|stack| > 0 ==> 0 <= cursor < |stack|)
    }

    constructor (dataRef: PatternData)
      ensures Valid() && this.dataRef == dataRef
      ensures stack == [] && cursor == 0 && limit == 20
    {
      this.dataRef := dataRef;
      stack := [];
      cursor := 0;
      limit := 20;
    }

    predicate CanUndo()
      reads this
    {
      cursor > 0
    }

    predicate CanRedo()
      reads this
    {
      cursor < |stack| - 1
    }

    /** `push()`: record a deep copy of the pattern's current cells. */
    method Push(freshIds: seq<Id>)
      requires Valid() && |freshIds| == |dataRef.cells|
      modifies this
      ensures Valid() && limit == old(limit)
      ensures stack == PushedStack(old(stack), old(cursor), CopyCells(dataRef.cells, freshIds), limit)
      ensures cursor == |stack| - 1 && |stack| <= limit
      ensures |stack| == if KeptBelow(|old(stack)|, old(cursor)) + 1 < limit
                         then KeptBelow(|old(stack)|, old(cursor)) + 1 else limit
      ensures limit > 0 ==>
                stack[..|stack| - 1] == old(stack)[KeptBelow(|old(stack)|, old(cursor)) + 1 - |stack|..KeptBelow(|old(stack)|, old(cursor))]
      ensures !CanRedo()
      ensures limit > 0 ==> SameCells(stack[cursor], dataRef.cells)
    {
      var snap := CopyCells(dataRef.cells, freshIds);
      var pushed := PushedStack(stack, cursor, snap, limit);
      PushedStackShape(stack, cursor, snap, limit);
      stack := pushed;
      cursor := |pushed| - 1;
    }

    /** `undo()`: step the cursor back and return the entry there, or nothing
        when there is nothing to undo. The stack is never changed. */
    method Undo() returns (r: Option<seq<RhythmData>>)
      requires Valid()
      modifies this
      ensures Valid() && stack == old(stack) && limit == old(limit)
      ensures r.Some? <==> old(CanUndo())
      ensures old(CanUndo()) ==> cursor == old(cursor) - 1 && r.value == stack[cursor]
      ensures !old(CanUndo()) ==> cursor == old(cursor)
    {
      if !CanUndo() {
        return None;
      }
      cursor := cursor - 1;
      r := Some(stack[cursor]);
    }

    /** `redo()`: step the cursor forward and return the entry there, or
        nothing when there is nothing to redo. The stack is never changed. */
    method Redo() returns (r: Option<seq<RhythmData>>)
      requires Valid()
      modifies this
      ensures Valid() && stack == old(stack) && limit == old(limit)
      ensures r.Some? <==> old(CanRedo())
      ensures old(CanRedo()) ==> cursor == old(cursor) + 1 && r.value == stack[cursor]
      ensures !old(CanRedo()) ==> cursor == old(cursor)
    {
      if !CanRedo() {
        return None;
      }
      cursor := cursor + 1;
      r := Some(stack[cursor]);
    }
  }

  /** A history of `data` at the default limit holding one copy of its
      cells, the cursor on it: what a controller sets up before editing. */
  method NewHistory(data: PatternData, freshIds: seq<Id>) returns (h: History)
    requires |freshIds| == |data.cells|
    ensures fresh(h) && h.Valid() && h.dataRef == data
    ensures h.stack == [CopyCells(data.cells, freshIds)] && h.cursor == 0 && h.limit == 20
  {
    h := new History(data);
    ghost var snap := CopyCells(data.cells, freshIds);
    PushOntoEmpty(snap, 20);
    h.Push(freshIds);
    assert h.stack == [snap];
  }

  /** Cells `0, 1, ..., n - 1`, each one bar long: the growing states of the
      repository's history unit test. */
  function Ramp(n: nat, tag: string): (r: seq<RhythmData>)
    ensures |r| == n
    ensures forall i :: 0 <= i < n ==> r[i] == NewRhythm(tag, i as real, 1.0)
  {
    seq(n, i requires 0 <= i < n => NewRhythm(tag, i as real, 1.0))
  }

  /** `n` placeholder ids, all equal to `tag`: the unit test compares cells
      with `==`, which ignores identity. */
  function Ids(n: nat, tag: string): (r: seq<Id>)
    ensures |r| == n
  {
    seq(n, i => tag)
  }

  /** Holds when the stack entries are the ramps `off, off + 1, ...` and the
      cursor is on the newest one. */
  predicate HoldsRamps(stack: seq<seq<RhythmData>>, cursor: int, off: nat)
  {
    cursor == |stack| - 1 &&
    forall k :: 0 <= k < |stack| ==> SameCells(stack[k], Ramp(k + off, "test"))
  }

  /** One step of the unit test: set the cells to the next ramp and push. */
  method PushRamp(h: History, off: nat)
    requires h.Valid() && h.limit == 5 && 0 < |h.stack| <= 5
    requires HoldsRamps(h.stack, h.cursor, off)
    modifies h, h.dataRef
    ensures h.Valid() && h.limit == 5
    ensures |old(h.stack)| < 5 ==> |h.stack| == |old(h.stack)| + 1 && HoldsRamps(h.stack, h.cursor, off)
    ensures |old(h.stack)| == 5 ==> |h.stack| == 5 && HoldsRamps(h.stack, h.cursor, off + 1)
  {
    var n := |h.stack| + off;
    ghost var before, cursor := h.stack, h.cursor;
    h.dataRef.cells := Ramp(n, "live");
    h.Push(Ids(n, "copy"));
    RampsAfterPush(before, cursor, CopyCells(Ramp(n, "live"), Ids(n, "copy")), h.stack, off);
  }

  /** A push with `limit == 5` onto a stack of ramps `off, off + 1, ...`
      whose new entry holds the next ramp leaves one more ramp, or, on a
      full stack, drops the oldest. */
  lemma RampsAfterPush(before: seq<seq<RhythmData>>, cursor: int, snap: seq<RhythmData>,
                       after: seq<seq<RhythmData>>, off: nat)
    requires HoldsRamps(before, cursor, off) && 0 < |before| <= 5
    requires after == PushedStack(before, cursor, snap, 5)
    requires SameCells(snap, Ramp(|before| + off, "live"))
    ensures |before| < 5 ==> |after| == |before| + 1 && HoldsRamps(after, |after| - 1, off)
    ensures |before| == 5 ==> |after| == 5 && HoldsRamps(after, |after| - 1, off + 1)
  {
    if |before| < 5 {
      RampsAfterPushShift(before, cursor, snap, after, off, 0);
    } else {
      RampsAfterPushShift(before, cursor, snap, after, off, 1);
    }
  }

  /** `RampsAfterPush` with the number of dropped entries given: none below
      the limit, one at it. */
  lemma RampsAfterPushShift(before: seq<seq<RhythmData>>, cursor: int, snap: seq<RhythmData>,
                            after: seq<seq<RhythmData>>, off: nat, shift: nat)
    requires HoldsRamps(before, cursor, off) && 0 < |before| <= 5
    requires after == PushedStack(before, cursor, snap, 5)
    requires SameCells(snap, Ramp(|before| + off, "live"))
    requires shift == if |before| < 5 then 0 else 1
    ensures |after| == |before| + 1 - shift && HoldsRamps(after, |after| - 1, off + shift)
  {
    PrefixIsSlice(before, cursor);
    PushedStackIsSuffix(before, cursor, snap, 5);
    assert before[..|before|] == before;
    RampsShifted(before, snap, after, off, shift);
  }

  /** Appending the next ramp to a stack of ramps `off, off + 1, ...` and
      dropping `shift` entries from the bottom leaves the ramps
      `off + shift, ...`. */
  lemma RampsShifted(before: seq<seq<RhythmData>>, snap: seq<RhythmData>, after: seq<seq<RhythmData>>,
                     off: nat, shift: nat)
    requires HoldsRamps(before, |before| - 1, off) && shift <= |before|
    requires after == (before + [snap])[shift..]
    requires SameCells(snap, Ramp(|before| + off, "live"))
    ensures HoldsRamps(after, |after| - 1, off + shift)
  {
    forall k | 0 <= k < |after|
      ensures SameCells(after[k], Ramp(k + off + shift, "test"))
    {
      if k < |after| - 1 {
        assert after[k] == before[k + shift];
      } else {
        assert after[k] == snap;
        SameCellsEquivalence(snap, Ramp(|before| + off, "live"), Ramp(|before| + off, "test"));
      }
    }
  }

  /** The first part of the unit test: six pushes with `limit == 5` keep the
      five newest states (two to six cells) and leave the cursor on the last. */
  method HistoryScenarioPushes() returns (h: History)
    ensures h.Valid() && h.limit == 5 && h.cursor == 4 && |h.stack| == 5
    ensures HoldsRamps(h.stack, h.cursor, 2)
    ensures fresh(h) && fresh(h.dataRef)
  {
    h := HistoryScenarioFill();
    PushRamp(h, 0);
    assert h.cursor == 4 && |h.stack| == 5;
    PushRamp(h, 1);
    assert h.cursor == 4 && |h.stack| == 5;
  }

  /** The first five pushes of the unit test fill the history up to its
      limit, entry `k` holding `k` cells. */
  method HistoryScenarioFill() returns (h: History)
    ensures h.Valid() && h.limit == 5 && h.cursor == 4 && |h.stack| == 5
    ensures HoldsRamps(h.stack, h.cursor, 0)
    ensures fresh(h) && fresh(h.dataRef)
  {
    h := HistoryScenarioStart();
    PushRamp(h, 0);
    PushRamp(h, 0);
  }

  /** The first three pushes of the unit test: entries of 0, 1 and 2 cells. */
  method HistoryScenarioStart() returns (h: History)
    ensures h.Valid() && h.limit == 5 && h.cursor == 2 && |h.stack| == 3
    ensures HoldsRamps(h.stack, h.cursor, 0)
    ensures fresh(h) && fresh(h.dataRef)
  {
    h := HistoryScenarioFirst();
    PushRamp(h, 0);
    PushRamp(h, 0);
  }

  /** The unit test's first push: a history with limit 5 holding one empty
      entry. */
  method HistoryScenarioFirst() returns (h: History)
    ensures h.Valid() && h.limit == 5 && h.cursor == 0 && |h.stack| == 1
    ensures HoldsRamps(h.stack, h.cursor, 0)
    ensures fresh(h) && fresh(h.dataRef)
  {
    h := EmptyHistory();
    ghost var snap := CopyCells(h.dataRef.cells, []);
    PushOntoEmpty(snap, 5);
    h.Push([]);
    assert h.stack == [snap];
    EmptyEntryHoldsRamps(snap);
  }

  /** A stack whose one entry has no cells holds the ramps from 0. */
  lemma EmptyEntryHoldsRamps(snap: seq<RhythmData>)
    requires snap == []
    ensures HoldsRamps([snap], 0, 0)
  {
    assert Ramp(0, "test") == [];
  }

  /** The unit test's setup: an empty pattern and a history of it with
      limit 5 and nothing pushed. */
  method EmptyHistory() returns (h: History)
    ensures h.Valid() && h.limit == 5 && h.cursor == 0 && h.stack == [] && h.dataRef.cells == []
    ensures fresh(h) && fresh(h.dataRef)
  {
    var data := new PatternData("pattern", [], SnapshotData("bank", [], 0), 0.0);
    h := new History(data);
    h.limit := 5;
  }

  /** The rest of the unit test: four undos return states 5, 4, 3 and 2, a
      fifth returns nothing; four redos return states 3 to 6, a fifth returns
      nothing; a push after two undos leaves four entries, the cursor on the
      last one and nothing to redo. */
  method HistoryScenario() returns (cursor: int, count: int, canRedo: bool)
    ensures cursor == 3 && count == 4 && !canRedo
  {
    var h := HistoryScenarioPushes();
    HistoryScenarioUndos(h);
    HistoryScenarioRedos(h);
    var r := h.Undo();
    assert r.Some? && SameCells(r.value, Ramp(5, "test"));
    r := h.Undo();
    assert r.Some? && SameCells(r.value, Ramp(4, "test"));
    h.dataRef.cells := [NewRhythm("n1", 0.0, 0.0), NewRhythm("n2", 10.0, 0.0)];
    h.Push(["f1", "f2"]);
    cursor, count, canRedo := h.cursor, |h.stack|, h.CanRedo();
  }

  /** Four undos from the newest of the five ramps return states 5, 4, 3
      and 2; a fifth returns nothing. */
  method HistoryScenarioUndos(h: History)
    requires h.Valid() && h.limit == 5 && h.cursor == 4 && |h.stack| == 5
    requires HoldsRamps(h.stack, h.cursor, 2)
    modifies h
    ensures h.Valid() && h.limit == 5 && h.cursor == 0 && h.stack == old(h.stack)
  {
    assert !h.CanRedo();
    var r := h.Undo();
    assert r.Some? && SameCells(r.value, Ramp(5, "test")) && h.cursor == 3;
    r := h.Undo();
    assert r.Some? && SameCells(r.value, Ramp(4, "test")) && h.cursor == 2;
    r := h.Undo();
    assert r.Some? && SameCells(r.value, Ramp(3, "test")) && h.cursor == 1;
    r := h.Undo();
    assert r.Some? && SameCells(r.value, Ramp(2, "test")) && h.cursor == 0;
    assert !h.CanUndo();
    r := h.Undo();
    assert r == None && h.cursor == 0 && |h.stack| == 5;
  }

  /** Four redos from the oldest of the five ramps return states 3 to 6; a
      fifth returns nothing. */
  method HistoryScenarioRedos(h: History)
    requires h.Valid() && h.limit == 5 && h.cursor == 0 && |h.stack| == 5
    requires forall k :: 0 <= k < 5 ==> SameCells(h.stack[k], Ramp(k + 2, "test"))
    modifies h
    ensures h.Valid() && h.limit == 5 && h.cursor == 4 && h.stack == old(h.stack)
  {
    assert h.CanRedo();
    var r := h.Redo();
    assert r.Some? && SameCells(r.value, Ramp(3, "test")) && h.cursor == 1;
    r := h.Redo();
    assert r.Some? && SameCells(r.value, Ramp(4, "test")) && h.cursor == 2;
    r := h.Redo();
    assert r.Some? && SameCells(r.value, Ramp(5, "test")) && h.cursor == 3;
    r := h.Redo();
    assert r.Some? && SameCells(r.value, Ramp(6, "test")) && h.cursor == 4;
    assert !h.CanRedo();
    r := h.Redo();
    assert r == None && h.cursor == 4 && |h.stack| == 5;
  }
}
